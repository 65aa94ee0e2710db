/** The per-version type records that the flattener produces and the cross-version
    merge folds together (the `DataType` shape used by src/flatten.rs and
    src/merge.rs). Unlike the merged model of `AutosarTypes`, an element type here
    carries its element collection inline, and an attribute carries a structured
    attribute type. */
module FlatTypes {
  import opened Wrappers
  import AutosarTypes

  type Version = bv64

  /** An element as `Element::new` builds it in the flattener. */
  datatype Element = Element(name: string, typeref: string, amount: AutosarTypes.ElementAmount, versionInfo: Version)

  datatype ElementCollectionItem = ElementItem(element: Element) | GroupRef(groupRef: string)
  {
    /** `ElementCollectionItem::name`: an element's name, or the referenced group's name. */
    function Name(): (r: string)
      ensures ElementItem? ==> r == element.name
      ensures GroupRef? ==> r == groupRef
    {
      match this
      case ElementItem(e) => e.name
      case GroupRef(g) => g
    }
  }

  datatype ElementCollection =
    | Choice(name: string, subElements: seq<ElementCollectionItem>, amount: AutosarTypes.ElementAmount)
    | Sequence(name: string, subElements: seq<ElementCollectionItem>)
  {
    /** `ElementCollection::items`: the sub-elements of either kind of collection. */
    function Items(): (r: seq<ElementCollectionItem>)
      ensures r == subElements
    {
      match this
      case Choice(_, items, _) => items
      case Sequence(_, items) => items
    }
  }

  /** How the value of an attribute is constrained. */
  datatype AttributeType =
    | Basic(basetype: string)
    | PatternType(typename: string, pattern: string, maxlength: Option<nat>)
    | EnumType(enumref: string)
  {
    /** The character type an attribute type refers to (its base type for a basic one). */
    function Name(): (r: string)
      ensures Basic? ==> r == basetype
      ensures PatternType? ==> r == typename
      ensures EnumType? ==> r == enumref
    {
      match this
      case Basic(b) => b
      case PatternType(t, _, _) => t
      case EnumType(e) => e
    }
  }

  datatype Attribute = Attribute(name: string, attributeType: AttributeType, required: bool, versionInfo: Version)

  datatype EnumDefinition = EnumDefinition(name: string, enumitems: seq<(string, Version)>)

  datatype DataType =
    | Elements(collection: ElementCollection, attributes: seq<Attribute>)
    | Characters(basetype: string, restrictionPattern: Option<string>, maxLength: Option<nat>, attributes: seq<Attribute>)
    | Mixed(collection: ElementCollection, attributes: seq<Attribute>, basetype: string)
    | Enum(enumDef: EnumDefinition)
    | ElementsGroup(collection: ElementCollection)
  {
    /** `DataType::collection`: the element collection of the kinds that have one. */
    function Collection(): (r: Option<ElementCollection>)
      ensures r.Some? <==> (Elements? || Mixed? || ElementsGroup?)
      ensures r.Some? ==> r.value == collection
    {
      match this
      case Elements(c, _) => Some(c)
      case Mixed(c, _, _) => Some(c)
      case ElementsGroup(c) => Some(c)
      case _ => None
    }

    /** `DataType::attributes`: the attribute list of the kinds that have one. */
    function Attributes(): (r: Option<seq<Attribute>>)
      ensures r.Some? <==> (Elements? || Characters? || Mixed?)
      ensures r.Some? ==> r.value == attributes
    {
      match this
      case Elements(_, a) => Some(a)
      case Characters(_, _, _, a) => Some(a)
      case Mixed(_, a, _) => Some(a)
      case _ => None
    }
  }
}
