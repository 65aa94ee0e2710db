/** The generator's view of the merged schema: element types that carry their
    element collection inline (`MergedElementDataType`), the reduced element record
    used as a table key (`SimpleElement`) and the entries of the sub-element table
    (`GroupItem`). Their declarations are not part of this model; the shapes below
    follow their uses in the generator sources. */
module GeneratorTypes {
  import opened Wrappers
  import Xsd
  import opened AutosarTypes

  datatype MergedType =
    | ElementsGroup(collection: ElementCollection)
    | Elements(collection: ElementCollection, attributes: seq<Attribute>, xsdTypenames: set<string>)
    | Characters(attributes: seq<Attribute>, basetype: string)
    | Mixed(collection: ElementCollection, attributes: seq<Attribute>, basetype: string)
  {
    /** `collection()`: present for every kind except character content. */
    function Collection(): (r: Option<ElementCollection>)
      ensures r.Some? <==> !Characters?
      ensures r.Some? ==> r.value == collection
    {
      match this
      case ElementsGroup(c) => Some(c)
      case Elements(c, _, _) => Some(c)
      case Mixed(c, _, _) => Some(c)
      case Characters(_, _) => None
    }

    /** `attributes()`: a group has none. */
    function Attributes(): (r: seq<Attribute>)
      ensures ElementsGroup? ==> r == []
      ensures !ElementsGroup? ==> r == attributes
    {
      match this
      case ElementsGroup(_) => []
      case Elements(_, a, _) => a
      case Characters(a, _) => a
      case Mixed(_, a, _) => a
    }

    /** `basetype()`: present exactly for character content. */
    function Basetype(): (r: Option<string>)
      ensures r.Some? <==> (Characters? || Mixed?)
      ensures r.Some? ==> r.value == basetype
    {
      match this
      case Characters(_, b) => Some(b)
      case Mixed(_, _, b) => Some(b)
      case _ => None
    }

    /** `xsd_typenames()`: recorded only for pure element content. */
    function XsdTypenames(): (r: Option<set<string>>)
      ensures r.Some? <==> Elements?
      ensures r.Some? ==> r.value == xsdTypenames
    {
      match this
      case Elements(_, _, x) => Some(x)
      case _ => None
    }

    /** The sub-items of the type's collection; none without a collection
        (`collection().map_or(.., |ec| ec.items())`). */
    function Items(): (r: seq<ElementCollectionItem>)
      ensures Characters? ==> r == []
      ensures !Characters? ==> r == collection.Items()
    {
      match Collection()
      case None => []
      case Some(c) => c.Items()
    }
  }

  /** An element without its version tag. */
  datatype SimpleElement = SimpleElement(
    name: string,
    typeref: string,
    amount: ElementAmount,
    splittable: bool,
    ordered: bool,
    restrictStd: Xsd.RestrictToStandard,
    docstring: Option<string>)

  /** `SimpleElement::from`: every field of the element except its version tag. */
  function FromElement(e: Element): SimpleElement
  {
    SimpleElement(e.name, e.typeref, e.amount, e.splittable, e.ordered, e.restrictStd, e.docstring)
  }

  /** An entry of the sub-element table: an index into the element definitions or
      into the alphabetical list of type names. */
  datatype GroupItem = ElementRef(elementIndex: nat) | GroupRef(typeIndex: nat)
}
