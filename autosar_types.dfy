/** The merged, version-tagged type model the generator consumes (src/main.rs):
    element types, character types and element groups, each keyed by name. */
module AutosarTypes {
  import opened Wrappers
  import Xsd

  /** A set of schema versions, one bit per configured schema file (a `usize`). */
  type Version = bv64

  datatype ElementAmount = ZeroOrOne | One | Any

  datatype Element = Element(
    name: string,
    typeref: string,
    amount: ElementAmount,
    versionInfo: Version,
    splittable: bool,
    ordered: bool,
    restrictStd: Xsd.RestrictToStandard,
    docstring: Option<string>)

  datatype ElementCollectionItem = ElementItem(element: Element) | GroupRef(groupRef: string)
  {
    /** `ElementCollectionItem::name`: an element's name, or the referenced group's name. */
    function Name(): (r: string)
      ensures ElementItem? ==> r == element.name
      ensures GroupRef? ==> r == groupRef
    {
      match this
      case ElementItem(e) => e.name
      case GroupRef(g) => g
    }
  }

  datatype ElementCollection =
    | Choice(name: string, subElements: seq<ElementCollectionItem>, amount: ElementAmount)
    | Sequence(name: string, subElements: seq<ElementCollectionItem>)
  {
    /** `ElementCollection::items`: the sub-elements of either kind of collection. */
    function Items(): (r: seq<ElementCollectionItem>)
      ensures r == subElements
    {
      match this
      case Choice(_, items, _) => items
      case Sequence(_, items) => items
    }
  }

  datatype Attribute = Attribute(name: string, attrType: string, required: bool, versionInfo: Version)

  datatype ElementDataType =
    | Elements(groupRef: string, attributes: seq<Attribute>, xsdTypenames: set<string>)
    | Characters(attributes: seq<Attribute>, basetype: string)
    | Mixed(groupRef: string, attributes: seq<Attribute>, basetype: string)
  {
    /** `ElementDataType::group_ref`: present exactly for types with element content. */
    function GroupRefOf(): (r: Option<string>)
      ensures r.Some? <==> !Characters?
      ensures r.Some? ==> r.value == groupRef
    {
      match this
      case Elements(g, _, _) => Some(g)
      case Mixed(g, _, _) => Some(g)
      case Characters(_, _) => None
    }

    /** `ElementDataType::attributes`: every variant has an attribute list. */
    function AttributesOf(): (r: seq<Attribute>)
      ensures r == attributes
    {
      match this
      case Elements(_, a, _) => a
      case Characters(a, _) => a
      case Mixed(_, a, _) => a
    }

    /** `ElementDataType::xsd_typenames`: only pure element content records its XSD type names. */
    function XsdTypenamesOf(): (r: Option<set<string>>)
      ensures r.Some? <==> Elements?
      ensures r.Some? ==> r.value == xsdTypenames
    {
      if Elements? then Some(xsdTypenames) else None
    }

    /** `ElementDataType::basetype`: present exactly for types with character content. */
    function BasetypeOf(): (r: Option<string>)
      ensures r.Some? <==> !Elements?
      ensures r.Some? ==> r.value == basetype
    {
      match this
      case Characters(_, b) => Some(b)
      case Mixed(_, _, b) => Some(b)
      case Elements(_, _, _) => None
    }
  }

  datatype EnumDefinition = EnumDefinition(name: string, enumitems: seq<(string, Version)>)

  datatype CharacterDataType =
    | Pattern(pattern: string, maxLength: Option<nat>)
    | Enum(enumDef: EnumDefinition)
    | String(maxLength: Option<nat>, preserveWhitespace: bool)
    | UnsignedInteger
    | Double

  datatype AutosarDataTypes = AutosarDataTypes(
    elementTypes: map<string, ElementDataType>,
    characterTypes: map<string, CharacterDataType>,
    groupTypes: map<string, ElementCollection>)

  /** `AutosarDataTypes::new`: the model starts with the five XSD primitive types. */
  method NewTypes() returns (adt: AutosarDataTypes)
    ensures adt.elementTypes == map[] && adt.groupTypes == map[]
    ensures adt.characterTypes.Keys == {"xsd:string", "xsd:NMTOKEN", "xsd:NMTOKENS", "xsd:unsignedInt", "xsd:double"}
    ensures forall n :: n in {"xsd:string", "xsd:NMTOKEN", "xsd:NMTOKENS"} ==>
              adt.characterTypes[n] == String(None, false)
    ensures adt.characterTypes["xsd:unsignedInt"] == UnsignedInteger
    ensures adt.characterTypes["xsd:double"] == Double
  {
    adt := AutosarDataTypes(map[], map[], map[]);
    adt := adt.(characterTypes := adt.characterTypes["xsd:string" := String(None, false)]);
    adt := adt.(characterTypes := adt.characterTypes["xsd:NMTOKEN" := String(None, false)]);
    adt := adt.(characterTypes := adt.characterTypes["xsd:NMTOKENS" := String(None, false)]);
    adt := adt.(characterTypes := adt.characterTypes["xsd:unsignedInt" := UnsignedInteger]);
    adt := adt.(characterTypes := adt.characterTypes["xsd:double" := Double]);
  }

  // ---------------------------------------------------------------- reference closure

  /** Every element inside a group names an element type. */
  ghost predicate GroupElementsResolve(t: AutosarDataTypes)
  {
    forall g, item :: g in t.groupTypes && item in t.groupTypes[g].Items() && item.ElementItem? ==>
      item.element.typeref in t.elementTypes
  }

  /** Every element type with element content names a group. */
  ghost predicate ElementGroupsResolve(t: AutosarDataTypes)
  {
    forall n :: n in t.elementTypes && t.elementTypes[n].GroupRefOf().Some? ==>
      t.elementTypes[n].groupRef in t.groupTypes
  }

  /** Every attribute names a character type. */
  ghost predicate AttributeTypesResolve(t: AutosarDataTypes)
  {
    forall n, a :: n in t.elementTypes && a in t.elementTypes[n].attributes ==> a.attrType in t.characterTypes
  }

  /** The three reference kinds `sanity_check` inspects all resolve. */
  ghost predicate SanityOk(t: AutosarDataTypes)
  {
    GroupElementsResolve(t) && ElementGroupsResolve(t) && AttributeTypesResolve(t)
  }

  /** Every group reference inside a group names a group (not inspected by `sanity_check`). */
  ghost predicate GroupRefsResolve(t: AutosarDataTypes)
  {
    forall g, item :: g in t.groupTypes && item in t.groupTypes[g].Items() && item.GroupRef? ==>
      item.groupRef in t.groupTypes
  }

  /** Every type with character content names a character type (not inspected by `sanity_check`). */
  ghost predicate BasetypesResolve(t: AutosarDataTypes)
  {
    forall n :: n in t.elementTypes && t.elementTypes[n].BasetypeOf().Some? ==>
      t.elementTypes[n].basetype in t.characterTypes
  }

  /** Every name the model uses as a reference is defined. */
  ghost predicate FullyResolved(t: AutosarDataTypes)
  {
    SanityOk(t) && GroupRefsResolve(t) && BasetypesResolve(t)
  }

  /** One diagnostic `sanity_check` prints. */
  datatype SanityFinding =
    | MissingElementType(group: string, typeref: string)
    | MissingGroup(typename: string, group: string)
    | MissingCharacterType(typename: string, attribute: string, attrType: string)

  /** The group items whose element type is missing (first loop of `sanity_check`). */
  function GroupFindings(t: AutosarDataTypes): (r: set<SanityFinding>)
    ensures r == {} <==> GroupElementsResolve(t)
    ensures forall f :: f in r ==> f.MissingElementType? && f.group in t.groupTypes && f.typeref !in t.elementTypes
  {
    var r := set g, item | g in t.groupTypes && item in t.groupTypes[g].Items() && item.ElementItem? &&
                           item.element.typeref !in t.elementTypes
                         :: MissingElementType(g, item.element.typeref);
    assert !GroupElementsResolve(t) ==> r != {} by {
      if !GroupElementsResolve(t) {
        var g, item :| g in t.groupTypes && item in t.groupTypes[g].Items() && item.ElementItem? &&
                       item.element.typeref !in t.elementTypes;
        assert MissingElementType(g, item.element.typeref) in r;
      }
    }
    r
  }

  /** The element types whose group is missing (second loop of `sanity_check`). */
  function RefFindings(t: AutosarDataTypes): (r: set<SanityFinding>)
    ensures r == {} <==> ElementGroupsResolve(t)
    ensures forall f :: f in r ==> f.MissingGroup? && f.typename in t.elementTypes && f.group !in t.groupTypes
  {
    var r := set n | n in t.elementTypes && t.elementTypes[n].GroupRefOf().Some? &&
                     t.elementTypes[n].groupRef !in t.groupTypes
                   :: MissingGroup(n, t.elementTypes[n].groupRef);
    assert !ElementGroupsResolve(t) ==> r != {} by {
      if !ElementGroupsResolve(t) {
        var n :| n in t.elementTypes && t.elementTypes[n].GroupRefOf().Some? && t.elementTypes[n].groupRef !in t.groupTypes;
        assert MissingGroup(n, t.elementTypes[n].groupRef) in r;
      }
    }
    r
  }

  /** The attributes whose character type is missing (third loop of `sanity_check`). */
  function AttrFindings(t: AutosarDataTypes): (r: set<SanityFinding>)
    ensures r == {} <==> AttributeTypesResolve(t)
    ensures forall f :: f in r ==>
              f.MissingCharacterType? && f.typename in t.elementTypes && f.attrType !in t.characterTypes
  {
    var r := set n, a | n in t.elementTypes && a in t.elementTypes[n].attributes &&
                        a.attrType !in t.characterTypes
                      :: MissingCharacterType(n, a.name, a.attrType);
    assert !AttributeTypesResolve(t) ==> r != {} by {
      if !AttributeTypesResolve(t) {
        var n, a :| n in t.elementTypes && a in t.elementTypes[n].attributes && a.attrType !in t.characterTypes;
        assert MissingCharacterType(n, a.name, a.attrType) in r;
      }
    }
    r
  }

  /** `sanity_check`, with the printed lines collected as a set of findings. */
  function SanityFindings(t: AutosarDataTypes): (r: set<SanityFinding>)
    ensures r == {} <==> SanityOk(t)
    ensures forall f :: f in r && f.MissingElementType? ==> f.group in t.groupTypes && f.typeref !in t.elementTypes
    ensures forall f :: f in r && f.MissingGroup? ==> f.typename in t.elementTypes && f.group !in t.groupTypes
    ensures forall f :: f in r && f.MissingCharacterType? ==>
              f.typename in t.elementTypes && f.attrType !in t.characterTypes
  {
    GroupFindings(t) + RefFindings(t) + AttrFindings(t)
  }

  /** The freshly seeded model passes the check. */
  lemma NewTypesSane(adt: AutosarDataTypes)
    requires adt.elementTypes == map[] && adt.groupTypes == map[]
    ensures SanityOk(adt)
  {
  }

  // ---------------------------------------------------------------- versions

  /** The schema files the generator knows, oldest first (`XSD_CONFIG`). */
  const XsdConfigNames: seq<string> := [
    "AUTOSAR_4-0-1.xsd", "AUTOSAR_4-0-2.xsd", "AUTOSAR_4-0-3.xsd", "AUTOSAR_4-1-1.xsd",
    "AUTOSAR_4-1-2.xsd", "AUTOSAR_4-1-3.xsd", "AUTOSAR_4-2-1.xsd", "AUTOSAR_4-2-2.xsd",
    "AUTOSAR_4-3-0.xsd", "AUTOSAR_00042.xsd", "AUTOSAR_00043.xsd", "AUTOSAR_00044.xsd",
    "AUTOSAR_00045.xsd", "AUTOSAR_00046.xsd", "AUTOSAR_00047.xsd", "AUTOSAR_00048.xsd",
    "AUTOSAR_00049.xsd", "AUTOSAR_00050.xsd", "AUTOSAR_00051.xsd"]

  /** The version tag of the schema at position `index` of the configuration: `1 << index`. */
  function VersionBit(index: nat): (v: Version)
    requires index < |XsdConfigNames|
    ensures v != 0 && v & (v - 1) == 0
  {
    (1 as bv64) << index
  }

  /** Distinct configured schemas get disjoint version bits. */
  lemma VersionBitsDisjoint(i: nat, j: nat)
    requires i < |XsdConfigNames| && j < |XsdConfigNames| && i != j
    ensures VersionBit(i) & VersionBit(j) == 0
  {
  }
}
