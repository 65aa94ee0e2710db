/** Flattening of one parsed schema version into flat type records (src/flatten.rs).
    A work list of type names, seeded with the root element's type, is drained; each
    name is resolved against the schema's groups and types, nested choices and
    sequences are simplified into one element list, and every referenced type name
    is queued in turn. */
module Flatten {
  import opened Wrappers
  import opened FlatTypes
  import opened Order
  import Xsd
  import AutosarTypes

  type Amount = AutosarTypes.ElementAmount

  // ---------------------------------------------------------------- multiplicities

  /** The least number of occurrences an amount allows (0 for `Any`, which also
      stands for every range the other two cannot express). */
  function MinOccurs(a: Amount): nat
  {
    if a.One? then 1 else 0
  }

  /** Whether an amount allows at most one occurrence. */
  predicate AtMostOne(a: Amount)
  {
    !a.Any?
  }

  /** `combine_amounts`: the multiplicity of a particle nested in another one. As for
      the effective total range of nested particles (section 3.9 of W3C XML Schema
      1.0 Part 1), the lower bounds multiply and the upper bound stays one only when
      both upper bounds are one. */
  function CombineAmounts(a: Amount, b: Amount): (r: Amount)
    ensures MinOccurs(r) == MinOccurs(a) * MinOccurs(b)
    ensures AtMostOne(r) <==> AtMostOne(a) && AtMostOne(b)
  {
    match (a, b)
    case (ZeroOrOne, ZeroOrOne) => AutosarTypes.ZeroOrOne
    case (ZeroOrOne, One) => AutosarTypes.ZeroOrOne
    case (One, ZeroOrOne) => AutosarTypes.ZeroOrOne
    case (One, One) => AutosarTypes.One
    case (_, Any) => AutosarTypes.Any
    case (Any, _) => AutosarTypes.Any
  }

  /** Every amount is determined by its lower bound and whether it is at most one. */
  lemma AmountByBounds(a: Amount, b: Amount)
    requires MinOccurs(a) == MinOccurs(b) && (AtMostOne(a) <==> AtMostOne(b))
    ensures a == b
  {
  }

  /** `combine_amounts` is commutative, associative and idempotent, `One` is its
      identity and `Any` absorbs everything. */
  lemma {:induction false} CombineAmountsAlgebra(a: Amount, b: Amount, c: Amount)
    ensures CombineAmounts(a, b) == CombineAmounts(b, a)
    ensures CombineAmounts(CombineAmounts(a, b), c) == CombineAmounts(a, CombineAmounts(b, c))
    ensures CombineAmounts(a, a) == a
    ensures CombineAmounts(AutosarTypes.One, a) == a
    ensures CombineAmounts(AutosarTypes.Any, a) == AutosarTypes.Any
  {
    AmountByBounds(CombineAmounts(a, b), CombineAmounts(b, a));
    AmountByBounds(CombineAmounts(CombineAmounts(a, b), c), CombineAmounts(a, CombineAmounts(b, c)));
    AmountByBounds(CombineAmounts(a, a), a);
    AmountByBounds(CombineAmounts(AutosarTypes.One, a), a);
  }

  /** `occurs_to_amount`: exactly once is `One`, optional is `ZeroOrOne`, any other
      pair of bounds is `Any`. */
  function OccursToAmount(minOccurs: nat, maxOccurs: nat): (r: Amount)
    ensures r.One? <==> minOccurs == 1 && maxOccurs == 1
    ensures r.ZeroOrOne? <==> minOccurs == 0 && maxOccurs == 1
    ensures AtMostOne(r) <==> minOccurs <= 1 && maxOccurs == 1
    ensures AtMostOne(r) ==> MinOccurs(r) == minOccurs
  {
    if minOccurs == 1 && maxOccurs == 1 then AutosarTypes.One
    else if minOccurs == 0 && maxOccurs == 1 then AutosarTypes.ZeroOrOne
    else AutosarTypes.Any
  }

  /** `Element::new`: a flat element for a schema element, tagged with the version. */
  function NewElement(e: Xsd.XsdElement, versionInfo: Version): (r: Element)
    ensures r.name == e.name && r.typeref == e.typeref && r.versionInfo == versionInfo
    ensures r.amount == OccursToAmount(e.minOccurs, e.maxOccurs)
  {
    Element(e.name, e.typeref, OccursToAmount(e.minOccurs, e.maxOccurs), versionInfo)
  }

  /** Every element in the list carries the version tag `v`. */
  ghost predicate Stamped(items: seq<ElementCollectionItem>, v: Version)
  {
    forall i :: 0 <= i < |items| ==> items[i].ElementItem? ==> items[i].element.versionInfo == v
  }

  // ---------------------------------------------------------------- simple types and attributes

  /** `flatten_simple_type`: a pattern, a plain restriction or a literal becomes a
      character type without attributes; an enumeration becomes an enum named after
      the type whose literals all carry the schema version. */
  function FlattenSimpleType(data: Xsd.Xsd, simpleType: Xsd.XsdSimpleType, typename: string): (r: DataType)
    ensures r.Enum? <==> simpleType.restriction.EnumValues?
    ensures r.Characters? <==> !simpleType.restriction.EnumValues?
    ensures r.Characters? ==> r.attributes == []
    ensures r.Characters? ==> (r.restrictionPattern.Some? <==> simpleType.restriction.PatternRestriction?)
    ensures r.Enum? ==> r.enumDef.name == typename && |r.enumDef.enumitems| == |simpleType.restriction.enumvalues|
    ensures r.Enum? ==> forall i :: 0 <= i < |r.enumDef.enumitems| ==>
      r.enumDef.enumitems[i] == (simpleType.restriction.enumvalues[i], data.versionInfo)
  {
    match simpleType.restriction
    case PatternRestriction(pattern, maxlength) => Characters("xsd:string", Some(pattern), maxlength, [])
    case Plain(basetype) => Characters(basetype, None, None, [])
    case Literal => Characters("xsd:string", None, None, [])
    case EnumValues(values) =>
      Enum(EnumDefinition(typename, seq(|values|, i requires 0 <= i < |values| => (values[i], data.versionInfo))))
  }

  /** `build_attribute`: resolves the attribute's type. Base types and plain
      restrictions give a basic attribute, patterns and enumerations refer to the
      attribute's own type name; a missing type, a literal restriction or a complex
      type is an error. */
  function BuildAttribute(data: Xsd.Xsd, attr: Xsd.XsdAttribute): (r: Result<Attribute>)
    ensures r.Err? <==> attr.typeref !in data.types
                        || data.types[attr.typeref].Complex?
                        || (data.types[attr.typeref].Simple? && data.types[attr.typeref].simpleType.restriction.Literal?)
    ensures r.Ok? ==> r.value.name == attr.name && r.value.required == attr.required
                      && r.value.versionInfo == data.versionInfo
    ensures r.Ok? && !r.value.attributeType.Basic? ==> r.value.attributeType.Name() == attr.typeref
    ensures r.Ok? && r.value.attributeType.PatternType? ==>
      data.types[attr.typeref] == Xsd.Simple(Xsd.Restriction(
        Xsd.PatternRestriction(r.value.attributeType.pattern, r.value.attributeType.maxlength)))
  {
    if attr.typeref !in data.types then
      Err("Error: attribute references type " + attr.typeref + ", but the type was not found")
    else
      var attrType :=
        match data.types[attr.typeref]
        case Base(basetype) => Ok(Basic(basetype))
        case Simple(Restriction(PatternRestriction(pattern, maxlength))) =>
          Ok(PatternType(attr.typeref, pattern, maxlength))
        case Simple(Restriction(Plain(basetype))) => Ok(Basic(basetype))
        case Simple(Restriction(Literal)) => Err("Error: whitespace-preserving type for an attribute")
        case Simple(Restriction(EnumValues(_))) => Ok(EnumType(attr.typeref))
        case Complex(_) => Err("Error: complex type for an attribute");
      match attrType
      case Ok(t) => Ok(Attribute(attr.name, t, attr.required, data.versionInfo))
      case Err(e) => Err(e)
  }

  /** Every named attribute group exists. */
  predicate GroupsExist(data: Xsd.Xsd, groups: seq<string>)
  {
    forall i :: 0 <= i < |groups| ==> groups[i] in data.attributeGroups
  }

  /** The attributes of the named groups, group after group. */
  function GroupAttributes(data: Xsd.Xsd, groups: seq<string>): (r: seq<Xsd.XsdAttribute>)
    requires GroupsExist(data, groups)
  {
    if |groups| == 0 then []
    else GroupAttributes(data, groups[..|groups| - 1]) + data.attributeGroups[groups[|groups| - 1]].attributes
  }

  /** Every attribute of the list can be built. */
  predicate AllBuild(data: Xsd.Xsd, attrs: seq<Xsd.XsdAttribute>)
  {
    forall i :: 0 <= i < |attrs| ==> BuildAttribute(data, attrs[i]).Ok?
  }

  /** The attributes built from a list that builds. */
  function BuiltAll(data: Xsd.Xsd, attrs: seq<Xsd.XsdAttribute>): (r: seq<Attribute>)
    requires AllBuild(data, attrs)
    ensures |r| == |attrs|
    ensures forall i :: 0 <= i < |attrs| ==> r[i] == BuildAttribute(data, attrs[i]).value
  {
    seq(|attrs|, i requires 0 <= i < |attrs| => BuildAttribute(data, attrs[i]).value)
  }

  /** Every direct attribute builds, every group exists and all group attributes build. */
  predicate AttributeListBuilds(data: Xsd.Xsd, attrs: seq<Xsd.XsdAttribute>, groups: seq<string>)
  {
    AllBuild(data, attrs) && GroupsExist(data, groups) && AllBuild(data, GroupAttributes(data, groups))
  }

  /** The direct attributes first, then the attributes of each group in order. */
  function AttributeList(data: Xsd.Xsd, attrs: seq<Xsd.XsdAttribute>, groups: seq<string>): (r: seq<Attribute>)
    requires AttributeListBuilds(data, attrs, groups)
    ensures |r| == |attrs| + |GroupAttributes(data, groups)|
    ensures r[..|attrs|] == BuiltAll(data, attrs)
  {
    BuiltAll(data, attrs) + BuiltAll(data, GroupAttributes(data, groups))
  }

  /** `build_attribute_list`: the direct attributes first, then the attributes of each
      referenced attribute group in order. It fails exactly when an attribute cannot
      be built or a group does not exist. */
  method BuildAttributeList(data: Xsd.Xsd, attrs: seq<Xsd.XsdAttribute>, groups: seq<string>)
    returns (r: Result<seq<Attribute>>)
    ensures r.Ok? <==> AttributeListBuilds(data, attrs, groups)
    ensures r.Ok? ==> r.value == AttributeList(data, attrs, groups)
  {
    var built := BuildEach(data, attrs);
    if built.Err? {
      return Err(built.msg);
    }
    var fromGroups: seq<Attribute> := [];
    for g := 0 to |groups|
      invariant GroupsExist(data, groups[..g])
      invariant AllBuild(data, GroupAttributes(data, groups[..g]))
      invariant fromGroups == BuiltAll(data, GroupAttributes(data, groups[..g]))
    {
      var name := groups[g];
      assert groups[..g + 1][..g] == groups[..g];
      if name !in data.attributeGroups {
        assert !GroupsExist(data, groups) by {
          assert groups[g] !in data.attributeGroups;
        }
        return Err("Error: attribute group " + name + " is referenced but not found");
      }
      var members := data.attributeGroups[name].attributes;
      ghost var before := GroupAttributes(data, groups[..g]);
      assert GroupAttributes(data, groups[..g + 1]) == before + members;
      var more := BuildEach(data, members);
      if more.Err? {
        var k :| 0 <= k < |members| && BuildAttribute(data, members[k]).Err?;
        assert before + members[..k] + [members[k]] <= GroupAttributes(data, groups[..g + 1]) by {
          assert before + members[..k] + [members[k]] == (before + members)[..|before| + k + 1];
        }
        PrefixBuildFails(data, groups, g, before + members[..k], members[k]);
        return Err(more.msg);
      }
      BuiltAllConcat(data, before, members);
      fromGroups := fromGroups + more.value;
    }
    assert groups[..|groups|] == groups;
    return Ok(built.value + fromGroups);
  }

  /** The inner loop of `build_attribute_list` over a list of attributes: the first
      attribute that cannot be built ends it with its error. */
  method BuildEach(data: Xsd.Xsd, attrs: seq<Xsd.XsdAttribute>) returns (r: Result<seq<Attribute>>)
    ensures r.Ok? <==> AllBuild(data, attrs)
    ensures r.Ok? ==> r.value == BuiltAll(data, attrs)
    ensures r.Err? ==> exists i :: 0 <= i < |attrs| && BuildAttribute(data, attrs[i]) == Err(r.msg) && AllBuild(data, attrs[..i])
  {
    var built: seq<Attribute> := [];
    for i := 0 to |attrs|
      invariant AllBuild(data, attrs[..i])
      invariant built == BuiltAll(data, attrs[..i])
    {
      var a := BuildAttribute(data, attrs[i]);
      if a.Err? {
        return Err(a.msg);
      }
      built := built + [a.value];
      assert attrs[..i + 1][i] == attrs[i];
    }
    assert attrs[..|attrs|] == attrs;
    return Ok(built);
  }

  /** Building a concatenation builds its two parts. */
  lemma BuiltAllConcat(data: Xsd.Xsd, a: seq<Xsd.XsdAttribute>, b: seq<Xsd.XsdAttribute>)
    requires AllBuild(data, a) && AllBuild(data, b)
    ensures AllBuild(data, a + b)
    ensures BuiltAll(data, a + b) == BuiltAll(data, a) + BuiltAll(data, b)
  {
    assert forall i :: 0 <= i < |a + b| ==> (a + b)[i] == if i < |a| then a[i] else b[i - |a|];
  }

  /** The attributes of a prefix of the groups come first in the attributes of all. */
  lemma {:induction false} GroupAttributesPrefix(data: Xsd.Xsd, groups: seq<string>, n: nat)
    requires GroupsExist(data, groups) && n <= |groups|
    ensures GroupsExist(data, groups[..n])
    ensures GroupAttributes(data, groups[..n]) <= GroupAttributes(data, groups)
    decreases |groups| - n
  {
    if n < |groups| {
      GroupAttributesPrefix(data, groups, n + 1);
      assert groups[..n + 1][..n] == groups[..n];
    } else {
      assert groups[..n] == groups;
    }
  }

  /** An attribute that fails to build, in a group, makes the whole list fail. */
  lemma PrefixBuildFails(data: Xsd.Xsd, groups: seq<string>, g: nat, done: seq<Xsd.XsdAttribute>, bad: Xsd.XsdAttribute)
    requires g < |groups| && GroupsExist(data, groups[..g + 1])
    requires done + [bad] <= GroupAttributes(data, groups[..g + 1])
    requires BuildAttribute(data, bad).Err?
    ensures !(GroupsExist(data, groups) && AllBuild(data, GroupAttributes(data, groups)))
  {
    if GroupsExist(data, groups) {
      GroupAttributesPrefix(data, groups, g + 1);
      var all := GroupAttributes(data, groups);
      assert all[|done|] == bad;
    }
  }

  // ---------------------------------------------------------------- choices

  const FuelExhausted := "Error: nesting deeper than the flattening bound"

  /** `flatten_choice_choice`: merges a flattened inner choice into the outer choice
      being built. Its items are always appended and the outer amount becomes the
      combination of both amounts. With several outer items the two amounts must
      already agree (the source leaves the other case unimplemented; here it is an
      error). A single-item outer choice adopts the inner name if it has none. */
  function FlattenChoiceChoice(outerItemCount: nat, elements: seq<ElementCollectionItem>,
                               subElements: seq<ElementCollectionItem>, outerAmount: Amount, innerAmount: Amount,
                               outerName: string, innerName: string)
    : (r: Result<(seq<ElementCollectionItem>, Amount, string)>)
    ensures r.Err? <==> outerItemCount != 1 && outerAmount != innerAmount
    ensures r.Ok? ==> r.value.0 == elements + subElements
    ensures r.Ok? ==> r.value.1 == CombineAmounts(outerAmount, innerAmount)
    ensures r.Ok? ==> r.value.2 == (if outerItemCount == 1 && outerName == "" && innerName != "" then innerName
                                   else outerName)
  {
    if outerItemCount == 1 then
      Ok((elements + subElements, CombineAmounts(outerAmount, innerAmount),
          if outerName == "" && innerName != "" then innerName else outerName))
    else if outerAmount == innerAmount then
      CombineAmountsAlgebra(outerAmount, outerAmount, outerAmount);
      Ok((elements + subElements, outerAmount, outerName))
    else
      Err("Error: nested choice with a different amount")
  }

  lemma StampedAppend(a: seq<ElementCollectionItem>, b: seq<ElementCollectionItem>, v: Version)
    requires Stamped(a, v) && Stamped(b, v)
    ensures Stamped(a + b, v)
  {
    forall i | 0 <= i < |a + b| && (a + b)[i].ElementItem? ensures (a + b)[i].element.versionInfo == v {
      if i >= |a| {
        assert (a + b)[i] == b[i - |a|];
      }
    }
  }

  /** The name under which a flattened group is referred to: its own name, or the
      group reference after its first three bytes (`split_at(3)`, which panics unless
      byte 3 is a character boundary). */
  function InnerName(collectionName: string, groupRef: string): (r: Result<string>)
    ensures collectionName != "" ==> r == Ok(collectionName)
    ensures collectionName == "" ==> (r.Ok? <==> exists k :: 0 <= k <= |groupRef| && Utf8Len(groupRef[..k]) == 3)
    ensures collectionName == "" && r.Ok? ==>
      exists k :: 0 <= k <= |groupRef| && Utf8Len(groupRef[..k]) == 3 && r.value == groupRef[k..]
  {
    if collectionName != "" then Ok(collectionName)
    else
      match CharsInBytes(groupRef, 3)
      case None => Err("panic: byte 3 of the group reference is not a character boundary")
      case Some(k) => Ok(groupRef[k..])
  }

  /** A reference with the "AR:" namespace prefix loses exactly that prefix. */
  lemma InnerNameOfPrefixed(groupRef: string)
    requires |groupRef| >= 3 && groupRef[..3] == "AR:"
    ensures InnerName("", groupRef) == Ok(groupRef[3..])
  {
    assert Utf8Len(groupRef[..3]) == 3 by {
      assert "AR:"[1..] == "R:" && "R:"[1..] == ":" && ":"[1..] == [];
    }
    var k :| 0 <= k <= |groupRef| && Utf8Len(groupRef[..k]) == 3 && InnerName("", groupRef).value == groupRef[k..];
    if k < 3 {
      Utf8LenPrefixMono(groupRef, k, 3);
    } else if k > 3 {
      Utf8LenPrefixMono(groupRef, 3, k);
    }
  }

  // ---------------------------------------------------------------- the flattening as functions

  /** What the methods below compute, as functions: `None` where the source returns an
      error (or panics), the flattened value otherwise. Each method is proved to agree
      with its function; the facts about the result are stated once, on the functions. */
  ghost predicate Agrees<T>(r: Result<T>, f: Option<T>)
  {
    (r.Ok? <==> f.Some?) && (r.Ok? ==> r.value == f.value)
  }

  /** The state of `flatten_choice` after the first `n` items of the choice: the element
      list, the outer amount and the name built so far. */
  ghost function ChoicePrefix(data: Xsd.Xsd, choice: Xsd.XsdChoice, fuel: nat, n: nat)
    : Option<(seq<ElementCollectionItem>, Amount, string)>
    requires n <= |choice.items|
    decreases fuel, choice, 2 * n
  {
    if n == 0 then Some(([], OccursToAmount(choice.minOccurs, choice.maxOccurs), ""))
    else
      match ChoicePrefix(data, choice, fuel, n - 1)
      case None => None
      case Some(acc) => ChoiceStep(data, choice, fuel, n, acc)
  }

  /** One iteration of `flatten_choice`: the state after item `n - 1` has been added to
      the state `acc`. */
  ghost function ChoiceStep(data: Xsd.Xsd, choice: Xsd.XsdChoice, fuel: nat, n: nat,
                            acc: (seq<ElementCollectionItem>, Amount, string))
    : Option<(seq<ElementCollectionItem>, Amount, string)>
    requires 0 < n <= |choice.items|
    decreases fuel, choice, 2 * n - 1
  {
    var (elements, outerAmount, name) := acc;
    match choice.items[n - 1]
    case GroupItem(groupRef) =>
      if groupRef !in data.groups || fuel == 0 then None
      else
        var group := GroupFlattened(data, data.groups[groupRef], fuel - 1);
        if group.None? then None
        else
          var inner := group.value;
          var innerName := InnerName(inner.name, groupRef);
          if innerName.Err? then None
          else if inner.Choice? then
            var step := FlattenChoiceChoice(|choice.items|, elements, inner.subElements, outerAmount,
                                            inner.amount, name, innerName.value);
            if step.Err? then None else Some(step.value)
          else if |inner.subElements| == 1 then Some((elements + [inner.subElements[0]], outerAmount, name))
          else if |inner.subElements| > 0 then
            Some((elements + [GroupRef("AR:" + innerName.value + "-ELEMENTGROUP")], outerAmount, name))
          else Some((elements, outerAmount, name))
    case ChoiceItem(innerChoice) =>
      var flat := ChoiceFlattened(data, innerChoice, fuel);
      if flat.None? then None
      else
        var inner := flat.value;
        var step := FlattenChoiceChoice(|choice.items|, elements, inner.subElements, outerAmount, inner.amount,
                                        name, inner.name);
        if step.Err? then None else Some(step.value)
    case ElementItem(e) =>
      Some((elements + [ElementItem(NewElement(e, data.versionInfo))], outerAmount, name))
  }

  /** `flatten_choice` as a function. */
  ghost function ChoiceFlattened(data: Xsd.Xsd, choice: Xsd.XsdChoice, fuel: nat): Option<ElementCollection>
    decreases fuel, choice, 2 * |choice.items| + 1
  {
    match ChoicePrefix(data, choice, fuel, |choice.items|)
    case None => None
    case Some(acc) => Some(Choice(acc.2, acc.0, acc.1))
  }

  /** `flatten_group` as a function. */
  ghost function GroupFlattened(data: Xsd.Xsd, group: Xsd.XsdGroup, fuel: nat): Option<ElementCollection>
    decreases fuel, group, 0
  {
    match group.item
    case GroupSequence(sequence) => SequenceFlattened(data, sequence, fuel)
    case GroupChoice(choice) => ChoiceFlattened(data, choice, fuel)
    case GroupNone => None
  }

  /** One item of a sequence, flattened on its own: a group reference must resolve, a
      choice is flattened, an element becomes a one-element sequence. */
  ghost function ItemFlattened(data: Xsd.Xsd, item: Xsd.XsdModelGroupItem, fuel: nat): Option<ElementCollection>
    decreases fuel, item, 0
  {
    match item
    case GroupItem(groupRef) =>
      if groupRef !in data.groups || fuel == 0 then None
      else GroupFlattened(data, data.groups[groupRef], fuel - 1)
    case ChoiceItem(choice) => ChoiceFlattened(data, choice, fuel)
    case ElementItem(e) => Some(Sequence("", [ElementItem(NewElement(e, data.versionInfo))]))
  }

  /** The first `n` items of a sequence, each flattened on its own. */
  ghost function SequenceParts(data: Xsd.Xsd, sequence: Xsd.XsdSequence, fuel: nat, n: nat)
    : (r: Option<seq<ElementCollection>>)
    requires n <= |sequence.items|
    ensures r.Some? ==> |r.value| == n
    decreases fuel, sequence, n
  {
    if n == 0 then Some([])
    else
      match SequenceParts(data, sequence, fuel, n - 1)
      case None => None
      case Some(flat) =>
        match ItemFlattened(data, sequence.items[n - 1], fuel)
        case None => None
        case Some(c) => Some(flat + [c])
  }

  /** `flatten_sequence` as a function: the simplification of the flattened items. */
  ghost function SequenceFlattened(data: Xsd.Xsd, sequence: Xsd.XsdSequence, fuel: nat): Option<ElementCollection>
    decreases fuel, sequence, |sequence.items| + 1
  {
    match SequenceParts(data, sequence, fuel, |sequence.items|)
    case None => None
    case Some(flat) => Some(Simplified(flat, sequence.items, data.groups.Keys))
  }

  /** What `SimplifySequence` yields: the only non-empty input when that is a choice of
      at least two items, otherwise the unnamed sequence of all contributions. */
  ghost function Simplified(flat: seq<ElementCollection>, origins: seq<Xsd.XsdModelGroupItem>, groups: set<string>)
    : ElementCollection
    requires |flat| == |origins|
  {
    if NonEmptyCount(flat) == 1 && exists i :: 0 <= i < |flat| && MultiChoice(flat[i]) then
      var i :| 0 <= i < |flat| && MultiChoice(flat[i]);
      flat[i]
    else Sequence("", Contributions(flat, origins, groups, NonEmptyCount(flat)))
  }

  /** `flatten_complex_type` as a function. */
  ghost function ComplexFlattened(data: Xsd.Xsd, ct: Xsd.XsdComplexType, fuel: nat): Option<DataType>
    decreases fuel, ct, 0
  {
    if !AttributeListBuilds(data, [], ct.attributeGroups) then None
    else
      var attributes := AttributeList(data, [], ct.attributeGroups);
      match ct.item
      case ContentSimple(simpleContent) => SimpleContentFlattened(data, simpleContent, fuel)
      case ContentGroup(groupRef) =>
        if groupRef !in data.groups || fuel == 0 then None
        else
          var c := GroupFlattened(data, data.groups[groupRef], fuel - 1);
          if c.None? then None else Some(Elements(c.value, attributes))
      case ContentChoice(choice) =>
        var c := ChoiceFlattened(data, choice, fuel);
        if c.None? then None
        else if !ct.mixedContent then Some(Elements(c.value, attributes))
        else if |c.value.Items()| == 0 then Some(Characters("xsd:string", None, None, attributes))
        else Some(Mixed(c.value, attributes, "xsd:string"))
      case ContentSequence(sequence) =>
        var c := SequenceFlattened(data, sequence, fuel);
        if c.None? then None else Some(Elements(c.value, attributes))
      case ContentNone => None
  }

  /** `flatten_simple_content` as a function. */
  ghost function SimpleContentFlattened(data: Xsd.Xsd, sc: Xsd.XsdSimpleContent, fuel: nat): Option<DataType>
    decreases fuel, sc, 0
  {
    var basetype := sc.extension.basetype;
    if basetype !in data.types || !AttributeListBuilds(data, sc.extension.attributes, sc.extension.attributeGroups)
    then None
    else
      var attributes := AttributeList(data, sc.extension.attributes, sc.extension.attributeGroups);
      match data.types[basetype]
      case Base(typename) => Some(Characters(typename, None, None, attributes))
      case Simple(simpleType) => Some(WithExtraAttributes(FlattenSimpleType(data, simpleType, basetype), attributes))
      case Complex(complexType) =>
        if fuel == 0 then None
        else
          match ComplexFlattened(data, complexType, fuel - 1)
          case None => None
          case Some(t) => Some(WithExtraAttributes(t, attributes))
  }

  /** `flatten_type` as a function. */
  ghost function TypeFlattened(data: Xsd.Xsd, t: Xsd.XsdType, typename: string, fuel: nat): Option<DataType>
  {
    match t
    case Base(baseName) => Some(Characters(baseName, None, None, []))
    case Simple(simpleType) => Some(FlattenSimpleType(data, simpleType, typename))
    case Complex(complexType) => ComplexFlattened(data, complexType, fuel)
  }

  /** `flatten_any` as a function: the flat type stored under `name`. */
  ghost function AnyFlattened(data: Xsd.Xsd, name: string, fuel: nat): Option<DataType>
  {
    if IsGroupTypeName(data, name) then
      match GroupFlattened(data, data.groups[name[..|name| - |GroupSuffix|]], fuel)
      case None => None
      case Some(c) => Some(ElementsGroup(c))
    else if name in data.types then TypeFlattened(data, data.types[name], name, fuel)
    else None
  }

  /** Every pattern attribute of `t` names a pattern type of the schema with that
      pattern and length limit. */
  ghost predicate PatternsResolve(data: Xsd.Xsd, t: DataType)
  {
    t.Attributes().Some? ==>
      forall i :: 0 <= i < |t.attributes| && t.attributes[i].attributeType.PatternType? ==>
        t.attributes[i].attributeType.typename in data.types &&
        data.types[t.attributes[i].attributeType.typename] ==
          Xsd.Simple(Xsd.Restriction(Xsd.PatternRestriction(t.attributes[i].attributeType.pattern,
                                                            t.attributes[i].attributeType.maxlength)))
  }

  /** The attributes `build_attribute_list` builds only refer to pattern types that exist. */
  lemma AttributeListPatterns(data: Xsd.Xsd, attrs: seq<Xsd.XsdAttribute>, groups: seq<string>, basetype: string)
    requires AttributeListBuilds(data, attrs, groups)
    ensures PatternsResolve(data, Characters(basetype, None, None, AttributeList(data, attrs, groups)))
  {
    var all := AttributeList(data, attrs, groups);
    var own := BuiltAll(data, attrs);
    var grouped := GroupAttributes(data, groups);
    forall i | 0 <= i < |all| && all[i].attributeType.PatternType?
      ensures all[i].attributeType.typename in data.types &&
              data.types[all[i].attributeType.typename] ==
                Xsd.Simple(Xsd.Restriction(Xsd.PatternRestriction(all[i].attributeType.pattern,
                                                                  all[i].attributeType.maxlength)))
    {
      if i < |attrs| {
        assert all[i] == BuildAttribute(data, attrs[i]).value;
      } else {
        assert all[i] == BuiltAll(data, grouped)[i - |attrs|];
        assert all[i] == BuildAttribute(data, grouped[i - |attrs|]).value;
      }
    }
  }

  /** Appending such attributes keeps the property. */
  lemma ExtraAttributesPatterns(data: Xsd.Xsd, t: DataType, extra: seq<Attribute>)
    requires PatternsResolve(data, t) && PatternsResolve(data, Characters("", None, None, extra))
    ensures PatternsResolve(data, WithExtraAttributes(t, extra))
  {
    var r := WithExtraAttributes(t, extra);
    if r.Attributes().Some? {
      forall i | 0 <= i < |r.attributes| && r.attributes[i].attributeType.PatternType?
        ensures r.attributes[i].attributeType.typename in data.types
      {
        if i >= |t.attributes| {
          assert r.attributes[i] == extra[i - |t.attributes|];
        }
      }
    }
  }

  /** A flattened complex type refers only to pattern types that exist. */
  lemma {:induction false} ComplexPatterns(data: Xsd.Xsd, ct: Xsd.XsdComplexType, fuel: nat)
    requires ComplexFlattened(data, ct, fuel).Some?
    ensures PatternsResolve(data, ComplexFlattened(data, ct, fuel).value)
    decreases fuel, ct, 0
  {
    AttributeListPatterns(data, [], ct.attributeGroups, "");
    if ct.item.ContentSimple? {
      SimpleContentPatterns(data, ct.item.simpleContent, fuel);
    }
  }

  /** A flattened simple content refers only to pattern types that exist. */
  lemma {:induction false} SimpleContentPatterns(data: Xsd.Xsd, sc: Xsd.XsdSimpleContent, fuel: nat)
    requires SimpleContentFlattened(data, sc, fuel).Some?
    ensures PatternsResolve(data, SimpleContentFlattened(data, sc, fuel).value)
    decreases fuel, sc, 0
  {
    var extra := AttributeList(data, sc.extension.attributes, sc.extension.attributeGroups);
    AttributeListPatterns(data, sc.extension.attributes, sc.extension.attributeGroups, "");
    match data.types[sc.extension.basetype]
    case Base(_) =>
    case Simple(simpleType) =>
      ExtraAttributesPatterns(data, FlattenSimpleType(data, simpleType, sc.extension.basetype), extra);
    case Complex(complexType) =>
      ComplexPatterns(data, complexType, fuel - 1);
      ExtraAttributesPatterns(data, ComplexFlattened(data, complexType, fuel - 1).value, extra);
  }

  /** Every flat type refers only to pattern types that exist. */
  lemma AnyPatterns(data: Xsd.Xsd, name: string, fuel: nat)
    requires AnyFlattened(data, name, fuel).Some?
    ensures PatternsResolve(data, AnyFlattened(data, name, fuel).value)
  {
    if !IsGroupTypeName(data, name) && data.types[name].Complex? {
      ComplexPatterns(data, data.types[name].complexType, fuel);
    }
  }

  /** The entry stored under `k` is the flat type of `k`, or the character type made for
      a pattern attribute whose type is named `k`. */
  ghost predicate FaithfulEntry(data: Xsd.Xsd, fuel: nat, k: string, t: DataType)
  {
    AnyFlattened(data, k, fuel) == Some(t) ||
    (k in data.types && data.types[k].Simple? && data.types[k].simpleType.restriction.PatternRestriction? &&
     t == FlattenSimpleType(data, data.types[k].simpleType, k))
  }

  /** Every entry of the table is faithful. */
  ghost predicate FaithfulTable(data: Xsd.Xsd, fuel: nat, m: map<string, DataType>)
  {
    forall k :: k in m ==> FaithfulEntry(data, fuel, k, m[k])
  }

  /** Once a prefix of a choice fails to flatten, every longer prefix fails. */
  lemma {:induction false} ChoicePrefixFails(data: Xsd.Xsd, choice: Xsd.XsdChoice, fuel: nat, n: nat, m: nat)
    requires n <= m <= |choice.items| && ChoicePrefix(data, choice, fuel, n).None?
    ensures ChoicePrefix(data, choice, fuel, m).None?
    decreases m
  {
    if n < m {
      ChoicePrefixFails(data, choice, fuel, n, m - 1);
    }
  }

  /** The parts of a sequence are its items, each flattened on its own: they exist
      exactly when every item flattens, and part `j` is the flattening of item `j`. */
  lemma {:induction false} SequencePartsAt(data: Xsd.Xsd, sequence: Xsd.XsdSequence, fuel: nat, n: nat)
    requires n <= |sequence.items|
    ensures SequenceParts(data, sequence, fuel, n).Some? <==>
      forall j :: 0 <= j < n ==> ItemFlattened(data, sequence.items[j], fuel).Some?
    ensures SequenceParts(data, sequence, fuel, n).Some? ==>
      forall j :: 0 <= j < n ==> SequenceParts(data, sequence, fuel, n).value[j] ==
                                 ItemFlattened(data, sequence.items[j], fuel).value
  {
    if n > 0 {
      SequencePartsAt(data, sequence, fuel, n - 1);
    }
  }

  /** Every item is an element declaration. */
  predicate AllElements(items: seq<Xsd.XsdModelGroupItem>)
  {
    forall i :: 0 <= i < |items| ==> items[i].ElementItem?
  }

  /** The elements declared by such items, stamped with the schema's version. */
  function ElementsOf(data: Xsd.Xsd, items: seq<Xsd.XsdModelGroupItem>): (r: seq<ElementCollectionItem>)
    requires AllElements(items)
    ensures |r| == |items|
  {
    seq(|items|, i requires 0 <= i < |items| => ElementItem(NewElement(items[i].element, data.versionInfo)))
  }

  lemma {:induction false} ChoicePrefixOfElements(data: Xsd.Xsd, choice: Xsd.XsdChoice, fuel: nat, n: nat)
    requires n <= |choice.items| && AllElements(choice.items)
    ensures ChoicePrefix(data, choice, fuel, n) ==
      Some((ElementsOf(data, choice.items[..n]), OccursToAmount(choice.minOccurs, choice.maxOccurs), ""))
  {
    if n > 0 {
      ChoicePrefixOfElements(data, choice, fuel, n - 1);
      assert ElementsOf(data, choice.items[..n]) ==
        ElementsOf(data, choice.items[..n - 1]) + [ElementItem(NewElement(choice.items[n - 1].element, data.versionInfo))];
    }
  }

  /** A choice of plain elements flattens to an unnamed choice of exactly those
      elements, in order, with the choice's own multiplicity. */
  lemma ChoiceOfElements(data: Xsd.Xsd, choice: Xsd.XsdChoice, fuel: nat)
    requires AllElements(choice.items)
    ensures ChoiceFlattened(data, choice, fuel) ==
      Some(Choice("", ElementsOf(data, choice.items), OccursToAmount(choice.minOccurs, choice.maxOccurs)))
  {
    ChoicePrefixOfElements(data, choice, fuel, |choice.items|);
    assert choice.items[..|choice.items|] == choice.items;
  }

  lemma {:induction false} ContributionsOfElements(data: Xsd.Xsd, flat: seq<ElementCollection>,
                                                   items: seq<Xsd.XsdModelGroupItem>, groups: set<string>, nonEmpty: nat)
    requires |flat| == |items| && AllElements(items)
    requires forall j :: 0 <= j < |flat| ==>
      flat[j] == Sequence("", [ElementItem(NewElement(items[j].element, data.versionInfo))])
    ensures Contributions(flat, items, groups, nonEmpty) == ElementsOf(data, items)
  {
    if |flat| > 0 {
      var n := |flat| - 1;
      ContributionsOfElements(data, flat[..n], items[..n], groups, nonEmpty);
      assert ElementsOf(data, items) == ElementsOf(data, items[..n]) + [ElementItem(NewElement(items[n].element, data.versionInfo))];
    }
  }

  /** A sequence of plain elements flattens to an unnamed sequence of exactly those
      elements, in order. */
  lemma SequenceOfElements(data: Xsd.Xsd, sequence: Xsd.XsdSequence, fuel: nat)
    requires AllElements(sequence.items)
    ensures SequenceFlattened(data, sequence, fuel) == Some(Sequence("", ElementsOf(data, sequence.items)))
  {
    var items := sequence.items;
    SequencePartsAt(data, sequence, fuel, |items|);
    var flat := SequenceParts(data, sequence, fuel, |items|).value;
    assert forall j :: 0 <= j < |flat| ==> !MultiChoice(flat[j]);
    ContributionsOfElements(data, flat, items, data.groups.Keys, NonEmptyCount(flat));
  }

  /** Once a prefix of a sequence fails to flatten, every longer prefix fails. */
  lemma {:induction false} SequencePartsFail(data: Xsd.Xsd, sequence: Xsd.XsdSequence, fuel: nat, n: nat, m: nat)
    requires n <= m <= |sequence.items| && SequenceParts(data, sequence, fuel, n).None?
    ensures SequenceParts(data, sequence, fuel, m).None?
    decreases m
  {
    if n < m {
      SequencePartsFail(data, sequence, fuel, n, m - 1);
    }
  }

  /** `flatten_choice`: flattens the items of a choice into one choice. With other than
      exactly one item the result keeps the choice's own multiplicity and has no name.
      A nested choice always flattens to a choice, so the source's unimplemented
      branch for a nested choice that flattens to a sequence cannot be reached. */
  method FlattenChoice(data: Xsd.Xsd, choice: Xsd.XsdChoice, fuel: nat) returns (r: Result<ElementCollection>)
    ensures Agrees(r, ChoiceFlattened(data, choice, fuel))
    ensures r.Ok? ==> r.value.Choice? && Stamped(r.value.subElements, data.versionInfo)
    ensures r.Ok? && |choice.items| != 1 ==>
      r.value.amount == OccursToAmount(choice.minOccurs, choice.maxOccurs) && r.value.name == ""
    decreases fuel, choice, |choice.items| + 1
  {
    var elements: seq<ElementCollectionItem> := [];
    var outerAmount := OccursToAmount(choice.minOccurs, choice.maxOccurs);
    var name := "";
    for i := 0 to |choice.items|
      invariant ChoicePrefix(data, choice, fuel, i) == Some((elements, outerAmount, name))
      invariant Stamped(elements, data.versionInfo)
      invariant |choice.items| != 1 ==> outerAmount == OccursToAmount(choice.minOccurs, choice.maxOccurs) && name == ""
    {
      var step := FlattenChoiceItem(data, choice, fuel, i, elements, outerAmount, name);
      if step.Err? {
        ChoicePrefixFails(data, choice, fuel, i + 1, |choice.items|);
        return Err(step.msg);
      }
      elements, outerAmount, name := step.value.0, step.value.1, step.value.2;
    }
    r := Ok(Choice(name, elements, outerAmount));
  }

  /** The body of the loop of `flatten_choice` for item `i`: a group is flattened and
      merged (a nested choice) or added as its only element or as a reference to its
      element group (a sequence); a nested choice is flattened and merged; an element
      is added. */
  method FlattenChoiceItem(data: Xsd.Xsd, choice: Xsd.XsdChoice, fuel: nat, i: nat,
                           elements: seq<ElementCollectionItem>, outerAmount: Amount, name: string)
    returns (r: Result<(seq<ElementCollectionItem>, Amount, string)>)
    requires i < |choice.items|
    requires Stamped(elements, data.versionInfo)
    ensures Agrees(r, ChoiceStep(data, choice, fuel, i + 1, (elements, outerAmount, name)))
    ensures r.Ok? ==> Stamped(r.value.0, data.versionInfo)
    ensures r.Ok? && |choice.items| != 1 ==> r.value.1 == outerAmount && r.value.2 == name
    decreases fuel, choice, i
  {
    match choice.items[i]
    case GroupItem(groupRef) =>
      if groupRef !in data.groups {
        return Err("Error: unknown group ref " + groupRef + " found in sequence");
      }
      if fuel == 0 {
        return Err(FuelExhausted);
      }
      var inner := FlattenGroup(data, data.groups[groupRef], fuel - 1);
      if inner.Err? {
        return Err(inner.msg);
      }
      var innerName := InnerName(inner.value.name, groupRef);
      if innerName.Err? {
        return Err(innerName.msg);
      }
      match inner.value {
      case Choice(_, sub, innerAmount) =>
        r := FlattenChoiceChoice(|choice.items|, elements, sub, outerAmount, innerAmount, name, innerName.value);
        if r.Ok? {
          StampedAppend(elements, sub, data.versionInfo);
          CombineAmountsAlgebra(outerAmount, outerAmount, outerAmount);
        }
      case Sequence(_, sub) =>
        if |sub| == 1 {
          StampedAppend(elements, sub, data.versionInfo);
          r := Ok((elements + [sub[0]], outerAmount, name));
        } else if |sub| > 0 {
          StampedAppend(elements, [GroupRef("AR:" + innerName.value + "-ELEMENTGROUP")], data.versionInfo);
          r := Ok((elements + [GroupRef("AR:" + innerName.value + "-ELEMENTGROUP")], outerAmount, name));
        } else {
          r := Ok((elements, outerAmount, name));
        }
      }
    case ChoiceItem(innerChoice) =>
      var inner := FlattenChoice(data, innerChoice, fuel);
      if inner.Err? {
        return Err(inner.msg);
      }
      r := FlattenChoiceChoice(|choice.items|, elements, inner.value.subElements, outerAmount,
                               inner.value.amount, name, inner.value.name);
      if r.Ok? {
        StampedAppend(elements, inner.value.subElements, data.versionInfo);
        CombineAmountsAlgebra(outerAmount, outerAmount, outerAmount);
      }
    case ElementItem(e) =>
      StampedAppend(elements, [ElementItem(NewElement(e, data.versionInfo))], data.versionInfo);
      r := Ok((elements + [ElementItem(NewElement(e, data.versionInfo))], outerAmount, name));
  }

  /** `flatten_group`: a group is flattened as its sequence or its choice; an empty
      group is an error. */
  method FlattenGroup(data: Xsd.Xsd, group: Xsd.XsdGroup, fuel: nat) returns (r: Result<ElementCollection>)
    ensures Agrees(r, GroupFlattened(data, group, fuel))
    ensures group.item.GroupNone? ==> r.Err?
    ensures r.Ok? && group.item.GroupChoice? ==> r.value.Choice?
    ensures r.Ok? ==> Stamped(r.value.subElements, data.versionInfo)
    decreases fuel, group
  {
    match group.item
    case GroupSequence(sequence) =>
      r := FlattenSequence(data, sequence, fuel);
    case GroupChoice(choice) =>
      r := FlattenChoice(data, choice, fuel);
    case GroupNone =>
      r := Err("Error: empty group");
  }

  // ---------------------------------------------------------------- sequences

  /** A choice of at least two items. */
  predicate MultiChoice(c: ElementCollection)
  {
    c.Choice? && |c.subElements| >= 2
  }

  /** The number of flattened inputs that have at least one item. */
  function NonEmptyCount(flat: seq<ElementCollection>): nat
  {
    if |flat| == 0 then 0
    else NonEmptyCount(flat[..|flat| - 1]) + (if |flat[|flat| - 1].subElements| > 0 then 1 else 0)
  }

  /** Two different non-empty inputs make the count at least two. */
  lemma {:induction false} TwoNonEmpty(flat: seq<ElementCollection>, i: nat, j: nat)
    requires i < j < |flat| && |flat[i].subElements| > 0 && |flat[j].subElements| > 0
    ensures NonEmptyCount(flat) >= 2
    decreases |flat|
  {
    var n := |flat| - 1;
    assert flat[..n][i] == flat[i];
    if j < n {
      assert flat[..n][j] == flat[j];
      TwoNonEmpty(flat[..n], i, j);
    } else {
      OneNonEmpty(flat[..n], i);
    }
  }

  lemma {:induction false} OneNonEmpty(flat: seq<ElementCollection>, i: nat)
    requires i < |flat| && |flat[i].subElements| > 0
    ensures NonEmptyCount(flat) >= 1
    decreases |flat|
  {
    var n := |flat| - 1;
    if i < n {
      assert flat[..n][i] == flat[i];
      OneNonEmpty(flat[..n], i);
    }
  }

  /** An item of a choice moved into the enclosing sequence: an element's amount is
      combined with the choice's amount. */
  function WithOuterAmount(item: ElementCollectionItem, outer: Amount): (r: ElementCollectionItem)
    ensures r.ElementItem? <==> item.ElementItem?
    ensures item.GroupRef? ==> r == item
    ensures item.ElementItem? ==>
      r.element == item.element.(amount := CombineAmounts(outer, item.element.amount))
  {
    match item
    case ElementItem(e) => ElementItem(e.(amount := CombineAmounts(outer, e.amount)))
    case GroupRef(_) => item
  }

  /** What one flattened input contributes to the sequence's element list. */
  function Contribution(c: ElementCollection, origin: Xsd.XsdModelGroupItem, groups: set<string>,
                        nonEmpty: nat): seq<ElementCollectionItem>
  {
    match c
    case Sequence(_, sub) => sub
    case Choice(name, sub, amount) =>
      if |sub| == 1 then [WithOuterAmount(sub[0], amount)]
      else if |sub| == 0 || nonEmpty == 1 then []
      else if origin.GroupItem? then [GroupRef(origin.groupRef + "-ELEMENTGROUP")]
      else if "AR:" + name in groups then [GroupRef("AR:" + name + "-ELEMENTGROUP")]
      else seq(|sub|, i requires 0 <= i < |sub| => WithOuterAmount(sub[i], amount))
  }

  /** The contributions of all inputs, in input order. */
  function Contributions(flat: seq<ElementCollection>, origins: seq<Xsd.XsdModelGroupItem>, groups: set<string>,
                         nonEmpty: nat): seq<ElementCollectionItem>
    requires |flat| == |origins|
  {
    if |flat| == 0 then []
    else Contributions(flat[..|flat| - 1], origins[..|origins| - 1], groups, nonEmpty)
         + Contribution(flat[|flat| - 1], origins[|origins| - 1], groups, nonEmpty)
  }

  /** The simplification step of `flatten_sequence`, applied to the flattened inputs.
      A choice of at least two items that is the only non-empty input replaces the
      whole sequence; otherwise the result is an unnamed sequence of the inputs'
      contributions in order. */
  method SimplifySequence(flat: seq<ElementCollection>, origins: seq<Xsd.XsdModelGroupItem>, groups: set<string>)
    returns (r: ElementCollection)
    requires |flat| == |origins|
    ensures forall i :: 0 <= i < |flat| && MultiChoice(flat[i]) && NonEmptyCount(flat) == 1 ==> r == flat[i]
    ensures !(NonEmptyCount(flat) == 1 && exists i :: 0 <= i < |flat| && MultiChoice(flat[i])) ==>
      r == Sequence("", Contributions(flat, origins, groups, NonEmptyCount(flat)))
    ensures r == Simplified(flat, origins, groups)
  {
    var nonEmpty := NonEmptyCount(flat);
    var elements: seq<ElementCollectionItem> := [];
    var replacement: Option<ElementCollection> := None;
    for i := 0 to |flat|
      invariant elements == Contributions(flat[..i], origins[..i], groups, nonEmpty)
      invariant replacement.Some? ==> nonEmpty == 1 && exists j :: 0 <= j < i && MultiChoice(flat[j]) && replacement.value == flat[j]
      invariant replacement.None? ==> !(nonEmpty == 1 && exists j :: 0 <= j < i && MultiChoice(flat[j]))
    {
      assert flat[..i + 1][..i] == flat[..i] && origins[..i + 1][..i] == origins[..i];
      var c := flat[i];
      if MultiChoice(c) && nonEmpty == 1 {
        replacement := Some(Choice(c.name, c.subElements, c.amount));
      }
      elements := elements + Contribution(c, origins[i], groups, nonEmpty);
    }
    assert flat[..|flat|] == flat && origins[..|origins|] == origins;
    if replacement.Some? {
      forall i | 0 <= i < |flat| && MultiChoice(flat[i]) && nonEmpty == 1 ensures replacement.value == flat[i] {
        var j :| 0 <= j < |flat| && MultiChoice(flat[j]) && replacement.value == flat[j];
        if i < j {
          TwoNonEmpty(flat, i, j);
        } else if j < i {
          TwoNonEmpty(flat, j, i);
        }
      }
      r := replacement.value;
    } else {
      r := Sequence("", elements);
    }
  }

  /** The contributions of a prefix of the inputs come first. */
  lemma {:induction false} ContributionsPrefix(flat: seq<ElementCollection>, origins: seq<Xsd.XsdModelGroupItem>,
                                               groups: set<string>, nonEmpty: nat, n: nat)
    requires |flat| == |origins| && n <= |flat|
    ensures Contributions(flat[..n], origins[..n], groups, nonEmpty) <= Contributions(flat, origins, groups, nonEmpty)
    decreases |flat| - n
  {
    if n < |flat| {
      ContributionsPrefix(flat, origins, groups, nonEmpty, n + 1);
      assert flat[..n + 1][..n] == flat[..n] && origins[..n + 1][..n] == origins[..n];
    } else {
      assert flat[..n] == flat && origins[..n] == origins;
    }
  }

  /** A single-item choice in a sequence is inlined in place: its item appears right
      after the contributions of the inputs before it, with the element's amount
      combined with the choice's amount. */
  lemma SingleChoiceInlined(flat: seq<ElementCollection>, origins: seq<Xsd.XsdModelGroupItem>, groups: set<string>,
                            nonEmpty: nat, i: nat)
    requires |flat| == |origins| && i < |flat| && flat[i].Choice? && |flat[i].subElements| == 1
    ensures var before := Contributions(flat[..i], origins[..i], groups, nonEmpty);
            var all := Contributions(flat, origins, groups, nonEmpty);
            |before| < |all| && all[|before|] == WithOuterAmount(flat[i].subElements[0], flat[i].amount)
  {
    ContributionsPrefix(flat, origins, groups, nonEmpty, i + 1);
    assert flat[..i + 1][..i] == flat[..i] && origins[..i + 1][..i] == origins[..i];
  }

  /** `flatten_sequence`: flattens every item of the sequence (a group reference must
      resolve, an element becomes a one-element sequence), then simplifies. */
  method FlattenSequence(data: Xsd.Xsd, sequence: Xsd.XsdSequence, fuel: nat) returns (r: Result<ElementCollection>)
    ensures Agrees(r, SequenceFlattened(data, sequence, fuel))
    ensures r.Ok? ==> Stamped(r.value.subElements, data.versionInfo)
    ensures r.Ok? && r.value.Sequence? ==> r.value.name == ""
    decreases fuel, sequence
  {
    var flat: seq<ElementCollection> := [];
    for i := 0 to |sequence.items|
      invariant SequenceParts(data, sequence, fuel, i) == Some(flat)
      invariant forall j :: 0 <= j < i ==> Stamped(flat[j].subElements, data.versionInfo)
    {
      var c: ElementCollection;
      match sequence.items[i] {
      case GroupItem(groupRef) =>
        if groupRef !in data.groups {
          SequencePartsFail(data, sequence, fuel, i + 1, |sequence.items|);
          return Err("Error: unknown group ref " + groupRef + " found in sequence");
        }
        if fuel == 0 {
          SequencePartsFail(data, sequence, fuel, i + 1, |sequence.items|);
          return Err(FuelExhausted);
        }
        var inner := FlattenGroup(data, data.groups[groupRef], fuel - 1);
        if inner.Err? {
          SequencePartsFail(data, sequence, fuel, i + 1, |sequence.items|);
          return Err(inner.msg);
        }
        c := inner.value;
      case ChoiceItem(choice) =>
        var inner := FlattenChoice(data, choice, fuel);
        if inner.Err? {
          SequencePartsFail(data, sequence, fuel, i + 1, |sequence.items|);
          return Err(inner.msg);
        }
        c := inner.value;
      case ElementItem(e) =>
        c := Sequence("", [ElementItem(NewElement(e, data.versionInfo))]);
      }
      flat := flat + [c];
    }
    var simplified := SimplifySequence(flat, sequence.items, data.groups.Keys);
    SimplifiedStamped(flat, sequence.items, data.groups.Keys, data.versionInfo, simplified);
    r := Ok(simplified);
  }

  lemma {:induction false} ContributionsStamped(flat: seq<ElementCollection>, origins: seq<Xsd.XsdModelGroupItem>,
                                                groups: set<string>, nonEmpty: nat, v: Version)
    requires |flat| == |origins| && forall j :: 0 <= j < |flat| ==> Stamped(flat[j].subElements, v)
    ensures Stamped(Contributions(flat, origins, groups, nonEmpty), v)
    decreases |flat|
  {
    if |flat| > 0 {
      var n := |flat| - 1;
      ContributionsStamped(flat[..n], origins[..n], groups, nonEmpty, v);
      var c := Contribution(flat[n], origins[n], groups, nonEmpty);
      assert Stamped(flat[n].subElements, v);
      assert Stamped(c, v);
      StampedAppend(Contributions(flat[..n], origins[..n], groups, nonEmpty), c, v);
    }
  }

  lemma SimplifiedStamped(flat: seq<ElementCollection>, origins: seq<Xsd.XsdModelGroupItem>, groups: set<string>,
                          v: Version, r: ElementCollection)
    requires |flat| == |origins| && forall j :: 0 <= j < |flat| ==> Stamped(flat[j].subElements, v)
    requires forall i :: 0 <= i < |flat| && MultiChoice(flat[i]) && NonEmptyCount(flat) == 1 ==> r == flat[i]
    requires !(NonEmptyCount(flat) == 1 && exists i :: 0 <= i < |flat| && MultiChoice(flat[i])) ==>
      r == Sequence("", Contributions(flat, origins, groups, NonEmptyCount(flat)))
    ensures Stamped(r.subElements, v)
    ensures r.Sequence? ==> r.name == ""
  {
    if NonEmptyCount(flat) == 1 && exists i :: 0 <= i < |flat| && MultiChoice(flat[i]) {
      var i :| 0 <= i < |flat| && MultiChoice(flat[i]);
      assert r == flat[i];
    } else {
      ContributionsStamped(flat, origins, groups, NonEmptyCount(flat), v);
    }
  }

  // ---------------------------------------------------------------- types

  /** The attributes of an `<extension>` appended to those of an element or character
      type; other kinds are left as they are. */
  function WithExtraAttributes(t: DataType, extra: seq<Attribute>): (r: DataType)
    ensures t.Elements? ==> r == Elements(t.collection, t.attributes + extra)
    ensures t.Characters? ==> r == Characters(t.basetype, t.restrictionPattern, t.maxLength, t.attributes + extra)
    ensures !(t.Elements? || t.Characters?) ==> r == t
  {
    match t
    case Elements(collection, attributes) => Elements(collection, attributes + extra)
    case Characters(basetype, pattern, maxLength, attributes) => Characters(basetype, pattern, maxLength, attributes + extra)
    case _ => t
  }

  /** `flatten_complex_type`: the attributes of the type's attribute groups are built
      first and their failure fails the whole type, even for simple content. A group,
      sequence or plain choice becomes an element type; a mixed choice becomes a mixed
      type, or plain characters when it has no items; an empty type is an error. */
  method FlattenComplexType(data: Xsd.Xsd, ct: Xsd.XsdComplexType, fuel: nat) returns (r: Result<DataType>)
    ensures Agrees(r, ComplexFlattened(data, ct, fuel))
    ensures !AttributeListBuilds(data, [], ct.attributeGroups) ==> r.Err?
    ensures ct.item.ContentNone? ==> r.Err?
    ensures ct.item.ContentGroup? && ct.item.groupRef !in data.groups ==> r.Err?
    ensures r.Ok? && (ct.item.ContentGroup? || ct.item.ContentSequence? || (ct.item.ContentChoice? && !ct.mixedContent)) ==>
      r.value.Elements? && r.value.attributes == AttributeList(data, [], ct.attributeGroups)
    ensures r.Ok? && ct.item.ContentChoice? && !ct.mixedContent ==> r.value.collection.Choice?
    ensures r.Ok? && ct.item.ContentChoice? && ct.mixedContent ==>
      r.value == Characters("xsd:string", None, None, AttributeList(data, [], ct.attributeGroups))
      || (r.value.Mixed? && r.value.collection.Choice? && |r.value.collection.subElements| > 0
          && r.value.basetype == "xsd:string" && r.value.attributes == AttributeList(data, [], ct.attributeGroups))
    ensures r.Ok? ==> !r.value.ElementsGroup?
    decreases fuel, ct
  {
    var attributes := BuildAttributeList(data, [], ct.attributeGroups);
    if attributes.Err? {
      return Err(attributes.msg);
    }
    match ct.item
    case ContentSimple(simpleContent) =>
      r := FlattenSimpleContent(data, simpleContent, fuel);
    case ContentGroup(groupRef) =>
      if groupRef !in data.groups {
        return Err("Error: unknown group ref " + groupRef + " found in complexType " + ct.name);
      }
      if fuel == 0 {
        return Err(FuelExhausted);
      }
      var elements := FlattenGroup(data, data.groups[groupRef], fuel - 1);
      if elements.Err? {
        return Err(elements.msg);
      }
      r := Ok(Elements(elements.value, attributes.value));
    case ContentChoice(choice) =>
      var elements := FlattenChoice(data, choice, fuel);
      if elements.Err? {
        return Err(elements.msg);
      }
      if ct.mixedContent {
        if |elements.value.Items()| == 0 {
          r := Ok(Characters("xsd:string", None, None, attributes.value));
        } else {
          r := Ok(Mixed(elements.value, attributes.value, "xsd:string"));
        }
      } else {
        r := Ok(Elements(elements.value, attributes.value));
      }
    case ContentSequence(sequence) =>
      var elements := FlattenSequence(data, sequence, fuel);
      if elements.Err? {
        return Err(elements.msg);
      }
      r := Ok(Elements(elements.value, attributes.value));
    case ContentNone =>
      r := Err("Error: empty complexType");
  }

  /** `flatten_simple_content`: the extended type must exist and the extension's own
      attributes must build. A base type becomes characters carrying them; a simple or
      complex type is flattened and they are appended to its attributes. */
  method FlattenSimpleContent(data: Xsd.Xsd, sc: Xsd.XsdSimpleContent, fuel: nat) returns (r: Result<DataType>)
    ensures Agrees(r, SimpleContentFlattened(data, sc, fuel))
    ensures r.Ok? ==> sc.extension.basetype in data.types
                      && AttributeListBuilds(data, sc.extension.attributes, sc.extension.attributeGroups)
    ensures sc.extension.basetype in data.types && data.types[sc.extension.basetype].Base? && r.Ok? ==>
      r.value == Characters(data.types[sc.extension.basetype].baseName, None, None,
                            AttributeList(data, sc.extension.attributes, sc.extension.attributeGroups))
    ensures sc.extension.basetype in data.types && data.types[sc.extension.basetype].Simple?
            && AttributeListBuilds(data, sc.extension.attributes, sc.extension.attributeGroups) ==>
      r == Ok(WithExtraAttributes(FlattenSimpleType(data, data.types[sc.extension.basetype].simpleType,
                                                    sc.extension.basetype),
                                  AttributeList(data, sc.extension.attributes, sc.extension.attributeGroups)))
    ensures r.Ok? && data.types[sc.extension.basetype].Complex? && (r.value.Elements? || r.value.Characters?) ==>
      var extra := AttributeList(data, sc.extension.attributes, sc.extension.attributeGroups);
      |extra| <= |r.value.attributes| && r.value.attributes[|r.value.attributes| - |extra|..] == extra
    ensures r.Ok? ==> !r.value.ElementsGroup?
    decreases fuel, sc
  {
    var basetype := sc.extension.basetype;
    if basetype !in data.types {
      return Err("failed to find type " + basetype);
    }
    var attributes := BuildAttributeList(data, sc.extension.attributes, sc.extension.attributeGroups);
    if attributes.Err? {
      return Err(attributes.msg);
    }
    match data.types[basetype]
    case Base(typename) =>
      r := Ok(Characters(typename, None, None, attributes.value));
    case Simple(simpleType) =>
      r := Ok(WithExtraAttributes(FlattenSimpleType(data, simpleType, basetype), attributes.value));
    case Complex(complexType) =>
      if fuel == 0 {
        return Err(FuelExhausted);
      }
      var inner := FlattenComplexType(data, complexType, fuel - 1);
      if inner.Err? {
        return Err(inner.msg);
      }
      r := Ok(WithExtraAttributes(inner.value, attributes.value));
  }

  /** `flatten_type`: a base type becomes plain characters, a simple type is flattened
      under the given name, a complex type is flattened. */
  method FlattenType(data: Xsd.Xsd, t: Xsd.XsdType, typename: string, fuel: nat) returns (r: Result<DataType>)
    ensures Agrees(r, TypeFlattened(data, t, typename, fuel))
    ensures t.Base? ==> r == Ok(Characters(t.baseName, None, None, []))
    ensures t.Simple? ==> r == Ok(FlattenSimpleType(data, t.simpleType, typename))
    ensures r.Ok? ==> !r.value.ElementsGroup?
  {
    match t
    case Base(baseName) =>
      r := Ok(Characters(baseName, None, None, []));
    case Simple(simpleType) =>
      r := Ok(FlattenSimpleType(data, simpleType, typename));
    case Complex(complexType) =>
      r := FlattenComplexType(data, complexType, fuel);
  }

  const GroupSuffix := "-ELEMENTGROUP"

  /** A name that ends in the group suffix after the name of a known group. */
  predicate IsGroupTypeName(data: Xsd.Xsd, name: string)
  {
    |name| >= |GroupSuffix| && name[|name| - |GroupSuffix|..] == GroupSuffix
    && name[..|name| - |GroupSuffix|] in data.groups
  }

  /** `flatten_any`: a group-suffixed name of a known group becomes an element group;
      any other name must be a known type. An element group is produced for group
      names only. */
  method FlattenAny(data: Xsd.Xsd, name: string, fuel: nat) returns (r: Result<DataType>)
    ensures Agrees(r, AnyFlattened(data, name, fuel))
    ensures r.Ok? ==> PatternsResolve(data, r.value)
    ensures r.Ok? ==> (r.value.ElementsGroup? <==> IsGroupTypeName(data, name))
    ensures !IsGroupTypeName(data, name) && name !in data.types ==> r.Err?
    ensures !IsGroupTypeName(data, name) && name in data.types && data.types[name].Base? ==>
      r == Ok(Characters(data.types[name].baseName, None, None, []))
    ensures !IsGroupTypeName(data, name) && name in data.types && data.types[name].Simple? ==>
      r == Ok(FlattenSimpleType(data, data.types[name].simpleType, name))
  {
    if IsGroupTypeName(data, name) {
      var group := FlattenGroup(data, data.groups[name[..|name| - |GroupSuffix|]], fuel);
      if group.Err? {
        return Err(group.msg);
      }
      r := Ok(ElementsGroup(group.value));
    } else if name in data.types {
      r := FlattenType(data, data.types[name], name, fuel);
      if r.Ok? {
        AnyPatterns(data, name, fuel);
      }
    } else {
      r := Err("Error: unresolvable type " + name);
    }
  }

  // ---------------------------------------------------------------- the whole schema

  /** The type name an item of an element collection refers to. */
  function RefOf(item: ElementCollectionItem): (r: string)
    ensures item.ElementItem? ==> r == item.element.typeref
    ensures item.GroupRef? ==> r == item.groupRef
  {
    match item
    case ElementItem(e) => e.typeref
    case GroupRef(g) => g
  }

  /** Every name a type refers to is already a key of `m` or still waits in `queue`;
      the character types of pattern attributes are keys of `m`. */
  ghost predicate Covered(t: DataType, m: map<string, DataType>, queue: seq<string>)
  {
    (t.Collection().Some? ==>
       forall i :: 0 <= i < |t.collection.subElements| ==>
         RefOf(t.collection.subElements[i]) in m || RefOf(t.collection.subElements[i]) in queue)
    && (t.Attributes().Some? ==>
          forall i :: 0 <= i < |t.attributes| ==>
            (t.attributes[i].attributeType.EnumType? ==>
               t.attributes[i].attributeType.enumref in m || t.attributes[i].attributeType.enumref in queue)
            && (t.attributes[i].attributeType.PatternType? ==> t.attributes[i].attributeType.typename in m))
  }

  /** The work-list invariant: every stored type is covered. */
  ghost predicate Pending(m: map<string, DataType>, queue: seq<string>)
  {
    forall k :: k in m ==> Covered(m[k], m, queue)
  }

  /** A closed type map: every name any stored type refers to is stored too. */
  ghost predicate Closed(m: map<string, DataType>)
  {
    Pending(m, [])
  }

  /** `m2` keeps every entry of `m` unchanged. */
  ghost predicate Extends(m: map<string, DataType>, m2: map<string, DataType>)
  {
    forall k :: k in m ==> k in m2 && m2[k] == m[k]
  }

  /** `t` refers to the name `n`: an item of its collection or one of its enumeration
      attributes names it. */
  ghost predicate Mentions(t: DataType, n: string)
  {
    (t.Collection().Some? && exists i :: 0 <= i < |t.collection.subElements| && RefOf(t.collection.subElements[i]) == n)
    || (t.Attributes().Some? &&
        exists i :: 0 <= i < |t.attributes| && t.attributes[i].attributeType.EnumType?
                     && t.attributes[i].attributeType.enumref == n)
  }

  /** A chain of names, each of which flattens to a type that refers to the next. */
  ghost predicate RefPath(data: Xsd.Xsd, fuel: nat, path: seq<string>)
  {
    |path| > 0
    && forall i :: 0 <= i < |path| - 1 ==>
         AnyFlattened(data, path[i], fuel).Some? && Mentions(AnyFlattened(data, path[i], fuel).value, path[i + 1])
  }

  /** `n` is reached from `root` by following the references of flattened types. */
  ghost predicate Reaches(data: Xsd.Xsd, fuel: nat, root: string, n: string)
  {
    exists path :: RefPath(data, fuel, path) && path[0] == root && path[|path| - 1] == n
  }

  /** The root reaches itself. */
  lemma ReachesRoot(data: Xsd.Xsd, fuel: nat, root: string)
    ensures Reaches(data, fuel, root, root)
  {
    assert RefPath(data, fuel, [root]);
  }

  /** A name referred to by the flat type of a reached name is reached. */
  lemma ReachesStep(data: Xsd.Xsd, fuel: nat, root: string, a: string, b: string)
    requires Reaches(data, fuel, root, a)
    requires AnyFlattened(data, a, fuel).Some? && Mentions(AnyFlattened(data, a, fuel).value, b)
    ensures Reaches(data, fuel, root, b)
  {
    var path :| RefPath(data, fuel, path) && path[0] == root && path[|path| - 1] == a;
    var longer := path + [b];
    forall i | 0 <= i < |longer| - 1
      ensures AnyFlattened(data, longer[i], fuel).Some? && Mentions(AnyFlattened(data, longer[i], fuel).value, longer[i + 1])
    {
      if i < |path| - 1 {
        assert longer[i] == path[i] && longer[i + 1] == path[i + 1];
      } else {
        assert longer[i] == a && longer[i + 1] == b;
      }
    }
    assert RefPath(data, fuel, longer);
  }

  lemma CoveredMono(t: DataType, m: map<string, DataType>, q: seq<string>, m2: map<string, DataType>, q2: seq<string>)
    requires Covered(t, m, q)
    requires m.Keys <= m2.Keys
    requires forall n :: n in q ==> n in m2 || n in q2
    ensures Covered(t, m2, q2)
  {
  }

  /** The attribute part of `process_name`: a pattern attribute stores a character
      type under its type name unless that name is already stored, an enumeration
      attribute queues its enumeration. */
  method RecordAttributes(data: Xsd.Xsd, fuel: nat, t: DataType, m0: map<string, DataType>, q0: seq<string>)
    returns (m: map<string, DataType>, q: seq<string>)
    requires t.Attributes().Some? && PatternsResolve(data, t)
    requires FaithfulTable(data, fuel, m0)
    ensures Extends(m0, m) && FaithfulTable(data, fuel, m)
    ensures forall k :: k in m && k !in m0 ==> m[k].Characters? && m[k].attributes == []
    ensures forall n :: n in q0 ==> n in q
    ensures forall n :: n in q ==> n in q0 || Mentions(t, n)
    ensures forall j :: 0 <= j < |t.attributes| && t.attributes[j].attributeType.EnumType? ==>
      t.attributes[j].attributeType.enumref in q
    ensures forall j :: 0 <= j < |t.attributes| && t.attributes[j].attributeType.PatternType? ==>
      t.attributes[j].attributeType.typename in m
  {
    var attrs := t.attributes;
    m, q := m0, q0;
    for i := 0 to |attrs|
      invariant forall n :: n in q0 ==> n in q
      invariant forall n :: n in q ==> n in q0 || Mentions(t, n)
      invariant Extends(m0, m)
      invariant forall k :: k in m && k !in m0 ==> m[k].Characters? && m[k].attributes == []
      invariant forall j :: 0 <= j < i && attrs[j].attributeType.EnumType? ==> attrs[j].attributeType.enumref in q
      invariant forall j :: 0 <= j < i && attrs[j].attributeType.PatternType? ==> attrs[j].attributeType.typename in m
      invariant FaithfulTable(data, fuel, m)
    {
      match attrs[i].attributeType
      case Basic(_) =>
      case PatternType(typename, pattern, maxlength) =>
        if typename !in m {
          assert data.types[typename] == Xsd.Simple(Xsd.Restriction(Xsd.PatternRestriction(pattern, maxlength)));
          m := m[typename := Characters("xsd:string", Some(pattern), maxlength, [])];
        }
      case EnumType(enumref) =>
        assert Mentions(t, enumref);
        q := q + [enumref];
    }
  }

  /** One step of the work list of `flatten_schema`: a name that is already stored is
      skipped; otherwise its type is flattened, the names it refers to are pushed,
      pattern attributes get a character type unless their name is stored, and the
      type is stored. Stored entries are never changed, and every stored entry is
      the flat type of its name or the character type of a pattern attribute. */
  method ProcessName(data: Xsd.Xsd, complete: map<string, DataType>, queue: seq<string>, name: string, fuel: nat)
    returns (r: Result<(map<string, DataType>, seq<string>)>)
    requires Pending(complete, queue + [name])
    requires FaithfulTable(data, fuel, complete)
    ensures r.Ok? ==> Pending(r.value.0, r.value.1) && name in r.value.0 && Extends(complete, r.value.0)
    ensures r.Ok? ==> forall n :: n in queue ==> n in r.value.1
    ensures r.Ok? ==> forall n :: n in r.value.1 ==> n in queue || (name !in complete && Mentions(r.value.0[name], n))
    ensures name in complete ==> r == Ok((complete, queue))
    ensures r.Err? <==> name !in complete && AnyFlattened(data, name, fuel).None?
    ensures r.Ok? && name !in complete ==> AnyFlattened(data, name, fuel) == Some(r.value.0[name])
    ensures r.Ok? ==> FaithfulTable(data, fuel, r.value.0)
  {
    if name in complete {
      forall k | k in complete ensures Covered(complete[k], complete, queue) {
        CoveredMono(complete[k], complete, queue + [name], complete, queue);
      }
      return Ok((complete, queue));
    }
    var content := FlattenAny(data, name, fuel);
    if content.Err? {
      return Err(content.msg);
    }
    var t := content.value;
    var q := queue;
    if t.Collection().Some? {
      var items := t.Collection().value.Items();
      for i := 0 to |items|
        invariant forall n :: n in queue ==> n in q
        invariant forall n :: n in q ==> n in queue || Mentions(t, n)
        invariant forall j :: 0 <= j < i ==> RefOf(items[j]) in q
      {
        assert Mentions(t, RefOf(items[i]));
        q := q + [RefOf(items[i])];
      }
    }
    var m := complete;
    if t.Attributes().Some? {
      m, q := RecordAttributes(data, fuel, t, complete, q);
    }
    var m2 := m[name := t];
    forall k | k in m2 ensures Covered(m2[k], m2, q) {
      if k == name {
      } else if k in complete {
        CoveredMono(complete[k], complete, queue + [name], m2, q);
      } else {
        assert m2[k].Characters? && m2[k].attributes == [];
      }
    }
    assert FaithfulEntry(data, fuel, name, t);
    r := Ok((m2, q));
  }

  /** The state of the work list of `flatten_schema` started from `root`: every stored
      type is faithful and covered by the table and the queue, the root is stored or
      queued, and every queued name is reached from the root. */
  ghost predicate WorkList(data: Xsd.Xsd, fuel: nat, root: string, complete: map<string, DataType>, queue: seq<string>)
  {
    Pending(complete, queue) && (root in complete || root in queue) && FaithfulTable(data, fuel, complete)
    && forall n :: n in queue ==> Reaches(data, fuel, root, n)
  }

  /** A step of the work list keeps its state: the processed name is stored, the names
      queued before stay queued, and every newly queued name is referred to by the
      flat type of the processed name. */
  lemma WorkListStep(data: Xsd.Xsd, fuel: nat, root: string, complete: map<string, DataType>, rest: seq<string>,
                     name: string, m: map<string, DataType>, q: seq<string>)
    requires WorkList(data, fuel, root, complete, rest + [name])
    requires Pending(m, q) && name in m && Extends(complete, m) && FaithfulTable(data, fuel, m)
    requires name !in complete ==> AnyFlattened(data, name, fuel) == Some(m[name])
    requires forall n :: n in rest ==> n in q
    requires forall n :: n in q ==> n in rest || (name !in complete && Mentions(m[name], n))
    ensures WorkList(data, fuel, root, m, q)
  {
    assert name in rest + [name];
    forall n | n in q ensures Reaches(data, fuel, root, n) {
      if n in rest {
        assert n in rest + [name];
      } else {
        ReachesStep(data, fuel, root, name, n);
      }
    }
    if root !in complete {
      assert root in rest + [name];
    }
  }

  /** A queued name that does not flatten is a name reached from the root that does
      not flatten. */
  lemma WorkListFails(data: Xsd.Xsd, fuel: nat, root: string, complete: map<string, DataType>, queue: seq<string>,
                      name: string)
    requires WorkList(data, fuel, root, complete, queue) && name in queue
    requires AnyFlattened(data, name, fuel).None?
    ensures exists n :: Reaches(data, fuel, root, n) && AnyFlattened(data, n, fuel).None?
  {
  }

  /** A nonempty work list is its front followed by its last name. */
  lemma PopLast(queue: seq<string>)
    requires |queue| > 0
    ensures queue == queue[..|queue| - 1] + [queue[|queue| - 1]]
  {
  }

  /** Every name that can be stored: a type of the schema, or a group's name followed
      by the group suffix. */
  ghost function StorableNames(data: Xsd.Xsd): set<string>
  {
    data.types.Keys + set g | g in data.groups :: g + GroupSuffix
  }

  /** A faithful table stores only storable names, so the work list can store only
      finitely many. */
  lemma FaithfulTableStorable(data: Xsd.Xsd, fuel: nat, m: map<string, DataType>)
    requires FaithfulTable(data, fuel, m)
    ensures m.Keys <= StorableNames(data)
  {
    forall k | k in m ensures k in StorableNames(data) {
      assert FaithfulEntry(data, fuel, k, m[k]);
      if IsGroupTypeName(data, k) {
        var g := k[..|k| - |GroupSuffix|];
        assert k == g + GroupSuffix;
      }
    }
  }

  /** Storing a new storable name shrinks the set of storable names not yet stored. */
  lemma StoringShrinks(u: set<string>, done: set<string>, done': set<string>, name: string)
    requires done <= done' && name in done' && name !in done && done' <= u
    ensures u - done' < u - done
  {
    assert name in u - done;
  }

  /** `flatten_schema`: exactly one root element is required; its type and everything it
      refers to, directly or indirectly, is flattened through a last-in first-out work
      list. Each step either stores a new name, of which there are finitely many, or
      shortens the work list, so the work list is always drained. The result is closed:
      every name a stored type refers to is stored. The flattening fails only when some
      name reached from the root type does not flatten. */
  method FlattenSchema(data: Xsd.Xsd, fuel: nat) returns (r: Result<map<string, DataType>>)
    ensures |data.rootElements| != 1 ==> r.Err?
    ensures r.Ok? ==> data.rootElements[0].typeref in r.value && Closed(r.value)
    ensures r.Ok? ==> FaithfulTable(data, fuel, r.value)
    ensures r.Err? && |data.rootElements| == 1 ==>
      exists n :: Reaches(data, fuel, data.rootElements[0].typeref, n) && AnyFlattened(data, n, fuel).None?
  {
    if |data.rootElements| != 1 {
      return Err("Error: There should only be one root element, <AUTOSAR>");
    }
    var root := data.rootElements[0].typeref;
    var queue := [root];
    var complete: map<string, DataType> := map[];
    ReachesRoot(data, fuel, root);
    while queue != []
      invariant WorkList(data, fuel, root, complete, queue)
      decreases StorableNames(data) - complete.Keys, |queue|
    {
      var name := queue[|queue| - 1];
      var rest := queue[..|queue| - 1];
      PopLast(queue);
      var next := ProcessName(data, complete, rest, name, fuel);
      if next.Err? {
        WorkListFails(data, fuel, root, complete, queue, name);
        return Err(next.msg);
      }
      WorkListStep(data, fuel, root, complete, rest, name, next.value.0, next.value.1);
      if name !in complete {
        FaithfulTableStorable(data, fuel, next.value.0);
        StoringShrinks(StorableNames(data), complete.Keys, next.value.0.Keys, name);
      }
      complete, queue := next.value.0, next.value.1;
    }
    r := Ok(complete);
  }
}
