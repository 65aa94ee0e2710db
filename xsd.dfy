/** The parsed schema (the intermediate representation the XSD reader produces for
    one AUTOSAR schema version) and the pure helper functions of the reader
    (src/xsd.rs). The event-stream reader itself is not part of this model. */
module Xsd {
  import opened Wrappers
  import Order

  type Version = bv64

  /** `usize::MAX` on the 64-bit targets the generator runs on. */
  const UsizeMax: nat := 0xFFFF_FFFF_FFFF_FFFF

  datatype XsdAttribute = XsdAttribute(name: string, typeref: string, required: bool)

  datatype XsdAttributeGroup = XsdAttributeGroup(attributes: seq<XsdAttribute>)

  datatype XsdRestriction =
    | EnumValues(enumvalues: seq<string>)
    | PatternRestriction(pattern: string, maxlength: Option<nat>)
    | Plain(basetype: string)
    | Literal

  datatype XsdExtension = XsdExtension(basetype: string, attributes: seq<XsdAttribute>, attributeGroups: seq<string>)

  datatype XsdSimpleContent = XsdSimpleContent(extension: XsdExtension)

  datatype RestrictToStandard = NotSet | ClassicPlatform | AdaptivePlatform | Both

  datatype XsdElement = XsdElement(
    name: string,
    typeref: string,
    minOccurs: nat,
    maxOccurs: nat,
    ordered: bool,
    splittable: bool,
    restrictStd: RestrictToStandard,
    doctext: Option<string>)

  /** An item of a `<sequence>` or `<choice>`: a group reference, a nested choice or an element. */
  datatype XsdModelGroupItem =
    | GroupItem(groupRef: string)
    | ChoiceItem(choice: XsdChoice)
    | ElementItem(element: XsdElement)

  datatype XsdSequence = XsdSequence(items: seq<XsdModelGroupItem>)

  datatype XsdChoice = XsdChoice(minOccurs: nat, maxOccurs: nat, items: seq<XsdModelGroupItem>)

  datatype XsdGroupItem = GroupChoice(choice: XsdChoice) | GroupSequence(sequence: XsdSequence) | GroupNone

  datatype XsdGroup = XsdGroup(item: XsdGroupItem)

  /** The content of a complex type. The flattener also handles an inline choice and
      sequence, so those two variants are part of the model. */
  datatype XsdComplexTypeItem =
    | ContentSimple(simpleContent: XsdSimpleContent)
    | ContentGroup(groupRef: string)
    | ContentChoice(choice: XsdChoice)
    | ContentSequence(sequence: XsdSequence)
    | ContentNone

  datatype XsdComplexType = XsdComplexType(
    name: string,
    item: XsdComplexTypeItem,
    attributeGroups: seq<string>,
    mixedContent: bool,
    mmClass: Option<string>,
    doctext: Option<string>)

  datatype XsdSimpleType = Restriction(restriction: XsdRestriction)

  datatype XsdType = Base(baseName: string) | Simple(simpleType: XsdSimpleType) | Complex(complexType: XsdComplexType)

  datatype Xsd = Xsd(
    rootElements: seq<XsdElement>,
    groups: map<string, XsdGroup>,
    types: map<string, XsdType>,
    attributeGroups: map<string, XsdAttributeGroup>,
    versionInfo: Version)

  /** One attribute of a start tag: its local name (namespace prefix dropped) and value. */
  datatype OwnedAttribute = OwnedAttribute(localName: string, value: string)

  // ---------------------------------------------------------------- strings

  /** Rust `str::contains` with a string pattern. */
  predicate Contains(s: string, sub: string)
    decreases |s|
  {
    Order.IsPrefix(sub, s) || (|s| > 0 && Contains(s[1..], sub))
  }

  /** `sub` occurs in `s` starting at index `i`. */
  predicate OccursAt(s: string, sub: string, i: nat)
  {
    i + |sub| <= |s| && s[i..i + |sub|] == sub
  }

  lemma {:induction false} ContainsAt(s: string, sub: string, i: nat)
    requires OccursAt(s, sub, i)
    ensures Contains(s, sub)
    decreases i
  {
    if i > 0 {
      assert s[1..][i - 1..i - 1 + |sub|] == sub;
      ContainsAt(s[1..], sub, i - 1);
    }
  }

  lemma {:induction false} ContainsWitness(s: string, sub: string)
    requires Contains(s, sub)
    ensures exists i: nat :: OccursAt(s, sub, i)
    decreases |s|
  {
    if !Order.IsPrefix(sub, s) {
      ContainsWitness(s[1..], sub);
      var i: nat :| OccursAt(s[1..], sub, i);
      assert s[i + 1..i + 1 + |sub|] == s[1..][i..i + |sub|];
      assert OccursAt(s, sub, i + 1);
    } else {
      assert OccursAt(s, sub, 0);
    }
  }

  // ---------------------------------------------------------------- occurs

  predicate IsDigit(c: char)
  {
    '0' <= c <= '9'
  }

  predicate AllDigits(s: string)
  {
    forall i :: 0 <= i < |s| ==> IsDigit(s[i])
  }

  /** The value of a string of decimal digits, most significant first. */
  function DigitsValue(s: string): nat
    requires AllDigits(s)
  {
    if s == [] then 0 else DigitsValue(s[..|s| - 1]) * 10 + (s[|s| - 1] as int - '0' as int)
  }

  /** Decimal text of a number (Rust `to_string` on an unsigned integer). */
  function NatToDecimal(n: nat): (s: string)
    ensures |s| > 0 && AllDigits(s)
  {
    var d := (n % 10 + '0' as int) as char;
    if n < 10 then [d] else NatToDecimal(n / 10) + [d]
  }

  /** Rust `str::parse::<usize>()`: an optional `+`, then one or more ASCII digits,
      whose value must fit in a `usize`. */
  function ParseUsize(s: string): (r: Result<nat>)
    ensures r.Ok? ==> r.value <= UsizeMax
    ensures r.Ok? <==> var d := if |s| > 0 && s[0] == '+' then s[1..] else s;
                       |d| > 0 && AllDigits(d) && DigitsValue(d) <= UsizeMax
  {
    var digits := if |s| > 0 && s[0] == '+' then s[1..] else s;
    if |digits| == 0 then Err("cannot parse integer from empty string")
    else if !AllDigits(digits) then Err("invalid digit found in string")
    else if DigitsValue(digits) > UsizeMax then Err("number too large to fit in target type")
    else Ok(DigitsValue(digits))
  }

  lemma {:induction false} DecimalRoundTrip(n: nat)
    ensures DigitsValue(NatToDecimal(n)) == n
  {
    var s := NatToDecimal(n);
    if n >= 10 {
      DecimalRoundTrip(n / 10);
      assert s[..|s| - 1] == NatToDecimal(n / 10);
    }
  }

  /** `parse_occurs_attribute`: an absent `minOccurs`/`maxOccurs` means 1, "unbounded"
      means `usize::MAX`, anything else must be a decimal `usize`. */
  function ParseOccurs(attrOccurs: Option<string>): (r: Result<nat>)
    ensures attrOccurs.None? ==> r == Ok(1)
    ensures attrOccurs == Some("unbounded") ==> r == Ok(UsizeMax)
    ensures attrOccurs.Some? && attrOccurs.value != "unbounded" ==>
              (r.Ok? <==> ParseUsize(attrOccurs.value).Ok?) && (r.Ok? ==> r == ParseUsize(attrOccurs.value))
    ensures r.Ok? ==> r.value <= UsizeMax
  {
    match attrOccurs
    case None => Ok(1)
    case Some(s) =>
      if s == "unbounded" then Ok(UsizeMax)
      else match ParseUsize(s) {
        case Ok(v) => Ok(v)
        case Err(e) => Err("Error: parsing " + s + " - " + e)
      }
  }

  /** Every count a schema can write in decimal is read back unchanged. */
  lemma OccursRoundTrip(n: nat)
    requires n <= UsizeMax
    ensures ParseOccurs(Some(NatToDecimal(n))) == Ok(n)
  {
    DecimalRoundTrip(n);
    var s := NatToDecimal(n);
    assert s[0] != '+' && s != "unbounded" by {
      assert IsDigit(s[0]);
    }
  }

  // ---------------------------------------------------------------- names

  /** `extend_prev_names`: the stack of enclosing names used to name anonymous types.
      When the last entry and the new name contain one another, the new name replaces
      the last entry (only once the stack has at least two entries). */
  method ExtendPrevNames(prevNames: seq<string>, attrName: Option<string>) returns (r: seq<string>)
    ensures attrName.None? ==> r == prevNames
    ensures attrName.Some? ==> |r| > 0 && r[|r| - 1] == attrName.value && r[..|r| - 1] <= prevNames
    ensures attrName.Some? && |prevNames| > 1 &&
            (Contains(prevNames[|prevNames| - 1], attrName.value) || Contains(attrName.value, prevNames[|prevNames| - 1]))
            ==> r == prevNames[..|prevNames| - 1] + [attrName.value]
    ensures attrName.Some? && !(|prevNames| > 1 &&
            (Contains(prevNames[|prevNames| - 1], attrName.value) || Contains(attrName.value, prevNames[|prevNames| - 1])))
            ==> r == prevNames + [attrName.value]
  {
    r := prevNames;
    if attrName.Some? {
      var name := attrName.value;
      var len := |r|;
      if len > 1 {
        if Contains(r[len - 1], name) || Contains(name, r[len - 1]) {
          r := r[..len - 1];
          r := r + [name];
        } else {
          r := r + [name];
        }
      } else {
        r := r + [name];
      }
    }
  }

  /** The name `parse_complex_type` gives a complex type: its `name` attribute, or for an
      anonymous type one built from the last two (or the only) enclosing names. An
      anonymous type with no enclosing name is the source's `todo!()` and cannot occur. */
  function ComplexTypeName(attrName: Option<string>, prevNames: seq<string>): (name: string)
    requires attrName.Some? || |prevNames| > 0
    ensures attrName.Some? ==> name == attrName.value
    ensures attrName.None? && |prevNames| >= 2 ==>
              name == prevNames[|prevNames| - 2] + "-" + prevNames[|prevNames| - 1] + "-TYPE"
    ensures attrName.None? && |prevNames| == 1 ==> name == prevNames[0] + "-TYPE"
  {
    if attrName.Some? then attrName.value
    else if |prevNames| > 1 then prevNames[|prevNames| - 2] + "-" + prevNames[|prevNames| - 1] + "-TYPE"
    else prevNames[0] + "-TYPE"
  }

  /** The key under which a complex type is stored in `types`. */
  function ComplexTypeRef(name: string): (typeref: string)
    ensures Order.IsPrefix("AR:", typeref) && typeref[3..] == name
  {
    "AR:" + name
  }

  const MmClassPrefix: string := " complex type for class "

  /** `mm_class_from_comment`: the metamodel class named by the comment before a complex type. */
  function MmClassFromComment(comment: Option<string>): (r: Option<string>)
    ensures r.Some? <==> comment.Some? && Order.IsPrefix(MmClassPrefix, comment.value)
    ensures r.Some? ==> comment.value == MmClassPrefix + r.value
  {
    match comment
    case None => None
    case Some(c) => if Order.IsPrefix(MmClassPrefix, c) then Some(c[|MmClassPrefix|..]) else None
  }

  /** `get_restrict_to_standard`: classify the `mmt.RestrictToStandards` tag. */
  function GetRestrictToStandard(mmAttributes: map<string, string>): (r: RestrictToStandard)
    ensures "mmt.RestrictToStandards" !in mmAttributes <==> r == NotSet
    ensures r == ClassicPlatform <==> ("mmt.RestrictToStandards" in mmAttributes &&
              Contains(mmAttributes["mmt.RestrictToStandards"], "CP") && !Contains(mmAttributes["mmt.RestrictToStandards"], "AP"))
    ensures r == AdaptivePlatform <==> ("mmt.RestrictToStandards" in mmAttributes &&
              !Contains(mmAttributes["mmt.RestrictToStandards"], "CP") && Contains(mmAttributes["mmt.RestrictToStandards"], "AP"))
  {
    if "mmt.RestrictToStandards" in mmAttributes then
      var restrict := mmAttributes["mmt.RestrictToStandards"];
      if Contains(restrict, "CP") && !Contains(restrict, "AP") then ClassicPlatform
      else if !Contains(restrict, "CP") && Contains(restrict, "AP") then AdaptivePlatform
      else Both
    else NotSet
  }

  /** `XsdModelGroupItem::name`. */
  function ModelGroupItemName(item: XsdModelGroupItem): (r: string)
    ensures item.GroupItem? ==> r == item.groupRef
    ensures item.ChoiceItem? ==> r == "CHOICE"
    ensures item.ElementItem? ==> r == "ELEMENT"
  {
    match item
    case GroupItem(groupRef) => groupRef
    case ChoiceItem(_) => "CHOICE"
    case ElementItem(_) => "ELEMENT"
  }

  // ---------------------------------------------------------------- attributes of a tag

  /** `get_attribute_value`: the value of the first attribute with the given local name. */
  method GetAttributeValue(key: string, attributes: seq<OwnedAttribute>) returns (r: Option<string>)
    ensures r.None? <==> forall i :: 0 <= i < |attributes| ==> attributes[i].localName != key
    ensures r.Some? ==> exists i :: 0 <= i < |attributes| && attributes[i].localName == key &&
                          attributes[i].value == r.value &&
                          forall j :: 0 <= j < i ==> attributes[j].localName != key
  {
    var idx := 0;
    while idx < |attributes|
      invariant 0 <= idx <= |attributes|
      invariant forall j :: 0 <= j < idx ==> attributes[j].localName != key
    {
      if attributes[idx].localName == key {
        return Some(attributes[idx].value);
      }
      idx := idx + 1;
    }
    return None;
  }

  /** `get_required_attribute_value`: as above, but a missing attribute is an error. */
  method GetRequiredAttributeValue(key: string, attributes: seq<OwnedAttribute>, position: string)
    returns (r: Result<string>)
    ensures r.Err? <==> forall i :: 0 <= i < |attributes| ==> attributes[i].localName != key
    ensures r.Ok? ==> exists i :: 0 <= i < |attributes| && attributes[i].localName == key &&
                        attributes[i].value == r.value &&
                        forall j :: 0 <= j < i ==> attributes[j].localName != key
  {
    var v := GetAttributeValue(key, attributes);
    if v.Some? {
      r := Ok(v.value);
    } else {
      r := Err("Error: mandatory attribute \"" + key + "\" is missing at " + position);
    }
  }

  // ---------------------------------------------------------------- restrictions

  /** The tail of `parse_restriction`: decide the restriction kind from the facets seen. */
  function ClassifyRestriction(literal: bool, enumvalues: seq<string>, pattern: Option<string>,
                               maxLength: Option<nat>, basetype: string): (r: Result<XsdRestriction>)
    ensures r.Err? <==> (literal && (|enumvalues| > 0 || pattern.Some?)) || (|enumvalues| > 0 && pattern.Some?)
    ensures r.Ok? && literal ==> r.value == Literal
    ensures r.Ok? && !literal && pattern.Some? ==> r.value == PatternRestriction(pattern.value, maxLength)
    ensures r.Ok? && !literal && pattern.None? && |enumvalues| > 0 ==> r.value == EnumValues(enumvalues)
    ensures r.Ok? && !literal && pattern.None? && |enumvalues| == 0 ==> r.value == Plain(basetype)
  {
    if (literal && (|enumvalues| > 0 || pattern.Some?)) || (|enumvalues| > 0 && pattern.Some?) then
      Err("Error: properies for more than one variant found inside <restriction>")
    else if literal then Ok(Literal)
    else if pattern.Some? then Ok(PatternRestriction(pattern.value, maxLength))
    else if |enumvalues| > 0 then Ok(EnumValues(enumvalues))
    else Ok(Plain(basetype))
  }

  /** A facet tag inside `<restriction>`: its local name and its `value` attribute. */
  datatype Facet = Facet(tag: string, value: Option<string>)

  /** `parse_restriction` over the facet tags it reads: enumeration values accumulate in
      order, the last `pattern` and `maxLength` win, `whiteSpace="preserve"` marks a
      literal; an unknown tag, a missing `value` or an unparsable `maxLength` is an error. */
  method ParseRestriction(basetype: string, facets: seq<Facet>) returns (r: Result<XsdRestriction>)
    ensures r.Ok? ==> forall i :: 0 <= i < |facets| ==>
              facets[i].tag in {"enumeration", "pattern", "maxLength", "whiteSpace"} && facets[i].value.Some?
    ensures (exists i :: 0 <= i < |facets| && facets[i].tag !in {"enumeration", "pattern", "maxLength", "whiteSpace"})
              ==> r.Err?
    ensures r.Ok? && r.value.EnumValues? ==>
              r.value.enumvalues == EnumerationValues(facets) && |r.value.enumvalues| > 0
    ensures r.Ok? && r.value.Plain? ==> r.value.basetype == basetype
    ensures !(WellFormedFacets(facets) && MaxLengthsParse(facets)) ==> r.Err?
    ensures WellFormedFacets(facets) && MaxLengthsParse(facets) ==>
              r == ClassifyRestriction(IsLiteral(facets), EnumerationValues(facets), LastValue(facets, "pattern"),
                                       LastMaxLength(facets), basetype)
  {
    var enumvalues: seq<string> := [];
    var pattern: Option<string> := None;
    var maxLength: Option<nat> := None;
    var literal := false;
    var idx := 0;
    while idx < |facets|
      invariant 0 <= idx <= |facets|
      invariant WellFormedFacets(facets[..idx])
      invariant enumvalues == EnumerationValues(facets[..idx])
      invariant pattern == LastValue(facets[..idx], "pattern")
      invariant MaxLengthsParse(facets[..idx]) && maxLength == LastMaxLength(facets[..idx])
      invariant literal == IsLiteral(facets[..idx])
    {
      var facet := facets[idx];
      FacetStep(facets, idx);
      if facet.tag !in {"enumeration", "pattern", "maxLength", "whiteSpace"} {
        PrefixFacets(facets, idx + 1);
        return Err("Error: found unexpected start of element tag \"" + facet.tag + "\"");
      }
      if facet.value.None? {
        PrefixFacets(facets, idx + 1);
        return Err("Error: mandatory attribute \"value\" is missing");
      }
      var attrval := facet.value.value;
      if facet.tag == "enumeration" {
        enumvalues := enumvalues + [attrval];
      } else if facet.tag == "pattern" {
        pattern := Some(attrval);
      } else if facet.tag == "maxLength" {
        var parsed := ParseUsize(attrval);
        if parsed.Err? {
          PrefixFacets(facets, idx + 1);
          return Err("Error: failed to parse maxLength value " + attrval);
        }
        maxLength := Some(parsed.value);
      } else if attrval == "preserve" {
        literal := true;
      }
      idx := idx + 1;
    }
    assert facets[..idx] == facets;
    r := ClassifyRestriction(literal, enumvalues, pattern, maxLength, basetype);
  }

  /** Every facet is one of the four known ones and has a `value`. */
  predicate WellFormedFacets(facets: seq<Facet>)
  {
    forall i :: 0 <= i < |facets| ==>
      facets[i].tag in {"enumeration", "pattern", "maxLength", "whiteSpace"} && facets[i].value.Some?
  }

  /** Every `maxLength` value is a decimal number of the platform's word size. */
  predicate MaxLengthsParse(facets: seq<Facet>)
  {
    forall i :: 0 <= i < |facets| && facets[i].tag == "maxLength" && facets[i].value.Some? ==>
      ParseUsize(facets[i].value.value).Ok?
  }

  /** Some `whiteSpace` facet has the value `preserve`. */
  predicate IsLiteral(facets: seq<Facet>)
  {
    exists i :: 0 <= i < |facets| && facets[i].tag == "whiteSpace" && facets[i].value == Some("preserve")
  }

  /** The value of the last facet with the given tag. */
  function LastValue(facets: seq<Facet>, tag: string): (r: Option<string>)
    ensures r.Some? <==> exists i :: 0 <= i < |facets| && facets[i].tag == tag && facets[i].value.Some?
  {
    if facets == [] then None
    else
      var last := facets[|facets| - 1];
      if last.tag == tag && last.value.Some? then last.value
      else
        var r := LastValue(facets[..|facets| - 1], tag);
        assert forall i :: 0 <= i < |facets| - 1 ==> facets[..|facets| - 1][i] == facets[i];
        r
  }

  /** The number of the last `maxLength` facet whose value parses. */
  function LastMaxLength(facets: seq<Facet>): Option<nat>
  {
    if facets == [] then None
    else
      var last := facets[|facets| - 1];
      if last.tag == "maxLength" && last.value.Some? && ParseUsize(last.value.value).Ok? then
        Some(ParseUsize(last.value.value).value)
      else LastMaxLength(facets[..|facets| - 1])
  }

  /** How each fact about a prefix of the facets changes when one more facet is read. */
  lemma FacetStep(facets: seq<Facet>, idx: nat)
    requires idx < |facets|
    ensures var f, p, p' := facets[idx], facets[..idx], facets[..idx + 1];
      && (WellFormedFacets(p') <==>
            WellFormedFacets(p) && f.tag in {"enumeration", "pattern", "maxLength", "whiteSpace"} && f.value.Some?)
      && (MaxLengthsParse(p') <==>
            MaxLengthsParse(p) && (f.tag == "maxLength" && f.value.Some? ==> ParseUsize(f.value.value).Ok?))
      && (IsLiteral(p') <==> IsLiteral(p) || (f.tag == "whiteSpace" && f.value == Some("preserve")))
      && EnumerationValues(p') == EnumerationValues(p) + (if f.tag == "enumeration" && f.value.Some? then [f.value.value] else [])
      && LastValue(p', "pattern") == (if f.tag == "pattern" && f.value.Some? then f.value else LastValue(p, "pattern"))
      && LastMaxLength(p') == (if f.tag == "maxLength" && f.value.Some? && ParseUsize(f.value.value).Ok?
                               then Some(ParseUsize(f.value.value).value) else LastMaxLength(p))
  {
    var p, p' := facets[..idx], facets[..idx + 1];
    assert p'[..idx] == p;
    assert forall i :: 0 <= i < idx ==> p'[i] == p[i];
    if IsLiteral(p') && !IsLiteral(p) {
      var i :| 0 <= i < |p'| && p'[i].tag == "whiteSpace" && p'[i].value == Some("preserve");
      assert i == idx;
    }
  }

  /** A fact that fails for a prefix of the facets fails for all of them. */
  lemma PrefixFacets(facets: seq<Facet>, n: nat)
    requires n <= |facets|
    ensures WellFormedFacets(facets) ==> WellFormedFacets(facets[..n])
    ensures MaxLengthsParse(facets) ==> MaxLengthsParse(facets[..n])
  {
  }

  /** The values of the `enumeration` facets, in document order. */
  function EnumerationValues(facets: seq<Facet>): seq<string>
  {
    if facets == [] then []
    else
      var last := facets[|facets| - 1];
      EnumerationValues(facets[..|facets| - 1]) +
        (if last.tag == "enumeration" && last.value.Some? then [last.value.value] else [])
  }

  // ---------------------------------------------------------------- annotation tags

  /** Rust `str::split(';')`: the pieces between separators, empty pieces included. */
  function Split(s: string, sep: char): (pieces: seq<string>)
    ensures |pieces| > 0
    ensures forall i :: 0 <= i < |pieces| ==> sep !in pieces[i]
  {
    if sep !in s then [s]
    else
      var k := FirstIndexOf(s, sep);
      [s[..k]] + Split(s[k + 1..], sep)
  }

  function Join(pieces: seq<string>, sep: char): string
  {
    if |pieces| <= 1 then (if pieces == [] then "" else pieces[0])
    else pieces[0] + [sep] + Join(pieces[1..], sep)
  }

  function FirstIndexOf(s: string, c: char): (k: nat)
    requires c in s
    ensures k < |s| && s[k] == c && c !in s[..k]
  {
    if s[0] == c then 0 else 1 + FirstIndexOf(s[1..], c)
  }

  /** Splitting loses nothing: joining the pieces with the separator gives back the text. */
  lemma {:induction false} SplitJoin(s: string, sep: char)
    ensures Join(Split(s, sep), sep) == s
    decreases |s|
  {
    if sep in s {
      var k := FirstIndexOf(s, sep);
      var rest := Split(s[k + 1..], sep);
      var pieces := [s[..k]] + rest;
      assert Split(s, sep) == pieces;
      assert pieces[0] == s[..k] && pieces[1..] == rest;
      SplitJoin(s[k + 1..], sep);
      assert Join(pieces, sep) == s[..k] + [sep] + s[k + 1..];
      assert s == s[..k] + [sep] + s[k + 1..];
    }
  }

  /** A successful byte slice `tag[eq + 2..len - 1]` after the `=` at character `eq`
      means that at least two characters follow the `=`, that the character right
      after the `=` and the last character are one byte long, and that the slice holds
      the characters between them. */
  lemma TagValueSliced(tag: string, eq: nat, len: nat)
    requires eq < |tag| && tag[eq] == '=' && len == Order.Utf8Len(tag)
    requires Order.Utf8Len(tag[..eq]) + 2 <= len - 1
    requires Order.CharsInBytes(tag, Order.Utf8Len(tag[..eq]) + 2).Some?
    requires Order.CharsInBytes(tag, len - 1).Some?
    ensures eq + 3 <= |tag| && Order.Utf8Width(tag[eq + 1]) == 1 && Order.Utf8Width(tag[|tag| - 1]) == 1
    ensures Order.CharsInBytes(tag, Order.Utf8Len(tag[..eq]) + 2) == Some(eq + 2)
    ensures Order.CharsInBytes(tag, len - 1) == Some(|tag| - 1)
  {
    var b := Order.Utf8Len(tag[..eq]);
    TagBoundaries(tag, eq, Order.CharsInBytes(tag, b + 2).value, Order.CharsInBytes(tag, len - 1).value);
  }

  /** The character positions of the two slice ends: the byte after the `=` plus one,
      and the byte before the end. */
  lemma TagBoundaries(tag: string, eq: nat, i: nat, j: nat)
    requires eq < |tag| && tag[eq] == '=' && i <= |tag| && j <= |tag|
    requires Order.Utf8Len(tag[..i]) == Order.Utf8Len(tag[..eq]) + 2 <= Order.Utf8Len(tag) - 1
    requires Order.Utf8Len(tag[..j]) + 1 == Order.Utf8Len(tag)
    ensures i == eq + 2 && j == |tag| - 1 && eq + 3 <= |tag|
    ensures Order.Utf8Width(tag[eq + 1]) == 1 && Order.Utf8Width(tag[|tag| - 1]) == 1
  {
    Order.Utf8LenSnoc(tag, eq);
    assert Order.Utf8Len(tag[..eq + 1]) == Order.Utf8Len(tag[..eq]) + Order.Utf8Width(tag[eq]);
    assert tag[..|tag|] == tag;
    assert Order.Utf8Len(tag[..eq + 1]) < Order.Utf8Len(tag[..|tag|]);
    assert eq + 1 < |tag|;
    Order.NextByteBoundary(tag, eq + 1, i);
    Order.LastByteBoundary(tag, j);
  }

  /** Conversely, with two characters after the `=` of which the first, like the last
      character of the piece, is one byte long, the byte slice succeeds. */
  lemma TagValueFits(tag: string, eq: nat, len: nat)
    requires eq + 3 <= |tag| && tag[eq] == '=' && len == Order.Utf8Len(tag)
    requires Order.Utf8Width(tag[eq + 1]) == 1 && Order.Utf8Width(tag[|tag| - 1]) == 1
    ensures len > 0 && Order.Utf8Len(tag[..eq]) + 2 <= len - 1
    ensures Order.CharsInBytes(tag, Order.Utf8Len(tag[..eq]) + 2) == Some(eq + 2)
    ensures Order.CharsInBytes(tag, len - 1) == Some(|tag| - 1)
  {
    Order.BoundaryAfterTwoBytes(tag, eq);
    Order.BoundaryBeforeLastByte(tag);
    if eq + 2 < |tag| - 1 {
      Order.Utf8LenPrefixMono(tag, eq + 2, |tag| - 1);
    }
  }

  /** `tag.find('=')`, then `tag[0..eq]` and `tag[eq + 2..len - 1]` on byte positions;
      the second slice panics unless the piece has at least two characters after the
      `=` and the slice's ends fall on character boundaries. */
  function ParseTag(tag: string): (r: Result<(string, string)>)
    requires '=' in tag
    ensures r.Ok? <==> var eq := FirstIndexOf(tag, '=');
                       eq + 3 <= |tag| && Order.Utf8Width(tag[eq + 1]) == 1 && Order.Utf8Width(tag[|tag| - 1]) == 1
    ensures r.Ok? ==> var eq := FirstIndexOf(tag, '=');
                      r.value.0 + "=" + [tag[eq + 1]] + r.value.1 + [tag[|tag| - 1]] == tag
    ensures r.Ok? ==> '=' !in r.value.0
  {
    var eq := FirstIndexOf(tag, '=');
    var len := Order.Utf8Len(tag);
    assert len > 0 by {
      assert tag[..|tag|] == tag;
      Order.Utf8LenPrefixMono(tag, 0, |tag|);
    }
    match Order.ByteSlice(tag, Order.Utf8Len(tag[..eq]) + 2, len - 1)
    case Err(e) =>
      if eq + 3 <= |tag| && Order.Utf8Width(tag[eq + 1]) == 1 && Order.Utf8Width(tag[|tag| - 1]) == 1 then
        TagValueFits(tag, eq, len);
        Err(e)
      else Err(e)
    case Ok(value) =>
      TagValueSliced(tag, eq, len);
      assert value == tag[eq + 2..|tag| - 1];
      TagPieces(tag, eq);
      Ok((tag[..eq], value))
  }

  /** A piece is its key, the `=`, the character after it, the value and its last
      character. */
  lemma TagPieces(tag: string, eq: nat)
    requires eq + 3 <= |tag| && tag[eq] == '='
    ensures tag == tag[..eq] + "=" + [tag[eq + 1]] + tag[eq + 2..|tag| - 1] + [tag[|tag| - 1]]
  {
    assert tag == tag[..eq] + [tag[eq]] + [tag[eq + 1]] + tag[eq + 2..|tag| - 1] + [tag[|tag| - 1]];
  }

  /** A later piece among the first `n` that has an `=` parses to the same key as piece
      `i`. */
  ghost predicate Overridden(pieces: seq<string>, i: nat, n: nat)
    requires i < |pieces| && n <= |pieces| && '=' in pieces[i] && ParseTag(pieces[i]).Ok?
  {
    exists j :: i < j < n && '=' in pieces[j] && ParseTag(pieces[j]).Ok?
                && ParseTag(pieces[j]).value.0 == ParseTag(pieces[i]).value.0
  }

  /** The tag map after the first `n` pieces, or `None` once a piece with an `=` fails
      to parse: each piece with an `=` sets its key to its value. */
  ghost function TagsParsed(pieces: seq<string>, n: nat): Option<map<string, string>>
    requires n <= |pieces|
  {
    if n == 0 then Some(map[])
    else
      match TagsParsed(pieces, n - 1)
      case None => None
      case Some(m) =>
        var tag := pieces[n - 1];
        if '=' !in tag then Some(m)
        else if ParseTag(tag).Err? then None
        else Some(m[ParseTag(tag).value.0 := ParseTag(tag).value.1])
  }

  /** Once a piece fails, the tag map fails. */
  lemma {:induction false} TagsParsedFails(pieces: seq<string>, n: nat, m: nat)
    requires n <= m <= |pieces| && TagsParsed(pieces, n).None?
    ensures TagsParsed(pieces, m).None?
    decreases m
  {
    if n < m {
      TagsParsedFails(pieces, n, m - 1);
    }
  }

  /** The tag map fails exactly when some piece with an `=` does not parse. */
  lemma {:induction false} TagsParsedNone(pieces: seq<string>, n: nat)
    requires n <= |pieces|
    ensures TagsParsed(pieces, n).None? <==>
      exists i :: 0 <= i < n && '=' in pieces[i] && ParseTag(pieces[i]).Err?
  {
    if n > 0 {
      TagsParsedNone(pieces, n - 1);
      if '=' in pieces[n - 1] && ParseTag(pieces[n - 1]).Err? {
        assert 0 <= n - 1 < n && '=' in pieces[n - 1] && ParseTag(pieces[n - 1]).Err?;
      }
    }
  }

  /** Every entry of the tag map comes from a piece with an `=` that parses to it. */
  lemma {:induction false} TagsParsedSources(pieces: seq<string>, n: nat)
    requires n <= |pieces| && TagsParsed(pieces, n).Some?
    ensures forall key :: key in TagsParsed(pieces, n).value ==>
              exists i :: 0 <= i < n && '=' in pieces[i] && ParseTag(pieces[i]) == Ok((key, TagsParsed(pieces, n).value[key]))
  {
    if n > 0 {
      TagsParsedSources(pieces, n - 1);
    }
  }

  /** Every piece with an `=` has its key in the tag map, with its own value unless a
      later piece has the same key. */
  lemma {:induction false} TagsParsedLastWins(pieces: seq<string>, n: nat)
    requires n <= |pieces| && TagsParsed(pieces, n).Some?
    ensures forall i :: 0 <= i < n && '=' in pieces[i] ==>
              ParseTag(pieces[i]).Ok? && ParseTag(pieces[i]).value.0 in TagsParsed(pieces, n).value
              && (!Overridden(pieces, i, n) ==>
                    TagsParsed(pieces, n).value[ParseTag(pieces[i]).value.0] == ParseTag(pieces[i]).value.1)
  {
    if n > 0 {
      TagsParsedLastWins(pieces, n - 1);
      var tag := pieces[n - 1];
      if '=' in tag {
        forall i | 0 <= i < n - 1 && '=' in pieces[i] && ParseTag(pieces[i]).value.0 == ParseTag(tag).value.0
          ensures Overridden(pieces, i, n)
        {
          assert i < n - 1 < n && '=' in pieces[n - 1];
        }
      }
    }
  }

  /** The `source="tags"` branch of `parse_annotation`: every `;`-separated piece that
      contains `=` becomes one entry, and a later piece with the same key overwrites an
      earlier one. */
  method ParseTags(text: string) returns (r: Result<map<string, string>>)
    ensures r.Ok? <==> TagsParsed(Split(text, ';'), |Split(text, ';')|).Some?
    ensures r.Ok? ==> r.value == TagsParsed(Split(text, ';'), |Split(text, ';')|).value
  {
    var pieces := Split(text, ';');
    var tagmap: map<string, string> := map[];
    var idx := 0;
    while idx < |pieces|
      invariant 0 <= idx <= |pieces|
      invariant TagsParsed(pieces, idx) == Some(tagmap)
    {
      var tag := pieces[idx];
      if '=' in tag {
        var parsed := ParseTag(tag);
        if parsed.Err? {
          TagsParsedFails(pieces, idx + 1, |pieces|);
          return Err("byte index out of range in tag " + tag);
        }
        tagmap := tagmap[parsed.value.0 := parsed.value.1];
      }
      idx := idx + 1;
    }
    r := Ok(tagmap);
  }

  /** What `ParseTags` yields: it fails exactly when a piece with an `=` is malformed;
      otherwise every key comes from a piece with an `=`, every such piece's key is
      present, and its value is that of the last piece with that key. */
  lemma ParsedTags(text: string)
    ensures TagsParsed(Split(text, ';'), |Split(text, ';')|).None? <==>
      exists i :: 0 <= i < |Split(text, ';')| && '=' in Split(text, ';')[i] && ParseTag(Split(text, ';')[i]).Err?
    ensures TagsParsed(Split(text, ';'), |Split(text, ';')|).Some? ==>
      var m := TagsParsed(Split(text, ';'), |Split(text, ';')|).value;
      && (forall key :: key in m ==>
            exists i :: 0 <= i < |Split(text, ';')| && '=' in Split(text, ';')[i] &&
                        ParseTag(Split(text, ';')[i]) == Ok((key, m[key])))
      && (forall i :: 0 <= i < |Split(text, ';')| && '=' in Split(text, ';')[i] ==>
            ParseTag(Split(text, ';')[i]).Ok? && ParseTag(Split(text, ';')[i]).value.0 in m
            && (!Overridden(Split(text, ';'), i, |Split(text, ';')|) ==>
                  m[ParseTag(Split(text, ';')[i]).value.0] == ParseTag(Split(text, ';')[i]).value.1))
  {
    var pieces := Split(text, ';');
    TagsParsedNone(pieces, |pieces|);
    if TagsParsed(pieces, |pieces|).Some? {
      TagsParsedSources(pieces, |pieces|);
      TagsParsedLastWins(pieces, |pieces|);
    }
  }
}
