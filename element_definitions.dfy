/** The element-definition table (src/generator/element_definitions.rs): every
    distinct element found in a group, once, in a fixed order after the root element
    AUTOSAR, and the numbering of their documentation strings. */
module ElementDefinitions {
  import opened Wrappers
  import opened Order
  import opened AutosarTypes
  import opened GeneratorTypes
  import opened Compaction
  import Xsd

  // ---------------------------------------------------------------- sort order

  /** The derived order of `XsdRestrictToStandard`: declaration order. */
  function RestrictRank(r: Xsd.RestrictToStandard): nat
  {
    match r
    case NotSet => 0
    case ClassicPlatform => 1
    case AdaptivePlatform => 2
    case Both => 3
  }

  function CmpInt(a: int, b: int): (r: Ordering)
  {
    if a < b then Less else if a == b then Equal else Greater
  }

  /** `bool`'s order: false before true. */
  function BoolRank(b: bool): nat
  {
    if b then 1 else 0
  }

  /** `Option`'s order: None first, then by the contained string. */
  function CmpDocstring(a: Option<string>, b: Option<string>): (r: Ordering)
  {
    match (a, b)
    case (None, None) => Equal
    case (None, Some(_)) => Less
    case (Some(_), None) => Greater
    case (Some(x), Some(y)) => StrCmp(x, y)
  }

  /** `Ordering::then`: the first comparison unless it finds the values equal. */
  function Then(first: Ordering, next: Ordering): Ordering
  {
    if first != Equal then first else next
  }

  /** The comparator of `build_elements_info`: by name, type, documentation,
      `ordered`, `splittable` and restriction, in that order. The amount is not
      compared. */
  function CmpElements(e1: SimpleElement, e2: SimpleElement): (r: Ordering)
    ensures r == Equal <==>
              e1.name == e2.name && e1.typeref == e2.typeref && e1.docstring == e2.docstring &&
              e1.ordered == e2.ordered && e1.splittable == e2.splittable && e1.restrictStd == e2.restrictStd
  {
    StrOrderFacts();
    Then(StrCmp(e1.name, e2.name),
    Then(StrCmp(e1.typeref, e2.typeref),
    Then(CmpDocstring(e1.docstring, e2.docstring),
    Then(CmpInt(BoolRank(e1.ordered), BoolRank(e2.ordered)),
    Then(CmpInt(BoolRank(e1.splittable), BoolRank(e2.splittable)),
         CmpInt(RestrictRank(e1.restrictStd), RestrictRank(e2.restrictStd)))))))
  }

  predicate ElemLe(e1: SimpleElement, e2: SimpleElement)
  {
    CmpElements(e1, e2) != Greater
  }

  /** Swapping the arguments swaps Less and Greater. */
  lemma CmpElementsFlip(e1: SimpleElement, e2: SimpleElement)
    ensures CmpElements(e1, e2) == Less <==> CmpElements(e2, e1) == Greater
  {
    StrOrderFacts();
  }

  /** The comparator is a total preorder, so the sort is well defined up to elements
      it finds equal (those that differ only in their amount). */
  lemma ElemLePreorder()
    ensures TotalPreorder(ElemLe)
  {
    forall a, b ensures ElemLe(a, b) || ElemLe(b, a) {
      CmpElementsFlip(a, b);
    }
    forall a, b, c | ElemLe(a, b) && ElemLe(b, c) ensures ElemLe(a, c) {
      StrOrderFacts();
    }
  }

  // ---------------------------------------------------------------- element definitions

  /** The root element, whose definition the schemas' groups do not carry. */
  const AutosarElement := SimpleElement("AUTOSAR", "AR:AUTOSAR", One, true, false, Xsd.NotSet, None)

  /** Every element found in a group, without its version tag. */
  function AllElements(adt: AutosarDataTypes): set<SimpleElement>
  {
    set g, item | g in adt.groupTypes && item in adt.groupTypes[g].Items() && item.ElementItem? ::
      FromElement(item.element)
  }

  /** `build_elements_info`: the root element first, then every element found in a
      group, once, sorted by the comparator. */
  method BuildElementsInfo(adt: AutosarDataTypes) returns (defs: seq<SimpleElement>)
    ensures |defs| == |AllElements(adt)| + 1
    ensures defs[0] == AutosarElement
    ensures forall e :: e in defs[1..] <==> e in AllElements(adt)
    ensures Distinct(defs[1..])
    ensures forall i, j :: 1 <= i < j < |defs| ==> ElemLe(defs[i], defs[j])
  {
    var all := SetToSeq(AllElements(adt));
    ElemLePreorder();
    var sorted := SortBy(all, ElemLe);
    assert forall x :: x in sorted <==> x in multiset(all);
    assert |sorted| == |multiset(sorted)| == |multiset(all)| == |all|;
    forall i, j | 0 <= i < j < |sorted| ensures sorted[i] != sorted[j] {
      DistinctCount(all, sorted, i, j);
    }
    defs := [AutosarElement] + sorted;
    assert defs[1..] == sorted;
  }

  // ---------------------------------------------------------------- documentation strings

  /** The documentation strings of the definitions. */
  function Docstrings(defs: seq<SimpleElement>): set<string>
  {
    set e | e in defs && e.docstring.Some? :: e.docstring.value
  }

  /** Each value of a duplicate-free sequence mapped to its position. */
  function PositionMap(s: seq<string>): (m: map<string, nat>)
    requires Distinct(s)
  {
    map i | 0 <= i < |s| :: s[i] := i
  }

  lemma PositionMapFacts(s: seq<string>)
    requires Distinct(s)
    ensures forall d :: d in PositionMap(s) <==> d in s
    ensures forall i :: 0 <= i < |s| ==> PositionMap(s)[s[i]] == i
  {
    var m := PositionMap(s);
    forall d | d in s ensures d in m {
      var i :| 0 <= i < |s| && s[i] == d;
    }
    forall i | 0 <= i < |s| ensures m[s[i]] == i {
      assert s[i] in m;
      var k :| 0 <= k < |s| && s[k] == s[i] && m[s[i]] == k;
    }
  }

  /** `build_docstrings_info`: each distinct documentation string is numbered by its
      position in ascending order, so the numbers are 0 .. n-1, each used once. */
  method BuildDocstringsInfo(defs: seq<SimpleElement>) returns (ids: map<string, nat>)
    ensures ids.Keys == Docstrings(defs)
    ensures forall d :: d in ids ==> ids[d] == NameRank(ids.Keys, d)
    ensures forall d :: d in ids ==> ids[d] < |ids|
    ensures forall d1, d2 :: d1 in ids && d2 in ids && ids[d1] == ids[d2] ==> d1 == d2
    ensures forall i :: 0 <= i < |ids| ==> i in ids.Values
  {
    var sorted := SortedStrings(Docstrings(defs));
    ids := PositionMap(sorted);
    NumberingFacts(sorted, Docstrings(defs));
  }

  /** The position map of the ascending listing of a set numbers it by rank. */
  lemma NumberingFacts(sorted: seq<string>, docs: set<string>)
    requires SortedListing(sorted, docs) && Distinct(sorted) && |sorted| == |docs|
    ensures PositionMap(sorted).Keys == docs
    ensures forall d :: d in docs ==> PositionMap(sorted)[d] == NameRank(docs, d)
    ensures forall d :: d in docs ==> PositionMap(sorted)[d] < |docs|
    ensures forall i :: 0 <= i < |docs| ==> i in PositionMap(sorted).Values
  {
    var ids := PositionMap(sorted);
    PositionMapFacts(sorted);
    assert ids.Keys == docs by {
      forall d ensures d in ids <==> d in docs {
      }
    }
    forall d | d in docs ensures ids[d] == NameRank(docs, d) && ids[d] < |docs| {
      var i :| 0 <= i < |sorted| && sorted[i] == d;
      SortedNameRank(sorted, docs, i);
    }
    forall i | 0 <= i < |docs| ensures i in ids.Values {
      assert ids[sorted[i]] == i;
    }
  }

  /** The identifier of a documentation string; a missing one sorts first, as `None` does. */
  function IdKey(ids: map<string, nat>, d: string): int
  {
    if d in ids then ids[d] else -1
  }

  predicate IdLe(ids: map<string, nat>, a: string, b: string)
  {
    IdKey(ids, a) <= IdKey(ids, b)
  }

  lemma IdLePreorder(ids: map<string, nat>)
    ensures TotalPreorder((a: string, b: string) => IdLe(ids, a, b))
  {
  }

  /** The order of `generate_docstrings`: the strings sorted by their identifiers. */
  method DocstringOrder(ids: map<string, nat>) returns (list: seq<string>)
    ensures |list| == |ids|
    ensures forall d :: d in list <==> d in ids
    ensures forall i, j :: 0 <= i < j < |list| ==> ids[list[i]] <= ids[list[j]]
  {
    var keys := SetToSeq(ids.Keys);
    var le := (a: string, b: string) => IdLe(ids, a, b);
    IdLePreorder(ids);
    list := SortBy(keys, le);
    assert forall x :: x in list <==> x in multiset(keys);
    assert |list| == |multiset(list)| == |multiset(keys)| == |keys|;
    forall k | 0 <= k < |list| ensures list[k] in ids {
      assert list[k] in multiset(keys);
    }
    forall i, j | 0 <= i < j < |list| ensures ids[list[i]] <= ids[list[j]] {
      assert le(list[i], list[j]);
    }
  }

  /** With the numbering `build_docstrings_info` makes, the string at position i of
      the emitted list is the one numbered i. */
  lemma DocstringOrderIsNumbering(ids: map<string, nat>, list: seq<string>)
    requires forall d :: d in ids ==> ids[d] < |ids|
    requires forall d1, d2 :: d1 in ids && d2 in ids && ids[d1] == ids[d2] ==> d1 == d2
    requires |list| == |ids| && forall d :: d in list <==> d in ids
    requires forall i, j :: 0 <= i < j < |list| ==> ids[list[i]] <= ids[list[j]]
    ensures forall i :: 0 <= i < |list| ==> ids[list[i]] == i
  {
    var s := seq(|list|, i requires 0 <= i < |list| => ids[list[i]]);
    forall i, j | 0 <= i < j < |s| ensures s[i] < s[j] {
      DistinctListing(ids, list, i, j);
    }
    forall i | 0 <= i < |list| ensures ids[list[i]] == i {
      AtLeastIndex(s, i);
      AtMostIndex(s, i);
      assert s[i] == ids[list[i]];
    }
  }

  /** A listing of the keys as long as the map lists each key once. */
  lemma DistinctListing(ids: map<string, nat>, list: seq<string>, i: nat, j: nat)
    requires |list| == |ids| && forall d :: d in list <==> d in ids
    requires 0 <= i < j < |list|
    ensures list[i] != list[j]
  {
    if list[i] == list[j] {
      var rest := list[..i] + list[i + 1..];
      forall d | d in ids ensures d in rest {
        var k :| 0 <= k < |list| && list[k] == d;
        if k < i {
          assert rest[k] == d;
        } else if k == i {
          assert rest[j - 1] == d;
        } else {
          assert rest[k - 1] == d;
        }
      }
      SeqCoversSet(rest, ids.Keys);
      assert false;
    }
  }

  /** A sequence that contains every element of a set is at least as long as the set. */
  lemma {:induction false} SeqCoversSet(s: seq<string>, keys: set<string>)
    requires forall d :: d in keys ==> d in s
    ensures |keys| <= |s|
    decreases |s|
  {
    if s != [] {
      var rest := keys - {s[0]};
      forall d | d in rest ensures d in s[1..] {
        assert d in s && d != s[0];
      }
      SeqCoversSet(s[1..], rest);
    } else {
      assert keys == {};
    }
  }

  lemma {:induction false} AtLeastIndex(s: seq<int>, i: nat)
    requires forall a, b :: 0 <= a < b < |s| ==> s[a] < s[b]
    requires forall a :: 0 <= a < |s| ==> 0 <= s[a]
    requires i < |s|
    ensures s[i] >= i
    decreases i
  {
    if i > 0 {
      AtLeastIndex(s, i - 1);
    }
  }

  lemma {:induction false} AtMostIndex(s: seq<int>, i: nat)
    requires forall a, b :: 0 <= a < b < |s| ==> s[a] < s[b]
    requires forall a :: 0 <= a < |s| ==> s[a] < |s|
    requires i < |s|
    ensures s[i] <= i
    decreases |s| - i
  {
    if i < |s| - 1 {
      AtMostIndex(s, i + 1);
    }
  }

  // ---------------------------------------------------------------- restriction text

  /** `restrict_std_to_text`: an element restricted to neither platform alone is
      unrestricted. */
  function RestrictStdToText(r: Xsd.RestrictToStandard): (s: string)
    ensures s == "NotRestricted" <==> r == Xsd.NotSet || r == Xsd.Both
    ensures s == "ClassicPlatform" <==> r == Xsd.ClassicPlatform
    ensures s == "AdaptivePlatform" <==> r == Xsd.AdaptivePlatform
  {
    match r
    case NotSet => "NotRestricted"
    case Both => "NotRestricted"
    case ClassicPlatform => "ClassicPlatform"
    case AdaptivePlatform => "AdaptivePlatform"
  }
}
