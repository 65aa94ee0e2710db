/** Deduplication of structurally equal types (src/dedup.rs): equal character types,
    groups and element types are collapsed onto one canonical name, chosen as the least
    name in the order of `dedup_keycmp`, and every reference is rewritten to it. */
module Dedup {
  import opened Order
  import opened AutosarTypes

  // ---------------------------------------------------------------- key order

  /** The strict order `dedup_keycmp` induces: shorter names first, equal lengths by `Ord`. */
  predicate DedupLess(a: string, b: string)
  {
    Utf8Len(a) < Utf8Len(b) || (Utf8Len(a) == Utf8Len(b) && StrLess(a, b))
  }

  predicate DedupLe(a: string, b: string)
  {
    a == b || DedupLess(a, b)
  }

  /** `dedup_keycmp`. */
  function DedupKeyCmp(key1: string, key2: string): (r: Ordering)
    ensures r == Equal <==> key1 == key2
    ensures r == Less <==> DedupLess(key1, key2)
    ensures r == Greater <==> DedupLess(key2, key1)
    ensures Utf8Len(key1) < Utf8Len(key2) ==> r == Less
  {
    DedupOrderFacts();
    if Utf8Len(key1) < Utf8Len(key2) then Less
    else if Utf8Len(key1) > Utf8Len(key2) then Greater
    else StrCmp(key1, key2)
  }

  lemma DedupLessIrreflexive(a: string)
    ensures !DedupLess(a, a)
  {
    assert StrictTotalOrder(CharLess);
    LexIrreflexive(a, CharLess);
  }

  lemma DedupLessTransitive(a: string, b: string, c: string)
    requires DedupLess(a, b) && DedupLess(b, c)
    ensures DedupLess(a, c)
  {
    if Utf8Len(a) == Utf8Len(b) == Utf8Len(c) {
      assert StrictTotalOrder(CharLess);
      LexTransitive(a, b, c, CharLess);
    }
  }

  lemma DedupLessTotal(a: string, b: string)
    requires a != b
    ensures DedupLess(a, b) || DedupLess(b, a)
  {
    if Utf8Len(a) == Utf8Len(b) {
      assert StrictTotalOrder(CharLess);
      LexTotal(a, b, CharLess);
    }
  }

  /** `a` at or before `b` rules out `b` strictly before `a`. */
  lemma DedupLessAsymmetric(a: string, b: string)
    ensures DedupLe(a, b) ==> !DedupLess(b, a)
  {
    DedupLessIrreflexive(a);
    if DedupLess(a, b) && DedupLess(b, a) {
      DedupLessTransitive(a, b, a);
    }
  }

  /** The comparator is a strict total order, so sorting by it is well defined. */
  lemma DedupOrderFacts()
    ensures StrictTotalOrder(DedupLess)
    ensures TotalPreorder(DedupLe)
  {
    forall a | true ensures !DedupLess(a, a) {
      DedupLessIrreflexive(a);
    }
    forall a, b, c | DedupLess(a, b) && DedupLess(b, c) ensures DedupLess(a, c) {
      DedupLessTransitive(a, b, c);
    }
    forall a, b | a != b ensures DedupLess(a, b) || DedupLess(b, a) {
      DedupLessTotal(a, b);
    }
  }

  /** `names[i]` comes strictly before `names[j]` in `dedup_keycmp` order. */
  predicate SortedAt(names: seq<string>, i: int, j: int)
    requires 0 <= i < |names| && 0 <= j < |names|
  {
    DedupLess(names[i], names[j])
  }

  /** In a strictly sorted sequence, index order and `dedup_keycmp` order agree. */
  lemma SortedIndexOrder(names: seq<string>, i: int, t: int)
    requires forall p, q :: 0 <= p < q < |names| ==> SortedAt(names, p, q)
    requires 0 <= i < |names| && 0 <= t < |names|
    ensures DedupLess(names[i], names[t]) ==> i < t
    ensures names[i] == names[t] ==> i == t
  {
    if t < i {
      assert SortedAt(names, t, i);
      DedupLessAsymmetric(names[t], names[i]);
      DedupLessIrreflexive(names[i]);
    } else if t == i {
      DedupLessIrreflexive(names[t]);
    } else {
      assert SortedAt(names, i, t);
      DedupLessIrreflexive(names[t]);
    }
  }

  /** The names of `keys`, each once, sorted by `dedup_keycmp`. */
  method SortedKeys(keys: set<string>) returns (s: seq<string>)
    ensures forall x :: x in s <==> x in keys
    ensures |s| == |keys|
    ensures forall i, j :: 0 <= i < j < |s| ==> SortedAt(s, i, j)
  {
    var items := SetToSeq(keys);
    DedupOrderFacts();
    s := SortBy(items, DedupLe);
    assert forall x :: x in s <==> x in multiset(items);
    assert |s| == |multiset(s)| == |multiset(items)| == |items|;
    forall i, j | 0 <= i < j < |s| ensures SortedAt(s, i, j) {
      assert DedupLe(s[i], s[j]);
      DistinctCount(items, s, i, j);
    }
  }

  // ---------------------------------------------------------------- replacement tables

  /** `repl` maps exactly the names that have a structurally equal, earlier name (in
      `dedup_keycmp` order) to the earliest name with the same definition. */
  ghost predicate CanonicalReplacements<V>(m: map<string, V>, repl: map<string, string>)
  {
    && (forall k :: k in repl ==> k in m)
    && (forall k :: k in m ==> (k in repl <==> HasEarlierTwin(m, k)))
    && (forall k :: k in repl ==> IsCanonicalFor(m, repl[k], k))
  }

  /** Some name before `k` in `dedup_keycmp` order has the same definition. */
  ghost predicate HasEarlierTwin<V>(m: map<string, V>, k: string)
    requires k in m
  {
    exists j :: j in m && m[j] == m[k] && DedupLess(j, k)
  }

  /** `x` is the first name, in `dedup_keycmp` order, with the definition of `k`. */
  ghost predicate IsCanonicalFor<V>(m: map<string, V>, x: string, k: string)
    requires k in m
  {
    x in m && m[x] == m[k] && forall j :: j in m && m[j] == m[k] ==> DedupLe(x, j)
  }

  /** No two different names carry the same definition. */
  ghost predicate NoDuplicates<V>(m: map<string, V>)
  {
    forall a, b :: a in m && b in m && a != b ==> m[a] != m[b]
  }

  /** Every replaced name is defined, and its replacement is defined and not replaced. */
  ghost predicate SurvivingTargets<V>(m: map<string, V>, repl: map<string, string>)
  {
    forall k :: k in repl ==> k in m && repl[k] in m && repl[k] !in repl
  }

  /** A replacement target precedes its key and is never itself replaced, so one lookup
      yields a surviving name. */
  lemma CanonicalTargetsSurvive<V>(m: map<string, V>, repl: map<string, string>)
    requires CanonicalReplacements(m, repl)
    ensures SurvivingTargets(m, repl)
    ensures forall k :: k in repl ==> DedupLess(repl[k], k)
  {
    forall k | k in repl ensures repl[k] !in repl && DedupLess(repl[k], k) {
      assert HasEarlierTwin(m, k);
      var j :| j in m && m[j] == m[k] && DedupLess(j, k);
      var x := repl[k];
      assert IsCanonicalFor(m, x, k);
      if x != j {
        DedupLessTransitive(x, j, k);
      }
      forall j' | j' in m && m[j'] == m[x] ensures !DedupLess(j', x) {
        DedupLessAsymmetric(x, j');
      }
      assert !HasEarlierTwin(m, x);
    }
  }

  /** Removing the replaced names leaves no two names with equal definitions. */
  lemma CanonicalLeavesNoDuplicates<V>(m: map<string, V>, repl: map<string, string>)
    requires CanonicalReplacements(m, repl)
    ensures NoDuplicates(m - repl.Keys)
  {
    forall a, b | a in m - repl.Keys && b in m - repl.Keys && a != b ensures m[a] != m[b] {
      DedupLessTotal(a, b);
      assert m[a] == m[b] && DedupLess(a, b) ==> HasEarlierTwin(m, b);
      assert m[a] == m[b] && DedupLess(b, a) ==> HasEarlierTwin(m, a);
    }
  }

  /** A table that replaces nothing means no two names share a definition. */
  lemma EmptyTableNoDuplicates<V>(m: map<string, V>, repl: map<string, string>)
    requires CanonicalReplacements(m, repl)
    ensures repl == map[] ==> NoDuplicates(m)
  {
    if repl == map[] {
      forall a, b | a in m && b in m && a != b ensures m[a] != m[b] {
        DedupLessTotal(a, b);
        assert m[a] == m[b] && DedupLess(a, b) ==> HasEarlierTwin(m, b);
        assert m[a] == m[b] && DedupLess(b, a) ==> HasEarlierTwin(m, a);
      }
    }
  }

  /** Removing the replaced names keeps every replacement target and so never empties a map. */
  lemma RemovalKeepsTargets<V>(m: map<string, V>, repl: map<string, string>)
    requires SurvivingTargets(m, repl)
    ensures forall k :: k in repl ==> repl[k] in m - repl.Keys
    ensures |m| > 0 ==> |m - repl.Keys| > 0
    ensures repl != map[] ==> |m - repl.Keys| < |m|
  {
    var rest := m - repl.Keys;
    assert rest.Keys == m.Keys - repl.Keys;
    if |m| > 0 && repl == map[] {
      assert rest == m;
    }
    if repl != map[] {
      var k :| k in repl;
      assert repl[k] in rest;
      assert |rest.Keys| == |m.Keys| - |repl.Keys|;
    }
  }

  /** `s[t]` has an equal definition at some index below both `lo` and `t`. */
  ghost predicate Covered<V>(s: seq<string>, m: map<string, V>, lo: int, t: int)
    requires forall i :: 0 <= i < |s| ==> s[i] in m
    requires 0 <= t < |s|
  {
    exists i :: 0 <= i < lo && i < t && m[s[i]] == m[s[t]]
  }

  /** No earlier index carries the definition of `s[i]`. */
  ghost predicate IsFirst<V>(s: seq<string>, m: map<string, V>, i: int)
    requires forall k :: 0 <= k < |s| ==> s[k] in m
    requires 0 <= i < |s|
  {
    forall j :: 0 <= j < i ==> m[s[j]] != m[s[i]]
  }

  /** `find_chartype_replacements` / `find_group_replacements` / `find_elemtype_replacements`:
      sort the names, then map every later name with an equal definition onto the first
      name not yet replaced. The source subtracts one from the number of names, which
      panics on an empty map. */
  method FindReplacements<V(==)>(m: map<string, V>) returns (repl: map<string, string>)
    requires |m| > 0
    ensures CanonicalReplacements(m, repl)
  {
    var names := SortedKeys(m.Keys);
    repl := map[];
    for idx1 := 0 to |names| - 1
      invariant forall k :: k in repl ==> k in m
      invariant forall t :: 0 <= t < |names| ==> (names[t] in repl <==> Covered(names, m, idx1, t))
      invariant forall k :: k in repl ==>
                  exists i :: 0 <= i < |names| && repl[k] == names[i] && IsFirst(names, m, i) && m[names[i]] == m[k]
    {
      if names[idx1] !in repl {
        repl := MapTwinsOnto(m, names, idx1, repl);
      } else {
        forall t | idx1 < t < |names| ensures Covered(names, m, idx1 + 1, t) <==> Covered(names, m, idx1, t) {
          CoveredExtend(names, m, idx1, t);
          if m[names[idx1]] == m[names[t]] {
            CoveredTransfer(names, m, idx1, idx1, t);
          }
        }
      }
      forall t | 0 <= t <= idx1 ensures Covered(names, m, idx1 + 1, t) <==> Covered(names, m, idx1, t) {
        CoveredBelow(names, m, idx1, t);
      }
    }
    ReplacementsFromSorted(m, names, repl);
  }

  /** The inner loop of the `find_*_replacements` functions: every later name that is
      not yet replaced and has the definition of `names[idx1]` is mapped onto it. */
  method MapTwinsOnto<V(==)>(m: map<string, V>, names: seq<string>, idx1: int, repl0: map<string, string>)
    returns (repl: map<string, string>)
    requires forall x :: x in names <==> x in m
    requires forall i, j :: 0 <= i < j < |names| ==> SortedAt(names, i, j)
    requires 0 <= idx1 < |names|
    requires forall k :: k in repl0 ==> k in m
    requires forall t :: 0 <= t < |names| ==> (names[t] in repl0 <==> Covered(names, m, idx1, t))
    requires forall k :: k in repl0 ==>
               exists i :: 0 <= i < |names| && repl0[k] == names[i] && IsFirst(names, m, i) && m[names[i]] == m[k]
    requires names[idx1] !in repl0
    ensures forall k :: k in repl ==> k in m
    ensures forall t :: 0 <= t < |names| ==> (names[t] in repl <==> Covered(names, m, idx1 + 1, t))
    ensures forall k :: k in repl ==>
              exists i :: 0 <= i < |names| && repl[k] == names[i] && IsFirst(names, m, i) && m[names[i]] == m[k]
  {
    repl := repl0;
    assert IsFirst(names, m, idx1);
    for idx2 := idx1 + 1 to |names|
      invariant TwinsMapped(m, names, idx1, idx2, repl)
    {
      ghost var prev := repl;
      if names[idx2] !in repl && m[names[idx1]] == m[names[idx2]] {
        repl := repl[names[idx2] := names[idx1]];
      }
      TwinStep(m, names, idx1, idx2, prev, repl);
    }
    forall t | 0 <= t <= idx1 ensures Covered(names, m, idx1 + 1, t) <==> Covered(names, m, idx1, t) {
      CoveredBelow(names, m, idx1, t);
    }
  }

  /** The replacements of `MapTwinsOnto` once the names below `idx2` were compared with
      `names[idx1]`: those between the two are covered from `idx1 + 1` on, the rest as
      before, and every replacement is a first name with the same definition. */
  ghost predicate TwinsMapped<V>(m: map<string, V>, names: seq<string>, idx1: int, idx2: int, repl: map<string, string>)
    requires forall x :: x in names ==> x in m
    requires 0 <= idx1 < idx2 <= |names|
  {
    (forall k :: k in repl ==> k in m) &&
    (forall t :: idx1 < t < idx2 ==> (names[t] in repl <==> Covered(names, m, idx1 + 1, t))) &&
    (forall t :: 0 <= t < |names| && !(idx1 < t < idx2) ==> (names[t] in repl <==> Covered(names, m, idx1, t))) &&
    (forall k :: k in repl ==>
       exists i :: 0 <= i < |names| && repl[k] == names[i] && IsFirst(names, m, i) && m[names[i]] == m[k])
  }

  /** One comparison of `MapTwinsOnto` keeps `TwinsMapped`. */
  lemma TwinStep<V>(m: map<string, V>, names: seq<string>, idx1: int, idx2: int,
                    prev: map<string, string>, repl: map<string, string>)
    requires forall x :: x in names ==> x in m
    requires forall i, j :: 0 <= i < j < |names| ==> SortedAt(names, i, j)
    requires 0 <= idx1 < idx2 < |names| && IsFirst(names, m, idx1)
    requires TwinsMapped(m, names, idx1, idx2, prev)
    requires repl == if names[idx2] !in prev && m[names[idx1]] == m[names[idx2]]
                     then prev[names[idx2] := names[idx1]] else prev
    ensures TwinsMapped(m, names, idx1, idx2 + 1, repl)
  {
    CoveredExtend(names, m, idx1, idx2);
    forall t | 0 <= t < |names| && t != idx2
      ensures names[t] in repl <==> names[t] in prev
    {
      SortedIndexOrder(names, t, idx2);
    }
    assert names[idx2] in repl <==> Covered(names, m, idx1 + 1, idx2);
    forall k | k in repl
      ensures exists i :: 0 <= i < |names| && repl[k] == names[i] && IsFirst(names, m, i) && m[names[i]] == m[k]
    {
      if k !in prev {
        assert repl[k] == names[idx1];
      } else {
        assert repl[k] == prev[k];
      }
    }
  }

  lemma CoveredExtend<V>(names: seq<string>, m: map<string, V>, lo: int, t: int)
    requires forall i :: 0 <= i < |names| ==> names[i] in m
    requires 0 <= lo < t < |names|
    ensures Covered(names, m, lo + 1, t) <==> Covered(names, m, lo, t) || m[names[lo]] == m[names[t]]
  {
    if m[names[lo]] == m[names[t]] {
      assert Covered(names, m, lo + 1, t);
    }
  }

  lemma CoveredBelow<V>(names: seq<string>, m: map<string, V>, lo: int, t: int)
    requires forall i :: 0 <= i < |names| ==> names[i] in m
    requires 0 <= t <= lo && t < |names|
    ensures Covered(names, m, lo + 1, t) <==> Covered(names, m, lo, t)
  {
  }

  lemma CoveredTransfer<V>(names: seq<string>, m: map<string, V>, lo: int, s: int, t: int)
    requires forall i :: 0 <= i < |names| ==> names[i] in m
    requires 0 <= s <= t < |names|
    requires Covered(names, m, lo, s) && m[names[s]] == m[names[t]]
    ensures Covered(names, m, lo, t)
  {
    var i :| 0 <= i < lo && i < s && m[names[i]] == m[names[s]];
    assert i < t;
  }

  /** The index-level description of the table, restated over names. */
  lemma ReplacementsFromSorted<V>(m: map<string, V>, names: seq<string>, repl: map<string, string>)
    requires forall x :: x in names <==> x in m
    requires forall i, j :: 0 <= i < j < |names| ==> SortedAt(names, i, j)
    requires |names| > 0
    requires forall k :: k in repl ==> k in m
    requires forall t :: 0 <= t < |names| ==> (names[t] in repl <==> Covered(names, m, |names| - 1, t))
    requires forall k :: k in repl ==>
               exists i :: 0 <= i < |names| && repl[k] == names[i] && IsFirst(names, m, i) && m[names[i]] == m[k]
    ensures CanonicalReplacements(m, repl)
  {
    forall k | k in m ensures k in repl <==> HasEarlierTwin(m, k) {
      var t :| 0 <= t < |names| && names[t] == k;
      ReplacedIffTwin(m, names, repl, t);
    }
    forall k | k in repl ensures IsCanonicalFor(m, repl[k], k) {
      var i :| 0 <= i < |names| && repl[k] == names[i] && IsFirst(names, m, i) && m[names[i]] == m[k];
      FirstIsCanonical(m, names, i, k);
    }
  }

  lemma ReplacedIffTwin<V>(m: map<string, V>, names: seq<string>, repl: map<string, string>, t: int)
    requires forall x :: x in names <==> x in m
    requires forall i, j :: 0 <= i < j < |names| ==> SortedAt(names, i, j)
    requires 0 <= t < |names|
    requires names[t] in repl <==> Covered(names, m, |names| - 1, t)
    ensures names[t] in repl <==> HasEarlierTwin(m, names[t])
  {
    var k := names[t];
    if Covered(names, m, |names| - 1, t) {
      var i :| 0 <= i < |names| - 1 && i < t && m[names[i]] == m[names[t]];
      assert SortedAt(names, i, t);
      assert names[i] in m && DedupLess(names[i], k);
    }
    if HasEarlierTwin(m, k) {
      var j :| j in m && m[j] == m[k] && DedupLess(j, k);
      var i :| 0 <= i < |names| && names[i] == j;
      SortedIndexOrder(names, i, t);
      assert Covered(names, m, |names| - 1, t);
    }
  }

  lemma FirstIsCanonical<V>(m: map<string, V>, names: seq<string>, i: int, k: string)
    requires forall x :: x in names <==> x in m
    requires forall p, q :: 0 <= p < q < |names| ==> SortedAt(names, p, q)
    requires 0 <= i < |names| && k in m
    requires IsFirst(names, m, i) && m[names[i]] == m[k]
    ensures IsCanonicalFor(m, names[i], k)
  {
    forall j | j in m && m[j] == m[k] ensures DedupLe(names[i], j) {
      var p :| 0 <= p < |names| && names[p] == j;
      assert p >= i;
      if p > i {
        assert SortedAt(names, i, p);
      }
    }
  }

  /** Rust `HashMap::remove` for every key of `names`, one at a time. */
  method RemoveKeys<V>(m: map<string, V>, names: set<string>) returns (r: map<string, V>)
    ensures r == m - names
  {
    r := m;
    var rest := names;
    while rest != {}
      invariant r == m - (names - rest)
      decreases rest
    {
      var name :| name in rest;
      r := r - {name};
      rest := rest - {name};
    }
  }

  // ---------------------------------------------------------------- reference rewriting

  /** One lookup in a replacement table. */
  function Subst(name: string, repl: map<string, string>): (r: string)
    ensures name in repl ==> r == repl[name]
    ensures name !in repl ==> r == name
  {
    if name in repl then repl[name] else name
  }

  function RewriteAttributes(attrs: seq<Attribute>, repl: map<string, string>): (r: seq<Attribute>)
    ensures |r| == |attrs|
    ensures forall i :: 0 <= i < |attrs| ==> r[i] == attrs[i].(attrType := Subst(attrs[i].attrType, repl))
  {
    seq(|attrs|, i requires 0 <= i < |attrs| => attrs[i].(attrType := Subst(attrs[i].attrType, repl)))
  }

  /** The per-type step of `replace_element_chartypes`. */
  function RewriteElementChartypes(e: ElementDataType, repl: map<string, string>): ElementDataType
  {
    match e
    case Elements(g, attrs, names) => Elements(g, RewriteAttributes(attrs, repl), names)
    case Characters(attrs, b) => Characters(RewriteAttributes(attrs, repl), Subst(b, repl))
    case Mixed(g, attrs, b) => Mixed(g, RewriteAttributes(attrs, repl), Subst(b, repl))
  }

  /** The per-type step of `replace_element_grouptypes`. */
  function RewriteElementGroupRef(e: ElementDataType, groupRepl: map<string, string>): ElementDataType
  {
    match e
    case Elements(g, attrs, names) => Elements(Subst(g, groupRepl), attrs, names)
    case Characters(_, _) => e
    case Mixed(g, attrs, b) => Mixed(Subst(g, groupRepl), attrs, b)
  }

  function RewriteItem(item: ElementCollectionItem, elemRepl: map<string, string>,
                       groupRepl: map<string, string>): ElementCollectionItem
  {
    match item
    case ElementItem(e) => ElementItem(e.(typeref := Subst(e.typeref, elemRepl)))
    case GroupRef(g) => GroupRef(Subst(g, groupRepl))
  }

  /** The per-group step of `replace_groupitem_types`. */
  function RewriteGroupItems(c: ElementCollection, elemRepl: map<string, string>,
                             groupRepl: map<string, string>): ElementCollection
  {
    var items := seq(|c.subElements|, i requires 0 <= i < |c.subElements| => RewriteItem(c.subElements[i], elemRepl, groupRepl));
    c.(subElements := items)
  }

  /** After rewriting, no attribute type and no base type names a replaced character
      type; everything else in the element type is unchanged. */
  lemma ChartypeRewriteEffect(e: ElementDataType, repl: map<string, string>)
    requires forall k :: k in repl ==> repl[k] !in repl
    ensures var r := RewriteElementChartypes(e, repl);
      && (forall a :: a in r.attributes ==> a.attrType !in repl)
      && (!r.Elements? ==> r.basetype !in repl)
      && r.Elements? == e.Elements? && r.Characters? == e.Characters?
      && (!r.Characters? ==> r.groupRef == e.groupRef)
      && (r.Elements? ==> r.xsdTypenames == e.xsdTypenames)
      && |r.attributes| == |e.attributes|
      && (forall i :: 0 <= i < |e.attributes| ==> r.attributes[i].(attrType := e.attributes[i].attrType) == e.attributes[i])
  {
    var r := RewriteElementChartypes(e, repl);
    forall a | a in r.attributes ensures a.attrType !in repl {
      var i :| 0 <= i < |r.attributes| && r.attributes[i] == a;
    }
  }

  /** Rewriting group items changes only element typerefs and group names, in place. */
  lemma GroupItemRewriteEffect(c: ElementCollection, elemRepl: map<string, string>, groupRepl: map<string, string>)
    requires forall k :: k in elemRepl ==> elemRepl[k] !in elemRepl
    requires forall k :: k in groupRepl ==> groupRepl[k] !in groupRepl
    ensures var r := RewriteGroupItems(c, elemRepl, groupRepl);
      && r.Choice? == c.Choice? && r.name == c.name && (r.Choice? ==> r.amount == c.amount)
      && |r.Items()| == |c.Items()|
      && (forall i :: 0 <= i < |c.Items()| ==>
            && r.Items()[i].ElementItem? == c.Items()[i].ElementItem?
            && (c.Items()[i].ElementItem? ==>
                  r.Items()[i].element.(typeref := c.Items()[i].element.typeref) == c.Items()[i].element)
            && (r.Items()[i].ElementItem? ==> r.Items()[i].element.typeref !in elemRepl)
            && (r.Items()[i].GroupRef? ==> r.Items()[i].groupRef !in groupRepl))
  {
  }

  /** Rewriting the group reference of an element type changes nothing else. */
  lemma GroupRefRewriteEffect(e: ElementDataType, groupRepl: map<string, string>)
    requires forall k :: k in groupRepl ==> groupRepl[k] !in groupRepl
    ensures var r := RewriteElementGroupRef(e, groupRepl);
      && r.Elements? == e.Elements? && r.Characters? == e.Characters?
      && r.attributes == e.attributes
      && (!r.Elements? ==> r.basetype == e.basetype)
      && (r.Elements? ==> r.xsdTypenames == e.xsdTypenames)
      && (!r.Characters? ==> r.groupRef == Subst(e.groupRef, groupRepl) && r.groupRef !in groupRepl)
  {
  }

  /** An empty table rewrites nothing. */
  lemma EmptyGroupRefRewrite(e: ElementDataType)
    ensures RewriteElementGroupRef(e, map[]) == e
  {
  }

  lemma EmptyItemsRewrite(c: ElementCollection)
    ensures RewriteGroupItems(c, map[], map[]) == c
  {
    var r := RewriteGroupItems(c, map[], map[]);
    assert r.subElements == c.subElements;
  }

  ghost function RewrittenChartypes(elementTypes: map<string, ElementDataType>, repl: map<string, string>)
    : map<string, ElementDataType>
  {
    map n | n in elementTypes :: RewriteElementChartypes(elementTypes[n], repl)
  }

  ghost function RewrittenGroups(groupTypes: map<string, ElementCollection>, elemRepl: map<string, string>,
                                 groupRepl: map<string, string>): map<string, ElementCollection>
  {
    map n | n in groupTypes :: RewriteGroupItems(groupTypes[n], elemRepl, groupRepl)
  }

  ghost function RewrittenGroupRefs(elementTypes: map<string, ElementDataType>, groupRepl: map<string, string>)
    : map<string, ElementDataType>
  {
    map n | n in elementTypes :: RewriteElementGroupRef(elementTypes[n], groupRepl)
  }

  /** `replace_element_chartypes`: rewrite every element type in place. */
  method ReplaceElementChartypes(elementTypes: map<string, ElementDataType>, repl: map<string, string>)
    returns (r: map<string, ElementDataType>)
    ensures r == RewrittenChartypes(elementTypes, repl)
  {
    r := elementTypes;
    var rest := elementTypes.Keys;
    while rest != {}
      invariant r.Keys == elementTypes.Keys && rest <= elementTypes.Keys
      invariant forall n :: n in r && n !in rest ==> r[n] == RewriteElementChartypes(elementTypes[n], repl)
      invariant forall n :: n in rest ==> r[n] == elementTypes[n]
      decreases rest
    {
      var n :| n in rest;
      r := r[n := RewriteElementChartypes(r[n], repl)];
      rest := rest - {n};
    }
    assert r == RewrittenChartypes(elementTypes, repl);
  }

  /** `replace_groupitem_types`: rewrite the items of every group in place. */
  method ReplaceGroupitemTypes(groupTypes: map<string, ElementCollection>, elemRepl: map<string, string>,
                               groupRepl: map<string, string>)
    returns (r: map<string, ElementCollection>)
    ensures r == RewrittenGroups(groupTypes, elemRepl, groupRepl)
  {
    r := groupTypes;
    var rest := groupTypes.Keys;
    while rest != {}
      invariant r.Keys == groupTypes.Keys && rest <= groupTypes.Keys
      invariant forall n :: n in r && n !in rest ==> r[n] == RewriteGroupItems(groupTypes[n], elemRepl, groupRepl)
      invariant forall n :: n in rest ==> r[n] == groupTypes[n]
      decreases rest
    {
      var n :| n in rest;
      r := r[n := RewriteGroupItems(r[n], elemRepl, groupRepl)];
      rest := rest - {n};
    }
    assert r == RewrittenGroups(groupTypes, elemRepl, groupRepl);
  }

  /** `replace_element_grouptypes`: rewrite the group reference of every element type in place. */
  method ReplaceElementGrouptypes(elementTypes: map<string, ElementDataType>, groupRepl: map<string, string>)
    returns (r: map<string, ElementDataType>)
    ensures r == RewrittenGroupRefs(elementTypes, groupRepl)
  {
    r := elementTypes;
    var rest := elementTypes.Keys;
    while rest != {}
      invariant r.Keys == elementTypes.Keys && rest <= elementTypes.Keys
      invariant forall n :: n in r && n !in rest ==> r[n] == RewriteElementGroupRef(elementTypes[n], groupRepl)
      invariant forall n :: n in rest ==> r[n] == elementTypes[n]
      decreases rest
    {
      var n :| n in rest;
      r := r[n := RewriteElementGroupRef(r[n], groupRepl)];
      rest := rest - {n};
    }
    assert r == RewrittenGroupRefs(elementTypes, groupRepl);
  }

  // ---------------------------------------------------------------- the whole pass

  /** `find_chartype_replacements`. */
  method FindChartypeReplacements(t: AutosarDataTypes) returns (repl: map<string, string>)
    requires |t.characterTypes| > 0
    ensures CanonicalReplacements(t.characterTypes, repl)
  {
    repl := FindReplacements(t.characterTypes);
  }

  /** `find_group_replacements`. */
  method FindGroupReplacements(t: AutosarDataTypes) returns (repl: map<string, string>)
    requires |t.groupTypes| > 0
    ensures CanonicalReplacements(t.groupTypes, repl)
  {
    repl := FindReplacements(t.groupTypes);
  }

  /** `find_elemtype_replacements`. */
  method FindElemtypeReplacements(t: AutosarDataTypes) returns (repl: map<string, string>)
    requires |t.elementTypes| > 0
    ensures CanonicalReplacements(t.elementTypes, repl)
  {
    repl := FindReplacements(t.elementTypes);
  }

  /** The state after the character-type phase of `dedup_types`. */
  ghost function AfterCharPhase(t: AutosarDataTypes, charRepl: map<string, string>): AutosarDataTypes
  {
    t.(elementTypes := RewrittenChartypes(t.elementTypes, charRepl),
       characterTypes := t.characterTypes - charRepl.Keys)
  }

  /** The state after one round of the group/element loop of `dedup_types`. */
  ghost function AfterRound(t: AutosarDataTypes, groupRepl: map<string, string>, elemRepl: map<string, string>)
    : AutosarDataTypes
  {
    t.(groupTypes := RewrittenGroups(t.groupTypes, elemRepl, groupRepl) - groupRepl.Keys,
       elementTypes := RewrittenGroupRefs(t.elementTypes, groupRepl) - elemRepl.Keys)
  }

  /** The character phase keeps every reference that resolved. */
  lemma CharPhaseResolves(t: AutosarDataTypes, charRepl: map<string, string>)
    requires SurvivingTargets(t.characterTypes, charRepl)
    ensures var r := AfterCharPhase(t, charRepl);
      && (AttributeTypesResolve(t) ==> AttributeTypesResolve(r))
      && (BasetypesResolve(t) ==> BasetypesResolve(r))
      && (GroupElementsResolve(t) ==> GroupElementsResolve(r))
      && (ElementGroupsResolve(t) ==> ElementGroupsResolve(r))
      && (GroupRefsResolve(t) ==> GroupRefsResolve(r))
  {
    var r := AfterCharPhase(t, charRepl);
    if AttributeTypesResolve(t) {
      forall n, a | n in r.elementTypes && a in r.elementTypes[n].attributes ensures a.attrType in r.characterTypes {
        var e := t.elementTypes[n];
        var i :| 0 <= i < |r.elementTypes[n].attributes| && r.elementTypes[n].attributes[i] == a;
        assert e.attributes[i] in e.attributes;
      }
    }
    if BasetypesResolve(t) {
      forall n | n in r.elementTypes && r.elementTypes[n].BasetypeOf().Some?
        ensures r.elementTypes[n].basetype in r.characterTypes
      {
        assert t.elementTypes[n].BasetypeOf().Some?;
      }
    }
    if ElementGroupsResolve(t) {
      forall n | n in r.elementTypes && r.elementTypes[n].GroupRefOf().Some?
        ensures r.elementTypes[n].groupRef in r.groupTypes
      {
        assert t.elementTypes[n].GroupRefOf().Some?;
      }
    }
  }

  /** One round of the group/element loop keeps every reference that resolved. */
  lemma RoundResolves(t: AutosarDataTypes, groupRepl: map<string, string>, elemRepl: map<string, string>)
    requires SurvivingTargets(t.groupTypes, groupRepl)
    requires SurvivingTargets(t.elementTypes, elemRepl)
    ensures var r := AfterRound(t, groupRepl, elemRepl);
      && (AttributeTypesResolve(t) ==> AttributeTypesResolve(r))
      && (BasetypesResolve(t) ==> BasetypesResolve(r))
      && (GroupElementsResolve(t) ==> GroupElementsResolve(r))
      && (ElementGroupsResolve(t) ==> ElementGroupsResolve(r))
      && (GroupRefsResolve(t) ==> GroupRefsResolve(r))
      && r.characterTypes == t.characterTypes
  {
    RoundGroupItemsResolve(t, groupRepl, elemRepl);
    RoundElementTypesResolve(t, groupRepl, elemRepl);
  }

  lemma RoundGroupItemsResolve(t: AutosarDataTypes, groupRepl: map<string, string>, elemRepl: map<string, string>)
    requires SurvivingTargets(t.groupTypes, groupRepl)
    requires SurvivingTargets(t.elementTypes, elemRepl)
    ensures var r := AfterRound(t, groupRepl, elemRepl);
      && (GroupElementsResolve(t) ==> GroupElementsResolve(r))
      && (GroupRefsResolve(t) ==> GroupRefsResolve(r))
  {
    var r := AfterRound(t, groupRepl, elemRepl);
    if GroupElementsResolve(t) {
      forall g, item | g in r.groupTypes && item in r.groupTypes[g].Items() && item.ElementItem?
        ensures item.element.typeref in r.elementTypes
      {
        var orig := RewrittenItemOrigin(t.groupTypes[g], elemRepl, groupRepl, item);
      }
    }
    if GroupRefsResolve(t) {
      forall g, item | g in r.groupTypes && item in r.groupTypes[g].Items() && item.GroupRef?
        ensures item.groupRef in r.groupTypes
      {
        var orig := RewrittenItemOrigin(t.groupTypes[g], elemRepl, groupRepl, item);
      }
    }
  }

  /** Every item of a rewritten group is the rewrite of an item of the original group. */
  lemma RewrittenItemOrigin(c: ElementCollection, elemRepl: map<string, string>, groupRepl: map<string, string>,
                            item: ElementCollectionItem)
    returns (orig: ElementCollectionItem)
    requires item in RewriteGroupItems(c, elemRepl, groupRepl).Items()
    ensures orig in c.Items() && item == RewriteItem(orig, elemRepl, groupRepl)
  {
    var items := RewriteGroupItems(c, elemRepl, groupRepl).subElements;
    var i :| 0 <= i < |items| && items[i] == item;
    orig := c.subElements[i];
  }

  lemma RoundElementTypesResolve(t: AutosarDataTypes, groupRepl: map<string, string>, elemRepl: map<string, string>)
    requires SurvivingTargets(t.groupTypes, groupRepl)
    ensures var r := AfterRound(t, groupRepl, elemRepl);
      && (AttributeTypesResolve(t) ==> AttributeTypesResolve(r))
      && (BasetypesResolve(t) ==> BasetypesResolve(r))
      && (ElementGroupsResolve(t) ==> ElementGroupsResolve(r))
  {
    if ElementGroupsResolve(t) {
      RoundElementGroupsResolve(t, groupRepl, elemRepl);
    }
    RoundBasetypesResolve(t, groupRepl, elemRepl);
  }

  lemma RoundElementGroupsResolve(t: AutosarDataTypes, groupRepl: map<string, string>, elemRepl: map<string, string>)
    requires SurvivingTargets(t.groupTypes, groupRepl)
    requires ElementGroupsResolve(t)
    ensures ElementGroupsResolve(AfterRound(t, groupRepl, elemRepl))
  {
    var r := AfterRound(t, groupRepl, elemRepl);
    forall n | n in r.elementTypes && r.elementTypes[n].GroupRefOf().Some?
      ensures r.elementTypes[n].groupRef in r.groupTypes
    {
      assert t.elementTypes[n].GroupRefOf().Some?;
    }
  }

  lemma RoundBasetypesResolve(t: AutosarDataTypes, groupRepl: map<string, string>, elemRepl: map<string, string>)
    ensures var r := AfterRound(t, groupRepl, elemRepl);
      && (AttributeTypesResolve(t) ==> AttributeTypesResolve(r))
      && (BasetypesResolve(t) ==> BasetypesResolve(r))
  {
    var r := AfterRound(t, groupRepl, elemRepl);
    if BasetypesResolve(t) {
      forall n | n in r.elementTypes && r.elementTypes[n].BasetypeOf().Some?
        ensures r.elementTypes[n].basetype in r.characterTypes
      {
        assert t.elementTypes[n].BasetypeOf().Some?;
      }
    }
  }

  /** A round removes exactly the replaced names, never empties a map, and removes at
      least one name unless both tables are empty. */
  lemma RoundShrinks(t: AutosarDataTypes, groupRepl: map<string, string>, elemRepl: map<string, string>)
    requires SurvivingTargets(t.groupTypes, groupRepl)
    requires SurvivingTargets(t.elementTypes, elemRepl)
    ensures var r := AfterRound(t, groupRepl, elemRepl);
      && r.groupTypes.Keys == t.groupTypes.Keys - groupRepl.Keys
      && r.elementTypes.Keys == t.elementTypes.Keys - elemRepl.Keys
      && (|t.groupTypes| > 0 ==> |r.groupTypes| > 0)
      && (|t.elementTypes| > 0 ==> |r.elementTypes| > 0)
      && (groupRepl != map[] || elemRepl != map[] ==>
            |r.groupTypes| + |r.elementTypes| < |t.groupTypes| + |t.elementTypes|)
  {
    var groups := RewrittenGroups(t.groupTypes, elemRepl, groupRepl);
    var elems := RewrittenGroupRefs(t.elementTypes, groupRepl);
    assert groups.Keys == t.groupTypes.Keys && elems.Keys == t.elementTypes.Keys;
    RemovalKeepsTargets(groups, groupRepl);
    RemovalKeepsTargets(elems, elemRepl);
  }

  /** A round that finds nothing to replace leaves the model unchanged. */
  lemma QuietRoundIsIdentity(t: AutosarDataTypes)
    ensures AfterRound(t, map[], map[]) == t
  {
    var r := AfterRound(t, map[], map[]);
    forall n | n in t.groupTypes ensures r.groupTypes[n] == t.groupTypes[n] {
      EmptyItemsRewrite(t.groupTypes[n]);
    }
    forall n | n in t.elementTypes ensures r.elementTypes[n] == t.elementTypes[n] {
      EmptyGroupRefRewrite(t.elementTypes[n]);
    }
  }

  /** `s2` is `s` after one round whose replacement tables are the canonical ones of
      `s`: only groups (element types) with an equal, earlier twin in `s` are merged. */
  ghost predicate CanonicalRound(s: AutosarDataTypes, s2: AutosarDataTypes)
  {
    exists groupRepl, elemRepl ::
      && CanonicalReplacements(s.groupTypes, groupRepl)
      && CanonicalReplacements(s.elementTypes, elemRepl)
      && s2 == AfterRound(s, groupRepl, elemRepl)
  }

  /** A round through the canonical tables of its input is a canonical round. */
  lemma RoundIsCanonical(s: AutosarDataTypes, groupRepl: map<string, string>, elemRepl: map<string, string>)
    requires CanonicalReplacements(s.groupTypes, groupRepl)
    requires CanonicalReplacements(s.elementTypes, elemRepl)
    ensures CanonicalRound(s, AfterRound(s, groupRepl, elemRepl))
  {
  }

  /** `trace` starts at the state after the character phase of `t` and each state is
      a canonical round of the one before. */
  ghost predicate Traced(t: AutosarDataTypes, charRepl: map<string, string>, trace: seq<AutosarDataTypes>)
  {
    && |trace| > 0
    && trace[0] == AfterCharPhase(t, charRepl)
    && forall i :: 0 <= i < |trace| - 1 ==> CanonicalRound(trace[i], trace[i + 1])
  }

  /** A trace grows by a canonical round of its last state. */
  lemma TraceExtend(t: AutosarDataTypes, charRepl: map<string, string>, trace: seq<AutosarDataTypes>,
                    next: AutosarDataTypes)
    requires Traced(t, charRepl, trace) && CanonicalRound(trace[|trace| - 1], next)
    ensures Traced(t, charRepl, trace + [next])
  {
    var trace' := trace + [next];
    forall i | 0 <= i < |trace'| - 1 ensures CanonicalRound(trace'[i], trace'[i + 1]) {
      if i < |trace| - 1 {
        assert trace'[i] == trace[i] && trace'[i + 1] == trace[i + 1];
      }
    }
  }

  /** The character phase keeps exactly the character types without an earlier twin,
      with their definitions. */
  lemma CharPhaseKept(m: map<string, CharacterDataType>, charRepl: map<string, string>,
                      kept: map<string, CharacterDataType>)
    requires CanonicalReplacements(m, charRepl) && kept == m - charRepl.Keys
    ensures forall c :: c in kept ==> c in m && kept[c] == m[c]
    ensures forall k :: k in m ==> (k in kept <==> !HasEarlierTwin(m, k))
  {
    forall k | k in m ensures k in kept <==> !HasEarlierTwin(m, k) {
      assert k in kept <==> k !in charRepl;
    }
  }

  /** Every character type removed by the character phase has a kept twin. */
  lemma CharPhaseTwinKept(m: map<string, CharacterDataType>, charRepl: map<string, string>,
                          kept: map<string, CharacterDataType>)
    requires CanonicalReplacements(m, charRepl) && kept == m - charRepl.Keys
    ensures forall k :: k in m ==> exists c :: c in kept && kept[c] == m[k]
  {
    CanonicalTargetsSurvive(m, charRepl);
    forall k | k in m ensures exists c :: c in kept && kept[c] == m[k] {
      if k in charRepl {
        var c := charRepl[k];
        assert IsCanonicalFor(m, c, k);
        assert c in kept && kept[c] == m[k];
      } else {
        assert k in kept && kept[k] == m[k];
      }
    }
  }

  /** The character-type phase of `dedup_types`: find the table, rewrite the element
      types through it, remove the replaced names. */
  method DedupCharacterTypes(t: AutosarDataTypes) returns (r: AutosarDataTypes, charRepl: map<string, string>)
    requires |t.characterTypes| > 0
    ensures CanonicalReplacements(t.characterTypes, charRepl)
    ensures SurvivingTargets(t.characterTypes, charRepl)
    ensures NoDuplicates(r.characterTypes)
    ensures r == AfterCharPhase(t, charRepl)
  {
    charRepl := FindChartypeReplacements(t);
    CanonicalTargetsSurvive(t.characterTypes, charRepl);
    CanonicalLeavesNoDuplicates(t.characterTypes, charRepl);
    var elementTypes := ReplaceElementChartypes(t.elementTypes, charRepl);
    var characterTypes := RemoveKeys(t.characterTypes, charRepl.Keys);
    r := t.(elementTypes := elementTypes, characterTypes := characterTypes);
  }

  /** One round of the group/element loop of `dedup_types`. */
  method DedupRound(t: AutosarDataTypes) returns (r: AutosarDataTypes, groupRepl: map<string, string>,
                                                  elemRepl: map<string, string>)
    requires |t.groupTypes| > 0 && |t.elementTypes| > 0
    ensures CanonicalReplacements(t.groupTypes, groupRepl) && CanonicalReplacements(t.elementTypes, elemRepl)
    ensures SurvivingTargets(t.groupTypes, groupRepl) && SurvivingTargets(t.elementTypes, elemRepl)
    ensures groupRepl == map[] ==> NoDuplicates(t.groupTypes)
    ensures elemRepl == map[] ==> NoDuplicates(t.elementTypes)
    ensures r == AfterRound(t, groupRepl, elemRepl)
    ensures groupRepl == map[] && elemRepl == map[] ==>
              r == t && NoDuplicates(r.groupTypes) && NoDuplicates(r.elementTypes)
  {
    groupRepl := FindGroupReplacements(t);
    elemRepl := FindElemtypeReplacements(t);
    CanonicalTargetsSurvive(t.groupTypes, groupRepl);
    CanonicalTargetsSurvive(t.elementTypes, elemRepl);
    EmptyTableNoDuplicates(t.groupTypes, groupRepl);
    EmptyTableNoDuplicates(t.elementTypes, elemRepl);
    var groupTypes := ReplaceGroupitemTypes(t.groupTypes, elemRepl, groupRepl);
    var elementTypes := ReplaceElementGrouptypes(t.elementTypes, groupRepl);
    groupTypes := RemoveKeys(groupTypes, groupRepl.Keys);
    elementTypes := RemoveKeys(elementTypes, elemRepl.Keys);
    r := t.(groupTypes := groupTypes, elementTypes := elementTypes);
    if groupRepl == map[] && elemRepl == map[] {
      QuietRoundIsIdentity(t);
    }
  }

  /** References that resolved in `t` still resolve in `r`. */
  ghost predicate ResolvesKept(t: AutosarDataTypes, r: AutosarDataTypes)
  {
    && (AttributeTypesResolve(t) ==> AttributeTypesResolve(r))
    && (BasetypesResolve(t) ==> BasetypesResolve(r))
    && (GroupElementsResolve(t) ==> GroupElementsResolve(r))
    && (ElementGroupsResolve(t) ==> ElementGroupsResolve(r))
    && (GroupRefsResolve(t) ==> GroupRefsResolve(r))
  }

  /** The state of the group/element loop of `dedup_types`: the character phase used
      the canonical table `charRepl`, `trace` records the rounds so far and ends at `r`,
      the tables only lost names and stay non-empty, and references still resolve. */
  ghost predicate DedupLoopState(t: AutosarDataTypes, charRepl: map<string, string>,
                                 trace: seq<AutosarDataTypes>, r: AutosarDataTypes)
  {
    && CanonicalReplacements(t.characterTypes, charRepl)
    && r.characterTypes == t.characterTypes - charRepl.Keys
    && r.groupTypes.Keys <= t.groupTypes.Keys && r.elementTypes.Keys <= t.elementTypes.Keys
    && |r.groupTypes| > 0 && |r.elementTypes| > 0
    && Traced(t, charRepl, trace) && trace[|trace| - 1] == r
    && ResolvesKept(t, r)
  }

  /** The loop starts from the state after the character phase. */
  lemma DedupLoopStart(t: AutosarDataTypes, charRepl: map<string, string>)
    requires |t.groupTypes| > 0 && |t.elementTypes| > 0
    requires CanonicalReplacements(t.characterTypes, charRepl)
    ensures DedupLoopState(t, charRepl, [AfterCharPhase(t, charRepl)], AfterCharPhase(t, charRepl))
  {
    var r := AfterCharPhase(t, charRepl);
    CanonicalTargetsSurvive(t.characterTypes, charRepl);
    CharPhaseResolves(t, charRepl);
    assert r.elementTypes.Keys == t.elementTypes.Keys;
    assert |r.elementTypes.Keys| == |t.elementTypes.Keys|;
  }

  /** One round through the canonical tables of the current state keeps the loop state,
      and shrinks the tables unless it replaced nothing. */
  lemma DedupLoopStep(t: AutosarDataTypes, charRepl: map<string, string>, trace: seq<AutosarDataTypes>,
                      prev: AutosarDataTypes, groupRepl: map<string, string>, elemRepl: map<string, string>)
    requires DedupLoopState(t, charRepl, trace, prev)
    requires CanonicalReplacements(prev.groupTypes, groupRepl)
    requires CanonicalReplacements(prev.elementTypes, elemRepl)
    ensures var r := AfterRound(prev, groupRepl, elemRepl);
      && DedupLoopState(t, charRepl, trace + [r], r)
      && (groupRepl != map[] || elemRepl != map[] ==>
            |r.groupTypes| + |r.elementTypes| < |prev.groupTypes| + |prev.elementTypes|)
  {
    CanonicalTargetsSurvive(prev.groupTypes, groupRepl);
    CanonicalTargetsSurvive(prev.elementTypes, elemRepl);
    RoundResolves(prev, groupRepl, elemRepl);
    RoundShrinks(prev, groupRepl, elemRepl);
    RoundIsCanonical(prev, groupRepl, elemRepl);
    TraceExtend(t, charRepl, trace, AfterRound(prev, groupRepl, elemRepl));
  }

  /** The character types left by the character phase are those without an earlier
      twin, with their definitions; every removed one has a kept twin, and no two kept
      ones are equal. */
  lemma CharPhaseFinal(m: map<string, CharacterDataType>, charRepl: map<string, string>,
                       kept: map<string, CharacterDataType>)
    requires |m| > 0 && CanonicalReplacements(m, charRepl) && kept == m - charRepl.Keys
    ensures forall c :: c in kept ==> c in m && kept[c] == m[c]
    ensures forall k :: k in m ==> (k in kept <==> !HasEarlierTwin(m, k))
    ensures forall k :: k in m ==> exists c :: c in kept && kept[c] == m[k]
    ensures |kept| > 0 && NoDuplicates(kept)
  {
    CanonicalTargetsSurvive(m, charRepl);
    RemovalKeepsTargets(m, charRepl);
    CanonicalLeavesNoDuplicates(m, charRepl);
    CharPhaseKept(m, charRepl, kept);
    CharPhaseTwinKept(m, charRepl, kept);
  }

  /** `dedup_types`: collapse equal character types once, then equal groups and element
      types until a round finds nothing to replace. The source requires every map to be
      non-empty (see `FindReplacements`). `charRepl` is the character phase's table and
      `trace` the states after it and after each round. */
  method DedupTypes(t: AutosarDataTypes)
    returns (r: AutosarDataTypes, ghost charRepl: map<string, string>, ghost trace: seq<AutosarDataTypes>)
    requires |t.characterTypes| > 0 && |t.groupTypes| > 0 && |t.elementTypes| > 0
    ensures forall c :: c in r.characterTypes ==> c in t.characterTypes && r.characterTypes[c] == t.characterTypes[c]
    ensures forall k :: k in t.characterTypes ==> (k in r.characterTypes <==> !HasEarlierTwin(t.characterTypes, k))
    ensures forall k :: k in t.characterTypes ==>
              exists c :: c in r.characterTypes && r.characterTypes[c] == t.characterTypes[k]
    ensures CanonicalReplacements(t.characterTypes, charRepl)
    ensures Traced(t, charRepl, trace) && trace[|trace| - 1] == r
    ensures r.characterTypes.Keys <= t.characterTypes.Keys
    ensures r.groupTypes.Keys <= t.groupTypes.Keys && r.elementTypes.Keys <= t.elementTypes.Keys
    ensures |r.characterTypes| > 0 && |r.groupTypes| > 0 && |r.elementTypes| > 0
    ensures NoDuplicates(r.characterTypes) && NoDuplicates(r.groupTypes) && NoDuplicates(r.elementTypes)
    ensures ResolvesKept(t, r)
  {
    r, charRepl := DedupCharacterTypes(t);
    DedupLoopStart(t, charRepl);
    trace := [r];
    while true
      invariant DedupLoopState(t, charRepl, trace, r)
      decreases |r.groupTypes| + |r.elementTypes|
    {
      ghost var prev := r;
      var groupRepl, elemRepl;
      r, groupRepl, elemRepl := DedupRound(r);
      DedupLoopStep(t, charRepl, trace, prev, groupRepl, elemRepl);
      trace := trace + [r];
      if groupRepl == map[] && elemRepl == map[] {
        break;
      }
    }
    assert NoDuplicates(r.groupTypes) && NoDuplicates(r.elementTypes);
    CharPhaseFinal(t.characterTypes, charRepl, r.characterTypes);
  }
}
