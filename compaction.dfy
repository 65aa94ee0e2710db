/** Table compaction shared by the generator: a run of entries is looked up in a
    growing table and reused when it is already present, otherwise appended at the
    end (src/generator/subelements.rs, attributes.rs, element_types.rs). Also the
    "largest first, then by name" processing order of the generator's loops. */
module Compaction {
  import opened Wrappers
  import opened Order

  /** `items` occurs in `table` starting at `pos`. */
  predicate OccursAt<T(==)>(table: seq<T>, items: seq<T>, pos: int)
  {
    0 <= pos && pos + |items| <= |table| && table[pos..pos + |items|] == items
  }

  /** A run stays where it is when the table grows at its end. */
  lemma OccursInExtension<T>(table: seq<T>, ext: seq<T>, items: seq<T>, pos: int)
    requires OccursAt(table, items, pos)
    requires |table| <= |ext| && ext[..|table|] == table
    ensures OccursAt(ext, items, pos)
  {
    assert ext[pos..pos + |items|] == table[pos..pos + |items|];
  }

  /** `out` and `pos` are what the search-or-append step yields for `items` in `table`:
      `items` occurs in `out` at `pos`, no earlier position of `table` holds it, and
      either the table is unchanged or `items` is appended at its old end. */
  ghost predicate Compacted<T>(table: seq<T>, items: seq<T>, pos: nat, out: seq<T>)
  {
    && OccursAt(out, items, pos)
    && |table| <= |out| && out[..|table|] == table
    && (forall q :: 0 <= q < pos && q < |table| ==> !OccursAt(table, items, q))
    && (out == table || (out == table + items && pos == |table|))
  }

  /** A run that already occurs in the table is reused: the table is unchanged and
      the run is found at its first occurrence. */
  lemma CompactedReuses<T>(table: seq<T>, items: seq<T>, pos: nat, out: seq<T>, q: nat)
    requires Compacted(table, items, pos, out) && |items| > 0 && OccursAt(table, items, q)
    ensures out == table && pos <= q && OccursAt(table, items, pos)
  {
  }

  /** A run that does not occur in the table is appended at its old end. */
  lemma CompactedAppends<T>(table: seq<T>, items: seq<T>, pos: nat, out: seq<T>)
    requires Compacted(table, items, pos, out) && forall q :: !OccursAt(table, items, q)
    ensures out == table + items && pos == |table|
  {
  }

  /** The search-or-append step: the first position at which the whole of `items`
      occurs in `table`, or, when there is none, the old end of the table with
      `items` appended there. The search only considers positions holding
      `items[0]`, so callers pass a non-empty run. */
  method FindOrAppend<T(==)>(table: seq<T>, items: seq<T>) returns (pos: nat, out: seq<T>)
    requires |items| > 0
    ensures Compacted(table, items, pos, out)
  {
    var p := 0;
    while p < |table|
      invariant 0 <= p <= |table|
      invariant forall q :: 0 <= q < p ==> !OccursAt(table, items, q)
    {
      if table[p] == items[0] && p + |items| <= |table| && table[p..p + |items|] == items {
        assert OccursAt(table, items, p);
        assert table[..|table|] == table;
        return p, table;
      }
      p := p + 1;
    }
    assert forall q :: !OccursAt(table, items, q);
    pos := |table|;
    out := table + items;
    assert out[..|table|] == table;
    assert out[pos..pos + |items|] == items;
  }

  // ---------------------------------------------------------------- processing order

  /** The generator's processing order on type names: a larger count first, equal
      counts by ascending name. */
  predicate LargerFirst(c1: nat, k1: string, c2: nat, k2: string)
  {
    c1 > c2 || (c1 == c2 && StrLe(k1, k2))
  }

  /** The order compares counts in reverse and names as a tie-break. */
  function CmpLargerFirst(c1: nat, k1: string, c2: nat, k2: string): (r: Ordering)
    ensures r == Equal <==> c1 == c2 && k1 == k2
    ensures r != Greater <==> LargerFirst(c1, k1, c2, k2)
  {
    if c2 < c1 then Less
    else if c2 > c1 then Greater
    else StrCmp(k1, k2)
  }

  /** For any count, "larger first, then by name" is a total preorder on names. */
  lemma LargerFirstPreorder(count: string -> nat)
    ensures TotalPreorder((a: string, b: string) => LargerFirst(count(a), a, count(b), b))
  {
    StrOrderFacts();
  }

  /** The names of `names` sorted by `count` descending, ties by ascending name. */
  method SortLargerFirst(names: set<string>, count: string -> nat) returns (r: seq<string>)
    ensures forall x :: x in r <==> x in names
    ensures |r| == |names| && Distinct(r)
    ensures forall i, j :: 0 <= i < j < |r| ==>
              count(r[i]) > count(r[j]) || (count(r[i]) == count(r[j]) && StrLess(r[i], r[j]))
  {
    var items := SetToSeq(names);
    var le := (a: string, b: string) => LargerFirst(count(a), a, count(b), b);
    LargerFirstPreorder(count);
    r := SortBy(items, le);
    assert forall x :: x in r <==> x in multiset(items);
    assert |r| == |multiset(r)| == |multiset(items)| == |items|;
    forall i, j | 0 <= i < j < |r|
      ensures count(r[i]) > count(r[j]) || (count(r[i]) == count(r[j]) && StrLess(r[i], r[j]))
    {
      assert le(r[i], r[j]);
      DistinctCount(items, r, i, j);
    }
    forall i, j | 0 <= i < j < |r| ensures r[i] != r[j] {
      DistinctCount(items, r, i, j);
    }
  }

  // ---------------------------------------------------------------- positions

  /** `index` maps every value of `s` to its last position in `s`. */
  ghost predicate IsLastIndex<T(!new)>(index: map<T, nat>, s: seq<T>)
  {
    (forall x :: x in index <==> x in s) &&
    (forall x :: x in index ==> index[x] < |s| && s[index[x]] == x) &&
    (forall x, j :: x in index && index[x] < j < |s| ==> s[j] != x)
  }

  /** An index map collected from `enumerate()`: inserting each value with its
      position in turn, a later position overwrites an earlier one. */
  method LastIndexMap<T(!new)>(s: seq<T>) returns (index: map<T, nat>)
    ensures IsLastIndex(index, s)
  {
    index := map[];
    for pos := 0 to |s|
      invariant IsLastIndex(index, s[..pos])
    {
      assert s[..pos + 1] == s[..pos] + [s[pos]];
      index := index[s[pos] := pos];
    }
    assert s[..|s|] == s;
  }

  /** The position of `x` in `s`, the first one when `x` occurs several times
      (`iter().position(..)`); None when `x` does not occur. */
  function FirstIndex<T(==)>(s: seq<T>, x: T): (r: Option<nat>)
    ensures r.Some? <==> x in s
    ensures r.Some? ==> r.value < |s| && s[r.value] == x && x !in s[..r.value]
  {
    if s == [] then None
    else if s[0] == x then Some(0)
    else
      var t := FirstIndex(s[1..], x);
      if t.None? then None
      else
        assert s[..t.value + 1] == [s[0]] + s[1..][..t.value];
        Some(t.value + 1)
  }

  /** How many of `names` sort strictly before `x`: the index `x` has among `names`
      listed in ascending order. */
  function NameRank(names: set<string>, x: string): nat
  {
    |set y | y in names && StrLess(y, x)|
  }

  /** The first `k` entries of a duplicate-free sequence are `k` distinct values. */
  lemma {:induction false} DistinctPrefixCard(s: seq<string>, k: nat)
    requires Distinct(s) && k <= |s|
    ensures |set i | 0 <= i < k :: s[i]| == k
    decreases k
  {
    if k > 0 {
      DistinctPrefixCard(s, k - 1);
      assert (set i | 0 <= i < k :: s[i]) == (set i | 0 <= i < k - 1 :: s[i]) + {s[k - 1]};
      assert s[k - 1] !in (set i | 0 <= i < k - 1 :: s[i]);
    }
  }

  /** In the ascending listing of a set of names, each name stands at its rank. */
  lemma SortedNameRank(s: seq<string>, names: set<string>, k: nat)
    requires forall x :: x in s <==> x in names
    requires forall i, j :: 0 <= i < j < |s| ==> StrLess(s[i], s[j])
    requires k < |s|
    ensures NameRank(names, s[k]) == k
  {
    StrOrderFacts();
    forall j | k <= j < |s| ensures !StrLess(s[j], s[k]) {
      if j > k {
        assert StrLess(s[k], s[j]);
      }
    }
    var below := set y | y in names && StrLess(y, s[k]);
    assert below == set i | 0 <= i < k :: s[i];
    DistinctPrefixCard(s, k);
  }

  /** `s` lists the names of `names` in strictly ascending order. */
  ghost predicate SortedListing(s: seq<string>, names: set<string>)
  {
    (forall x :: x in s <==> x in names) &&
    (forall i, j :: 0 <= i < j < |s| ==> StrLess(s[i], s[j]))
  }

  /** A set of names has only one ascending listing. */
  lemma SortedListingUnique(a: seq<string>, b: seq<string>, names: set<string>)
    requires SortedListing(a, names) && SortedListing(b, names)
    ensures a == b
  {
    forall k | 0 <= k < |a| ensures k < |b| && b[k] == a[k] {
      SortedNameRank(a, names, k);
      assert a[k] in b;
      var j :| 0 <= j < |b| && b[j] == a[k];
      SortedNameRank(b, names, j);
    }
    forall k | 0 <= k < |b| ensures k < |a| && a[k] == b[k] {
      SortedNameRank(b, names, k);
      assert b[k] in a;
      var j :| 0 <= j < |a| && a[j] == b[k];
      SortedNameRank(a, names, j);
    }
    assert |a| <= |b| by {
      if |a| > 0 {
        var k := |a| - 1;
        assert k < |b| && b[k] == a[k];
      }
    }
    assert |b| <= |a| by {
      if |b| > 0 {
        var k := |b| - 1;
        assert k < |a| && a[k] == b[k];
      }
    }
  }
}
