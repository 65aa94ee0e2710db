/** Orderings used throughout the generator: Rust's `Ord` on strings (lexicographic,
    which for UTF-8 text coincides with code-point order on chars), the `Ordering`
    result of a comparator, sorting of a sequence or a set by a total preorder, and
    the UTF-8 byte lengths that Rust's string lengths and slice positions count. */
module Order {
  import opened Wrappers

  datatype Ordering = Less | Equal | Greater

  /** `lt` is a strict total order. */
  ghost predicate StrictTotalOrder<T(!new)>(lt: (T, T) -> bool)
  {
    && (forall x :: !lt(x, x))
    && (forall x, y, z :: lt(x, y) && lt(y, z) ==> lt(x, z))
    && (forall x, y :: x != y ==> lt(x, y) || lt(y, x))
  }

  /** `le` is total and transitive (ties between distinct values are allowed). */
  ghost predicate TotalPreorder<T(!new)>(le: (T, T) -> bool)
  {
    && (forall x, y :: le(x, y) || le(y, x))
    && (forall x, y, z :: le(x, y) && le(y, z) ==> le(x, z))
  }

  ghost predicate SortedBy<T>(s: seq<T>, le: (T, T) -> bool)
  {
    forall i, j :: 0 <= i < j < |s| ==> le(s[i], s[j])
  }

  ghost predicate Distinct<T>(s: seq<T>)
  {
    forall i, j :: 0 <= i < j < |s| ==> s[i] != s[j]
  }

  /** `b` starts with `a` (Rust's `starts_with`). */
  predicate IsPrefix<T(==)>(a: seq<T>, b: seq<T>)
  {
    |a| <= |b| && b[..|a|] == a
  }

  /** Lexicographic comparison of two sequences, element order given by `lt`. */
  predicate LexLessBy<T(==)>(a: seq<T>, b: seq<T>, lt: (T, T) -> bool)
  {
    if |a| == 0 then |b| > 0
    else |b| > 0 && (lt(a[0], b[0]) || (a[0] == b[0] && LexLessBy(a[1..], b[1..], lt)))
  }

  lemma {:induction false} LexIrreflexive<T(!new)>(a: seq<T>, lt: (T, T) -> bool)
    requires StrictTotalOrder(lt)
    ensures !LexLessBy(a, a, lt)
  {
    if |a| > 0 {
      LexIrreflexive(a[1..], lt);
    }
  }

  lemma {:induction false} LexTransitive<T(!new)>(a: seq<T>, b: seq<T>, c: seq<T>, lt: (T, T) -> bool)
    requires StrictTotalOrder(lt)
    requires LexLessBy(a, b, lt) && LexLessBy(b, c, lt)
    ensures LexLessBy(a, c, lt)
  {
    if |a| > 0 && a[0] == b[0] && b[0] == c[0] {
      LexTransitive(a[1..], b[1..], c[1..], lt);
    }
  }

  lemma {:induction false} LexTotal<T(!new)>(a: seq<T>, b: seq<T>, lt: (T, T) -> bool)
    requires StrictTotalOrder(lt)
    requires a != b
    ensures LexLessBy(a, b, lt) || LexLessBy(b, a, lt)
  {
    if |a| > 0 && |b| > 0 && a[0] == b[0] {
      assert a == [a[0]] + a[1..] && b == [b[0]] + b[1..];
      LexTotal(a[1..], b[1..], lt);
    }
  }

  predicate CharLess(x: char, y: char)
  {
    x < y
  }

  /** Rust's `String` order: byte-wise lexicographic, which for UTF-8 equals
      lexicographic order on code points. */
  predicate StrLess(a: string, b: string)
  {
    LexLessBy(a, b, CharLess)
  }

  predicate StrLe(a: string, b: string)
  {
    a == b || StrLess(a, b)
  }

  function StrCmp(a: string, b: string): (r: Ordering)
    ensures r == Equal <==> a == b
    ensures r == Less <==> StrLess(a, b)
    ensures r == Greater <==> StrLess(b, a)
  {
    StrOrderFacts();
    if a == b then Equal else if StrLess(a, b) then Less else Greater
  }

  lemma StrOrderFacts()
    ensures StrictTotalOrder(StrLess)
    ensures TotalPreorder(StrLe)
  {
    assert StrictTotalOrder(CharLess);
    forall a: string ensures !StrLess(a, a) {
      LexIrreflexive(a, CharLess);
    }
    forall a: string, b: string, c: string | StrLess(a, b) && StrLess(b, c)
      ensures StrLess(a, c)
    {
      LexTransitive(a, b, c, CharLess);
    }
    forall a: string, b: string | a != b ensures StrLess(a, b) || StrLess(b, a) {
      LexTotal(a, b, CharLess);
    }
  }

  function Insert<T>(x: T, s: seq<T>, le: (T, T) -> bool): (r: seq<T>)
    ensures multiset(r) == multiset(s) + multiset{x}
    ensures |r| == |s| + 1
  {
    if s == [] then [x]
    else if le(x, s[0]) then [x] + s
    else
      assert s == [s[0]] + s[1..];
      [s[0]] + Insert(x, s[1..], le)
  }

  lemma {:induction false} InsertSorted<T(!new)>(x: T, s: seq<T>, le: (T, T) -> bool)
    requires TotalPreorder(le)
    requires SortedBy(s, le)
    ensures SortedBy(Insert(x, s, le), le)
  {
    if s != [] && !le(x, s[0]) {
      InsertSorted(x, s[1..], le);
      var r := Insert(x, s, le);
      assert r == [s[0]] + Insert(x, s[1..], le);
      forall j | 0 < j < |r| ensures le(r[0], r[j]) {
        assert r[j] in multiset(Insert(x, s[1..], le));
        assert r[j] == x || r[j] in multiset(s[1..]);
      }
    }
  }

  /** Insertion sort: a sorted permutation of `s` (Rust's `sort`/`sort_by`). */
  function SortBy<T(!new)>(s: seq<T>, le: (T, T) -> bool): (r: seq<T>)
    requires TotalPreorder(le)
    ensures multiset(r) == multiset(s)
    ensures SortedBy(r, le)
  {
    if s == [] then []
    else
      var rest := SortBy(s[1..], le);
      InsertSorted(s[0], rest, le);
      assert s == [s[0]] + s[1..];
      Insert(s[0], rest, le)
  }

  /** Collect a set into a sequence without duplicates (Rust's `collect::<Vec<_>>()`
      on a key set; the order is the set's arbitrary iteration order). */
  method SetToSeq<T>(s: set<T>) returns (r: seq<T>)
    ensures |r| == |s|
    ensures forall x :: x in r <==> x in s
    ensures Distinct(r)
  {
    r := [];
    var rest := s;
    while rest != {}
      invariant rest !! set x | x in r
      invariant forall x :: x in s <==> x in rest || x in r
      invariant Distinct(r)
      invariant |r| + |rest| == |s|
      decreases rest
    {
      var x :| x in rest;
      r := r + [x];
      rest := rest - {x};
    }
  }

  /** The elements of a set of strings in ascending order, each once. */
  method SortedStrings(s: set<string>) returns (r: seq<string>)
    ensures forall x :: x in r <==> x in s
    ensures |r| == |s|
    ensures forall i, j :: 0 <= i < j < |r| ==> StrLess(r[i], r[j])
    ensures Distinct(r)
  {
    var items := SetToSeq(s);
    StrOrderFacts();
    r := SortBy(items, StrLe);
    assert forall x :: x in r <==> x in multiset(items);
    assert |r| == |multiset(r)| == |multiset(items)| == |items|;
    forall i, j | 0 <= i < j < |r| ensures StrLess(r[i], r[j]) {
      assert StrLe(r[i], r[j]);
      DistinctCount(items, r, i, j);
    }
  }

  /** A permutation of a duplicate-free sequence is duplicate-free. */
  lemma DistinctCount<T>(items: seq<T>, r: seq<T>, i: int, j: int)
    requires Distinct(items) && multiset(r) == multiset(items)
    requires 0 <= i < j < |r|
    ensures r[i] != r[j]
  {
    SameTwice(r, i, j);
    DistinctOnce(items, r[i]);
  }

  lemma SameTwice<T>(r: seq<T>, i: int, j: int)
    requires 0 <= i < j < |r|
    ensures r[i] == r[j] ==> multiset(r)[r[i]] >= 2
  {
    if r[i] == r[j] {
      assert r == r[..i] + [r[i]] + r[i+1..j] + [r[j]] + r[j+1..];
    }
  }

  lemma {:induction false} DistinctOnce<T>(s: seq<T>, x: T)
    requires Distinct(s)
    ensures multiset(s)[x] <= 1
  {
    if s != [] {
      assert s == [s[0]] + s[1..];
      DistinctOnce(s[1..], x);
      assert s[0] == x ==> x !in s[1..];
    }
  }

  /** The values among the first `t` entries of a sequence. */
  ghost function Visited<T>(s: seq<T>, t: nat): set<T>
    requires t <= |s|
  {
    if t == 0 then {} else Visited(s, t - 1) + {s[t - 1]}
  }

  /** The visited values are those of the prefix. */
  lemma {:induction false} VisitedFacts<T>(s: seq<T>, t: nat)
    requires t <= |s|
    ensures forall x :: x in Visited(s, t) <==> x in s[..t]
    decreases t
  {
    if t > 0 {
      VisitedFacts(s, t - 1);
      assert s[..t] == s[..t - 1] + [s[t - 1]];
    }
  }

  /** In a duplicate-free sequence the next entry has not been visited yet. */
  lemma VisitedFresh<T>(s: seq<T>, t: nat)
    requires t < |s| && Distinct(s)
    ensures s[t] !in Visited(s, t)
  {
    VisitedFacts(s, t);
    forall i | 0 <= i < t ensures s[i] != s[t] {
      assert i < t;
    }
  }

  /** The whole sequence visits all of its values. */
  lemma VisitedAll<T>(s: seq<T>)
    ensures forall x :: x in Visited(s, |s|) <==> x in s
  {
    VisitedFacts(s, |s|);
    assert s[..|s|] == s;
  }

  // ---------------------------------------------------------------- UTF-8 lengths

  /** Number of bytes `c` takes in UTF-8. */
  function Utf8Width(c: char): nat
  {
    if c as int < 0x80 then 1 else if c as int < 0x800 then 2 else if c as int < 0x10000 then 3 else 4
  }

  /** Rust `String::len`: the length in UTF-8 bytes. */
  function Utf8Len(s: string): nat
  {
    if s == [] then 0 else Utf8Width(s[0]) + Utf8Len(s[1..])
  }

  /** The number of characters that make up the first `b` bytes of `s`, when byte `b`
      is a character boundary of `s` (Rust's `is_char_boundary`); `None` when it falls
      inside a character or beyond the end, where slicing at `b` panics. */
  function CharsInBytes(s: string, b: nat): (r: Option<nat>)
    ensures r.Some? ==> r.value <= |s| && Utf8Len(s[..r.value]) == b
    ensures r.None? ==> forall k :: 0 <= k <= |s| ==> Utf8Len(s[..k]) != b
  {
    if b == 0 then Some(0)
    else if s == [] then None
    else if Utf8Width(s[0]) > b then
      assert forall k :: 0 < k <= |s| ==> Utf8Len(s[..k]) == Utf8Width(s[0]) + Utf8Len(s[1..][..k - 1]) by {
        forall k | 0 < k <= |s| ensures Utf8Len(s[..k]) == Utf8Width(s[0]) + Utf8Len(s[1..][..k - 1]) {
          assert s[..k][1..] == s[1..][..k - 1];
        }
      }
      None
    else
      var rest := CharsInBytes(s[1..], b - Utf8Width(s[0]));
      assert forall k :: 0 < k <= |s| ==> Utf8Len(s[..k]) == Utf8Width(s[0]) + Utf8Len(s[1..][..k - 1]) by {
        forall k | 0 < k <= |s| ensures Utf8Len(s[..k]) == Utf8Width(s[0]) + Utf8Len(s[1..][..k - 1]) {
          assert s[..k][1..] == s[1..][..k - 1];
        }
      }
      if rest.None? then None else Some(rest.value + 1)
  }

  /** A longer prefix takes strictly more bytes. */
  lemma {:induction false} Utf8LenPrefixMono(s: string, i: nat, j: nat)
    requires i < j <= |s|
    ensures Utf8Len(s[..i]) < Utf8Len(s[..j])
  {
    if i > 0 {
      assert s[..j][1..] == s[1..][..j - 1] && s[..i][1..] == s[1..][..i - 1];
      Utf8LenPrefixMono(s[1..], i - 1, j - 1);
    } else {
      assert s[..j][0] == s[0];
    }
  }

  /** The byte length of a concatenation is the sum of the byte lengths. */
  lemma {:induction false} Utf8LenConcat(a: string, b: string)
    ensures Utf8Len(a + b) == Utf8Len(a) + Utf8Len(b)
  {
    if a != [] {
      assert (a + b)[1..] == a[1..] + b;
      Utf8LenConcat(a[1..], b);
    } else {
      assert a + b == b;
    }
  }

  /** One more character adds its width. */
  lemma Utf8LenSnoc(s: string, n: nat)
    requires n < |s|
    ensures Utf8Len(s[..n + 1]) == Utf8Len(s[..n]) + Utf8Width(s[n])
  {
    assert s[..n + 1] == s[..n] + [s[n]];
    Utf8LenConcat(s[..n], [s[n]]);
  }

  /** Different character counts are different byte positions. */
  lemma Utf8LenPrefixInjective(s: string, i: nat, j: nat)
    requires i <= |s| && j <= |s| && Utf8Len(s[..i]) == Utf8Len(s[..j])
    ensures i == j
  {
    if i < j {
      Utf8LenPrefixMono(s, i, j);
    } else if j < i {
      Utf8LenPrefixMono(s, j, i);
    }
  }

  /** The byte position of every character position is a boundary, found at that
      character. */
  lemma BoundaryAt(s: string, k: nat)
    requires k <= |s|
    ensures CharsInBytes(s, Utf8Len(s[..k])) == Some(k)
  {
    var r := CharsInBytes(s, Utf8Len(s[..k]));
    assert r.Some?;
    Utf8LenPrefixInjective(s, r.value, k);
  }

  /** Two one-byte characters at `k` and `k + 1`: the boundary two bytes on. */
  lemma BoundaryAfterTwoBytes(s: string, k: nat)
    requires k + 2 <= |s| && Utf8Width(s[k]) == 1 && Utf8Width(s[k + 1]) == 1
    ensures CharsInBytes(s, Utf8Len(s[..k]) + 2) == Some(k + 2)
  {
    Utf8LenSnoc(s, k);
    Utf8LenSnoc(s, k + 1);
    assert Utf8Len(s[..k + 2]) == Utf8Len(s[..k]) + 2;
    BoundaryAt(s, k + 2);
  }

  /** A one-byte last character: the boundary one byte before the end. */
  lemma BoundaryBeforeLastByte(s: string)
    requires |s| > 0 && Utf8Width(s[|s| - 1]) == 1
    ensures Utf8Len(s) >= 1 && CharsInBytes(s, Utf8Len(s) - 1) == Some(|s| - 1)
  {
    assert s[..|s|] == s;
    Utf8LenSnoc(s, |s| - 1);
    assert Utf8Len(s[..|s| - 1]) == Utf8Len(s) - 1;
    BoundaryAt(s, |s| - 1);
  }

  /** The character boundary one byte after character `k` is the next character, which
      is then one byte long. */
  lemma NextByteBoundary(s: string, k: nat, i: nat)
    requires k < |s| && i <= |s| && Utf8Len(s[..i]) == Utf8Len(s[..k]) + 1
    ensures i == k + 1 && Utf8Width(s[k]) == 1
  {
    Utf8LenSnoc(s, k);
    if i <= k {
      if i < k {
        Utf8LenPrefixMono(s, i, k);
      }
    } else if i > k + 1 {
      Utf8LenPrefixMono(s, k + 1, i);
    }
  }

  /** The character boundary one byte before the end comes before the last character,
      which is then one byte long. */
  lemma LastByteBoundary(s: string, j: nat)
    requires 0 < |s| && j <= |s| && Utf8Len(s[..j]) + 1 == Utf8Len(s)
    ensures j == |s| - 1 && Utf8Width(s[|s| - 1]) == 1
  {
    assert s[..|s|] == s;
    NextByteBoundary(s, j, |s|);
  }

  /** Rust `&s[a..b]` on byte positions: the characters between the two positions when
      both are character boundaries and `a <= b`; a panic otherwise. */
  function ByteSlice(s: string, a: nat, b: nat): (r: Result<string>)
    ensures r.Ok? <==> a <= b && CharsInBytes(s, a).Some? && CharsInBytes(s, b).Some?
    ensures r.Ok? ==> CharsInBytes(s, a).value <= CharsInBytes(s, b).value
                      && r.value == s[CharsInBytes(s, a).value..CharsInBytes(s, b).value]
  {
    match CharsInBytes(s, a)
    case None => Err("byte index is not a char boundary")
    case Some(i) =>
      match CharsInBytes(s, b)
      case None => Err("byte index is not a char boundary")
      case Some(j) =>
        if a <= b then
          assert i <= j by { if j < i { Utf8LenPrefixMono(s, j, i); } }
          Ok(s[i..j])
        else Err("slice index starts after its end")
  }
}
