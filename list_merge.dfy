/** The positional list merge that src/merge.rs applies to sub-element lists,
    attribute lists and enum literal lists: every incoming item is looked up by key
    in the current list; a match is combined with it in place and moves the
    insertion cursor just behind it, an unmatched item is inserted at the cursor
    and advances it. */
module ListMerge {
  import opened Wrappers

  /** No item before index `n` has key `k`. */
  ghost predicate NoKeyBefore<T>(list: seq<T>, k: string, key: T -> string, n: nat)
    requires n <= |list|
  {
    forall j :: 0 <= j < n ==> key(list[j]) != k
  }

  /** The index of the first item whose key is `k` (the `iter().enumerate().find(..)`). */
  function FirstWithKey<T>(list: seq<T>, k: string, key: T -> string): (r: Option<nat>)
    ensures r.Some? ==> r.value < |list| && key(list[r.value]) == k && NoKeyBefore(list, k, key, r.value)
    ensures r.None? ==> NoKeyBefore(list, k, key, |list|)
  {
    if |list| == 0 then None
    else if key(list[0]) == k then Some(0)
    else match FirstWithKey(list[1..], k, key)
      case None => None
      case Some(i) => Some(i + 1)
  }

  /** Inserts `x` in front of position `pos` (`Vec::insert`). */
  function InsertAt<T>(list: seq<T>, pos: nat, x: T): (r: seq<T>)
    requires pos <= |list|
    ensures |r| == |list| + 1 && r[pos] == x
    ensures forall i :: 0 <= i < pos ==> r[i] == list[i]
    ensures forall i :: pos <= i < |list| ==> r[i + 1] == list[i]
  {
    list[..pos] + [x] + list[pos..]
  }

  /** The result of merging `incoming` into `list` with the cursor at `pos`. */
  function MergeInto<T>(list: seq<T>, pos: nat, incoming: seq<T>, key: T -> string,
                        combine: (T, T) -> Result<T>): Result<seq<T>>
    requires pos <= |list|
    decreases |incoming|
  {
    if |incoming| == 0 then Ok(list)
    else
      match FirstWithKey(list, key(incoming[0]), key)
      case Some(i) =>
        (match combine(list[i], incoming[0])
         case Ok(y) => MergeInto(list[i := y], i + 1, incoming[1..], key, combine)
         case Err(e) => Err(e))
      case None => MergeInto(InsertAt(list, pos, incoming[0]), pos + 1, incoming[1..], key, combine)
  }

  /** The merge loop: `insert_pos` starts at 0, each incoming item is searched for
      from the front of the list as it currently is. */
  method MergeList<T>(list: seq<T>, incoming: seq<T>, key: T -> string, combine: (T, T) -> Result<T>)
    returns (r: Result<seq<T>>)
    ensures r == MergeInto(list, 0, incoming, key, combine)
  {
    var items := list;
    var insertPos := 0;
    for j := 0 to |incoming|
      invariant insertPos <= |items|
      invariant MergeInto(items, insertPos, incoming[j..], key, combine) == MergeInto(list, 0, incoming, key, combine)
    {
      var x := incoming[j];
      assert incoming[j..][1..] == incoming[j + 1..];
      var findPos := 0;
      while findPos < |items| && key(items[findPos]) != key(x)
        invariant findPos <= |items|
        invariant NoKeyBefore(items, key(x), key, findPos)
      {
        findPos := findPos + 1;
      }
      if findPos < |items| {
        assert FirstWithKey(items, key(x), key) == Some(findPos);
        var c := combine(items[findPos], x);
        if c.Err? {
          return Err(c.msg);
        }
        items := items[findPos := c.value];
        insertPos := findPos + 1;
      } else {
        items := InsertAt(items, insertPos, x);
        insertPos := insertPos + 1;
      }
    }
    return Ok(items);
  }

  // ---------------------------------------------------------------- keys

  function KeySet<T>(list: seq<T>, key: T -> string): (r: set<string>)
    ensures forall i :: 0 <= i < |list| ==> key(list[i]) in r
    ensures forall k :: k in r ==> exists i :: 0 <= i < |list| && key(list[i]) == k
  {
    set i | 0 <= i < |list| :: key(list[i])
  }

  /** Combining a matched item never changes its key. */
  ghost predicate KeepsKey<T(!new)>(key: T -> string, combine: (T, T) -> Result<T>)
  {
    forall a, b :: combine(a, b).Ok? ==> key(combine(a, b).value) == key(a)
  }

  lemma KeySetInsert<T>(list: seq<T>, pos: nat, x: T, key: T -> string)
    requires pos <= |list|
    ensures KeySet(InsertAt(list, pos, x), key) == KeySet(list, key) + {key(x)}
  {
    var r := InsertAt(list, pos, x);
    forall k | k in KeySet(r, key) ensures k in KeySet(list, key) + {key(x)} {
      var i :| 0 <= i < |r| && key(r[i]) == k;
      if i < pos { assert r[i] == list[i]; } else if i > pos { assert r[i] == list[i - 1]; }
    }
  }

  lemma KeySetUpdate<T>(list: seq<T>, i: nat, y: T, key: T -> string)
    requires i < |list| && key(y) == key(list[i])
    ensures KeySet(list[i := y], key) == KeySet(list, key)
  {
    var r := list[i := y];
    forall k | k in KeySet(list, key) ensures k in KeySet(r, key) {
      var j :| 0 <= j < |list| && key(list[j]) == k;
      assert key(r[j]) == k;
    }
  }

  /** Nothing is lost and nothing foreign appears: the merged list holds exactly the
      keys of the base list and of the incoming list. */
  lemma {:induction false} MergeKeys<T(!new)>(list: seq<T>, pos: nat, incoming: seq<T>, key: T -> string,
                                        combine: (T, T) -> Result<T>)
    requires pos <= |list| && KeepsKey(key, combine)
    ensures MergeInto(list, pos, incoming, key, combine).Ok? ==>
      KeySet(MergeInto(list, pos, incoming, key, combine).value, key) == KeySet(list, key) + KeySet(incoming, key)
    decreases |incoming|
  {
    if |incoming| > 0 {
      var x := incoming[0];
      assert KeySet(incoming, key) == {key(x)} + KeySet(incoming[1..], key) by {
        forall k | k in KeySet(incoming, key) ensures k in {key(x)} + KeySet(incoming[1..], key) {
          var i :| 0 <= i < |incoming| && key(incoming[i]) == k;
          if i > 0 { assert incoming[1..][i - 1] == incoming[i]; }
        }
      }
      match FirstWithKey(list, key(x), key)
      case Some(i) =>
        if combine(list[i], x).Ok? {
          var y := combine(list[i], x).value;
          KeySetUpdate(list, i, y, key);
          MergeKeys(list[i := y], i + 1, incoming[1..], key, combine);
        }
      case None =>
        KeySetInsert(list, pos, x, key);
        MergeKeys(InsertAt(list, pos, x), pos + 1, incoming[1..], key, combine);
    }
  }

  // ---------------------------------------------------------------- order

  /** `f` places every item of `a` in `b`, in the same relative order, where it has
      grown (`grows`) into the item found there. */
  ghost predicate Embedding<T>(a: seq<T>, b: seq<T>, f: seq<nat>, grows: (T, T) -> bool)
  {
    |f| == |a|
    && (forall i :: 0 <= i < |f| ==> f[i] < |b| && grows(a[i], b[f[i]]))
    && (forall i, j :: 0 <= i < j < |f| ==> f[i] < f[j])
  }

  ghost predicate Embeds<T>(a: seq<T>, b: seq<T>, grows: (T, T) -> bool)
  {
    exists f :: Embedding(a, b, f, grows)
  }

  /** `grows` is a preorder that every successful combination respects. */
  ghost predicate GrowthOrder<T(!new)>(combine: (T, T) -> Result<T>, grows: (T, T) -> bool)
  {
    (forall a :: grows(a, a))
    && (forall a, b, c :: grows(a, b) && grows(b, c) ==> grows(a, c))
    && (forall a, b :: combine(a, b).Ok? ==> grows(a, combine(a, b).value))
  }

  lemma EmbedsRefl<T>(list: seq<T>, grows: (T, T) -> bool)
    requires forall a :: grows(a, a)
    ensures Embeds(list, list, grows)
  {
    assert Embedding(list, list, seq(|list|, j => j), grows);
  }

  lemma EmbedsInsert<T>(list: seq<T>, pos: nat, x: T, grows: (T, T) -> bool)
    requires pos <= |list| && forall a :: grows(a, a)
    ensures Embeds(list, InsertAt(list, pos, x), grows)
  {
    var f := seq(|list|, i => if i < pos then i else i + 1);
    assert Embedding(list, InsertAt(list, pos, x), f, grows);
  }

  lemma EmbedsUpdate<T>(list: seq<T>, i: nat, y: T, grows: (T, T) -> bool)
    requires i < |list| && grows(list[i], y) && forall a :: grows(a, a)
    ensures Embeds(list, list[i := y], grows)
  {
    var f := seq(|list|, j => j);
    assert Embedding(list, list[i := y], f, grows);
  }

  lemma EmbedsTrans<T>(a: seq<T>, b: seq<T>, c: seq<T>, grows: (T, T) -> bool)
    requires Embeds(a, b, grows) && Embeds(b, c, grows)
    requires forall x, y, z :: grows(x, y) && grows(y, z) ==> grows(x, z)
    ensures Embeds(a, c, grows)
  {
    var f :| Embedding(a, b, f, grows);
    var g :| Embedding(b, c, g, grows);
    var h := seq(|a|, i requires 0 <= i < |a| => g[f[i]]);
    assert Embedding(a, c, h, grows);
  }

  /** Existing items keep their relative order and are only grown in place; the
      list changes otherwise only by insertion. */
  lemma {:induction false} MergeEmbeds<T(!new)>(list: seq<T>, pos: nat, incoming: seq<T>, key: T -> string,
                                          combine: (T, T) -> Result<T>, grows: (T, T) -> bool)
    requires pos <= |list| && GrowthOrder(combine, grows)
    ensures MergeInto(list, pos, incoming, key, combine).Ok? ==>
      Embeds(list, MergeInto(list, pos, incoming, key, combine).value, grows)
    decreases |incoming|
  {
    if |incoming| == 0 {
      EmbedsRefl(list, grows);
    } else {
      var x := incoming[0];
      var out := MergeInto(list, pos, incoming, key, combine);
      match FirstWithKey(list, key(x), key)
      case Some(i) =>
        if combine(list[i], x).Ok? {
          var y := combine(list[i], x).value;
          EmbedsUpdate(list, i, y, grows);
          MergeEmbeds(list[i := y], i + 1, incoming[1..], key, combine, grows);
          assert out == MergeInto(list[i := y], i + 1, incoming[1..], key, combine);
          if out.Ok? {
            EmbedsTrans(list, list[i := y], out.value, grows);
          }
        }
      case None =>
        EmbedsInsert(list, pos, x, grows);
        MergeEmbeds(InsertAt(list, pos, x), pos + 1, incoming[1..], key, combine, grows);
        if out.Ok? {
          EmbedsTrans(list, InsertAt(list, pos, x), out.value, grows);
        }
    }
  }

  // ---------------------------------------------------------------- placement

  /** No key of `incoming` occurs in `list`, and the keys of `incoming` are distinct. */
  ghost predicate AllFresh<T>(list: seq<T>, incoming: seq<T>, key: T -> string)
  {
    (forall i, j :: 0 <= i < |incoming| && 0 <= j < |list| ==> key(incoming[i]) != key(list[j]))
    && (forall i, j :: 0 <= i < j < |incoming| ==> key(incoming[i]) != key(incoming[j]))
  }

  /** A run of unmatched items lands as one block at the cursor, in incoming order. */
  lemma {:induction false} FreshBlock<T>(list: seq<T>, pos: nat, incoming: seq<T>, key: T -> string,
                                         combine: (T, T) -> Result<T>)
    requires pos <= |list| && AllFresh(list, incoming, key)
    ensures MergeInto(list, pos, incoming, key, combine) == Ok(list[..pos] + incoming + list[pos..])
    decreases |incoming|
  {
    if |incoming| > 0 {
      var x := incoming[0];
      assert FirstWithKey(list, key(x), key).None?;
      var list' := InsertAt(list, pos, x);
      assert AllFresh(list', incoming[1..], key) by {
        forall i, j | 0 <= i < |incoming[1..]| && 0 <= j < |list'|
          ensures key(incoming[1..][i]) != key(list'[j])
        {
          assert incoming[1..][i] == incoming[i + 1];
          if j < pos {
            assert list'[j] == list[j];
          } else if j == pos {
            assert list'[j] == incoming[0];
          } else {
            assert list'[j] == list[j - 1];
          }
        }
        forall i, j | 0 <= i < j < |incoming[1..]| ensures key(incoming[1..][i]) != key(incoming[1..][j]) {
          assert incoming[1..][i] == incoming[i + 1] && incoming[1..][j] == incoming[j + 1];
        }
      }
      FreshBlock(list', pos + 1, incoming[1..], key, combine);
      assert list'[..pos + 1] == list[..pos] + [x];
      assert list'[pos + 1..] == list[pos..];
      assert list[..pos] + incoming + list[pos..] == list'[..pos + 1] + incoming[1..] + list'[pos + 1..];
    } else {
      assert list[..pos] + incoming + list[pos..] == list;
    }
  }

  /** After a matched item, the unmatched items that follow it are inserted directly
      behind the matched position, in incoming order. */
  lemma AfterMatch<T(!new)>(list: seq<T>, pos: nat, m: T, rest: seq<T>, key: T -> string,
                      combine: (T, T) -> Result<T>, i: nat)
    requires pos <= |list| && i < |list|
    requires FirstWithKey(list, key(m), key) == Some(i) && combine(list[i], m).Ok?
    requires AllFresh(list, rest, key) && KeepsKey(key, combine)
    ensures MergeInto(list, pos, [m] + rest, key, combine)
         == Ok(list[..i] + [combine(list[i], m).value] + rest + list[i + 1..])
  {
    var y := combine(list[i], m).value;
    var list' := list[i := y];
    assert ([m] + rest)[1..] == rest;
    assert AllFresh(list', rest, key) by {
      forall a, j | 0 <= a < |rest| && 0 <= j < |list'| ensures key(rest[a]) != key(list'[j]) {
        if j != i { assert list'[j] == list[j]; } else { assert key(list'[j]) == key(list[i]); }
      }
    }
    FreshBlock(list', i + 1, rest, key, combine);
    assert list'[..i + 1] == list[..i] + [y];
    assert list'[i + 1..] == list[i + 1..];
  }

  // ---------------------------------------------------------------- coverage

  /** `covers(x, y)`: `y` carries everything the incoming item `x` contributed. It
      holds for the item itself and for a combination with it, and survives growth. */
  ghost predicate CoverOrder<T(!new)>(key: T -> string, combine: (T, T) -> Result<T>, grows: (T, T) -> bool,
                                     covers: (T, T) -> bool)
  {
    (forall a :: covers(a, a))
    && (forall a, b, c :: covers(a, b) && grows(b, c) ==> covers(a, c))
    && (forall a, b :: key(a) == key(b) && combine(a, b).Ok? ==> covers(b, combine(a, b).value))
  }

  /** Every incoming item is represented in the merged list by an item that covers it. */
  lemma {:induction false} MergeCovers<T(!new)>(list: seq<T>, pos: nat, incoming: seq<T>, key: T -> string,
                                                combine: (T, T) -> Result<T>, grows: (T, T) -> bool,
                                                covers: (T, T) -> bool)
    requires pos <= |list| && GrowthOrder(combine, grows) && CoverOrder(key, combine, grows, covers)
    ensures MergeInto(list, pos, incoming, key, combine).Ok? ==>
      forall x :: x in incoming ==>
        exists y :: y in MergeInto(list, pos, incoming, key, combine).value && covers(x, y)
    decreases |incoming|
  {
    if |incoming| > 0 {
      var x := incoming[0];
      var out := MergeInto(list, pos, incoming, key, combine);
      var first := FirstWithKey(list, key(x), key);
      if first.Some? && combine(list[first.value], x).Err? {
        assert out.Err?;
      } else {
        var list': seq<T>, idx: nat, pos': nat;
        if first.Some? {
          list', idx, pos' := list[first.value := combine(list[first.value], x).value], first.value, first.value + 1;
        } else {
          list', idx, pos' := InsertAt(list, pos, x), pos, pos + 1;
        }
        assert out == MergeInto(list', pos', incoming[1..], key, combine);
        assert covers(x, list'[idx]);
        MergeCovers(list', pos', incoming[1..], key, combine, grows, covers);
        MergeEmbeds(list', pos', incoming[1..], key, combine, grows);
        if out.Ok? {
          CoversStep(list', out.value, idx, incoming, key, combine, grows, covers);
        }
      }
    }
  }

  lemma CoversStep<T(!new)>(list: seq<T>, out: seq<T>, idx: nat, incoming: seq<T>, key: T -> string,
                            combine: (T, T) -> Result<T>, grows: (T, T) -> bool, covers: (T, T) -> bool)
    requires idx < |list| && |incoming| > 0 && covers(incoming[0], list[idx])
    requires Embeds(list, out, grows) && CoverOrder(key, combine, grows, covers)
    requires forall x :: x in incoming[1..] ==> exists y :: y in out && covers(x, y)
    ensures forall x :: x in incoming ==> exists y :: y in out && covers(x, y)
  {
    var f :| Embedding(list, out, f, grows);
    assert covers(incoming[0], out[f[idx]]);
    forall z | z in incoming ensures exists y :: y in out && covers(z, y) {
      if z != incoming[0] {
        assert z in incoming[1..];
      }
    }
  }

  /** When combining never fails, neither does the merge. */
  lemma {:induction false} MergeTotal<T(!new)>(list: seq<T>, pos: nat, incoming: seq<T>, key: T -> string,
                                               combine: (T, T) -> Result<T>)
    requires pos <= |list| && forall a, b :: combine(a, b).Ok?
    ensures MergeInto(list, pos, incoming, key, combine).Ok?
    decreases |incoming|
  {
    if |incoming| > 0 {
      var x := incoming[0];
      match FirstWithKey(list, key(x), key)
      case Some(i) =>
        MergeTotal(list[i := combine(list[i], x).value], i + 1, incoming[1..], key, combine);
      case None =>
        MergeTotal(InsertAt(list, pos, x), pos + 1, incoming[1..], key, combine);
    }
  }

  // ---------------------------------------------------------------- success

  /** Items with equal keys agree on `tag`. */
  ghost predicate TagConsistent<T>(s: seq<T>, key: T -> string, tag: T -> bool)
  {
    forall i, j :: 0 <= i < |s| && 0 <= j < |s| && key(s[i]) == key(s[j]) ==> tag(s[i]) == tag(s[j])
  }

  /** Combining two items of the same key and tag succeeds and keeps both. */
  ghost predicate TagRespecting<T(!new)>(key: T -> string, combine: (T, T) -> Result<T>, tag: T -> bool)
  {
    forall a, b :: key(a) == key(b) && tag(a) == tag(b) ==>
      combine(a, b).Ok? && key(combine(a, b).value) == key(a) && tag(combine(a, b).value) == tag(a)
  }

  /** Some item of `s` has the key and the tag of `y`. */
  ghost predicate Represented<T>(s: seq<T>, y: T, key: T -> string, tag: T -> bool)
  {
    exists i :: 0 <= i < |s| && key(s[i]) == key(y) && tag(s[i]) == tag(y)
  }

  lemma TagTransfer<T>(src: seq<T>, dst: seq<T>, key: T -> string, tag: T -> bool)
    requires TagConsistent(src, key, tag)
    requires forall j :: 0 <= j < |dst| ==> Represented(src, dst[j], key, tag)
    ensures TagConsistent(dst, key, tag)
  {
    forall i, j | 0 <= i < |dst| && 0 <= j < |dst| && key(dst[i]) == key(dst[j])
      ensures tag(dst[i]) == tag(dst[j])
    {
      assert Represented(src, dst[i], key, tag) && Represented(src, dst[j], key, tag);
    }
  }

  lemma StepRepresented<T>(list: seq<T>, incoming: seq<T>, list': seq<T>, pos: nat, idx: nat,
                           key: T -> string, tag: T -> bool)
    requires |incoming| > 0 && idx < |list'| && pos <= |list|
    requires key(list'[idx]) == key(incoming[0]) || idx < |list|
    requires (|list'| == |list| && list' == list[idx := list'[idx]] && key(list'[idx]) == key(list[idx])
              && tag(list'[idx]) == tag(list[idx]))
          || (idx == pos && list' == InsertAt(list, pos, incoming[0]))
    ensures forall j :: 0 <= j < |list' + incoming[1..]| ==> Represented(list + incoming, (list' + incoming[1..])[j], key, tag)
  {
    var s := list + incoming;
    var s' := list' + incoming[1..];
    forall j | 0 <= j < |s'| ensures Represented(s, s'[j], key, tag) {
      if j >= |list'| {
        assert s'[j] == s[j - |list'| + 1 + |list|];
      } else if |list'| == |list| {
        assert s[j] == list[j];
      } else if j < pos {
        assert s'[j] == s[j];
      } else if j == pos {
        assert s'[j] == s[|list|];
      } else {
        assert s'[j] == s[j - 1];
      }
    }
  }

  /** The merge succeeds when items that share a key always share a tag and
      combining such items never fails. */
  lemma {:induction false} MergeSucceeds<T(!new)>(list: seq<T>, pos: nat, incoming: seq<T>, key: T -> string,
                                                  combine: (T, T) -> Result<T>, tag: T -> bool)
    requires pos <= |list| && TagRespecting(key, combine, tag) && TagConsistent(list + incoming, key, tag)
    ensures MergeInto(list, pos, incoming, key, combine).Ok?
    decreases |incoming|
  {
    if |incoming| > 0 {
      var x := incoming[0];
      var s := list + incoming;
      match FirstWithKey(list, key(x), key)
      case Some(i) =>
        assert s[i] == list[i] && s[|list|] == x;
        var y := combine(list[i], x).value;
        StepRepresented(list, incoming, list[i := y], pos, i, key, tag);
        TagTransfer(s, list[i := y] + incoming[1..], key, tag);
        MergeSucceeds(list[i := y], i + 1, incoming[1..], key, combine, tag);
      case None =>
        StepRepresented(list, incoming, InsertAt(list, pos, x), pos, pos, key, tag);
        TagTransfer(s, InsertAt(list, pos, x) + incoming[1..], key, tag);
        MergeSucceeds(InsertAt(list, pos, x), pos + 1, incoming[1..], key, combine, tag);
    }
  }
}
