/** The perfect hash used by the generated lookup code (src/generator/perfect_hash.rs):
    a wrapping polynomial string hash, the two-table construction that makes
    `(table1[h1(k)] + table2[h2(k)]) mod n` equal to the rank of `k` among the sorted
    keys, and the search for hash parameters. Keys are the bytes of the identifiers. */
module PerfectHash {
  import opened Wrappers
  import Order

  type Byte = b: int | 0 <= b < 256
  type Key = seq<Byte>

  /** Arithmetic on `usize` wraps modulo 2^64. */
  const WordModulus: nat := 0x1_0000_0000_0000_0000
  /** `u16::MAX`, the marker of a table slot that has not been assigned. */
  const Unassigned: nat := 0xFFFF
  /** The seed of the hash fold. */
  const HashSeed: nat := 100

  // ---------------------------------------------------------------- the hash function

  /** The fold of `hashfunc` from the accumulator `acc`: each byte turns `acc` into
      `acc * param + byte`, wrapping at 2^64. */
  function HashFrom(acc: nat, data: Key, param: nat): (r: nat)
    requires acc < WordModulus
    ensures r < WordModulus
    ensures |data| == 0 ==> r == acc
    decreases |data|
  {
    if |data| == 0 then acc else HashFrom((acc * param + data[0]) % WordModulus, data[1..], param)
  }

  /** `hashfunc`: the fold started from 100. */
  function Hash(data: Key, param: nat): (r: nat)
    ensures r < WordModulus
  {
    HashFrom(HashSeed, data, param)
  }

  /** Folding a concatenation folds the second part from the hash of the first. */
  lemma {:induction false} HashFromConcat(acc: nat, a: Key, b: Key, param: nat)
    requires acc < WordModulus
    ensures HashFrom(acc, a + b, param) == HashFrom(HashFrom(acc, a, param), b, param)
    decreases |a|
  {
    if |a| > 0 {
      assert (a + b)[0] == a[0] && (a + b)[1..] == a[1..] + b;
      HashFromConcat((acc * param + a[0]) % WordModulus, a[1..], b, param);
    } else {
      assert a + b == b;
    }
  }

  /** The hash is the left fold: one more byte multiplies by the parameter and adds it. */
  lemma HashSnoc(data: Key, b: Byte, param: nat)
    ensures Hash(data + [b], param) == (Hash(data, param) * param + b) % WordModulus
  {
    HashFromConcat(HashSeed, data, [b], param);
    assert [b][1..] == [];
  }

  /** The bucket of a key in a table of `hashlen` slots. */
  function Slot(k: Key, param: nat, hashlen: nat): (r: nat)
    requires hashlen > 0
    ensures r < hashlen
  {
    Hash(k, param) % hashlen
  }

  // ---------------------------------------------------------------- target ids

  predicate ByteLess(x: Byte, y: Byte)
  {
    x < y
  }

  /** The order of `&str` values: byte-wise lexicographic. */
  predicate KeyLe(a: Key, b: Key)
  {
    a == b || Order.LexLessBy(a, b, ByteLess)
  }

  lemma KeyOrderFacts()
    ensures Order.TotalPreorder(KeyLe)
  {
    assert Order.StrictTotalOrder(ByteLess);
    forall a: Key, b: Key ensures KeyLe(a, b) || KeyLe(b, a) {
      if a != b {
        Order.LexTotal(a, b, ByteLess);
      }
    }
    forall a: Key, b: Key, c: Key | KeyLe(a, b) && KeyLe(b, c) ensures KeyLe(a, c) {
      if a != b && b != c {
        Order.LexTransitive(a, b, c, ByteLess);
      }
    }
  }

  /** The keys in ascending order (`sorted_input`). */
  function SortedKeys(keys: seq<Key>): (r: seq<Key>)
    ensures multiset(r) == multiset(keys) && |r| == |keys|
    ensures Order.SortedBy(r, KeyLe)
  {
    KeyOrderFacts();
    var r := Order.SortBy(keys, KeyLe);
    assert |r| == |multiset(r)| == |multiset(keys)| == |keys|;
    r
  }

  /** `target_ids`: each key mapped to its index in `sorted` (the last one, should a key
      occur twice). */
  function TargetIds(sorted: seq<Key>): (r: map<Key, nat>)
    ensures forall k :: k in r <==> k in sorted
    ensures forall k :: k in r ==> r[k] < |sorted| && sorted[r[k]] == k
  {
    if |sorted| == 0 then map[]
    else TargetIds(sorted[..|sorted| - 1])[sorted[|sorted| - 1] := |sorted| - 1]
  }

  /** The id a key must hash to: its position among the sorted keys. */
  function Rank(keys: seq<Key>, k: Key): (r: nat)
    requires k in keys
    ensures r < |keys| && SortedKeys(keys)[r] == k
  {
    assert k in multiset(SortedKeys(keys));
    TargetIds(SortedKeys(keys))[k]
  }

  /** For distinct keys the ranks are a bijection onto `[0, n)`: different keys get
      different ranks, and the key at each position of the sorted order has that
      position as its rank. */
  lemma RankBijection(keys: seq<Key>)
    requires Order.Distinct(keys)
    ensures forall i, j :: 0 <= i < j < |keys| ==> Rank(keys, keys[i]) != Rank(keys, keys[j])
    ensures forall id :: 0 <= id < |keys| ==>
      SortedKeys(keys)[id] in keys && Rank(keys, SortedKeys(keys)[id]) == id
  {
    var sorted := SortedKeys(keys);
    forall id | 0 <= id < |keys| ensures sorted[id] in keys && Rank(keys, sorted[id]) == id {
      assert sorted[id] in multiset(keys);
      var r := Rank(keys, sorted[id]);
      if r < id {
        Order.DistinctCount(keys, sorted, r, id);
      } else if id < r {
        Order.DistinctCount(keys, sorted, id, r);
      }
    }
  }

  // ---------------------------------------------------------------- the construction

  /** The distinct keys. */
  function KeySet(keys: seq<Key>): (r: set<Key>)
    ensures forall k :: k in r <==> k in keys
  {
    set k | k in keys
  }

  /** Two different keys share both buckets. */
  ghost predicate Collides(keys: seq<Key>, param1: nat, param2: nat, hashlen: nat)
    requires hashlen > 0
  {
    exists a, b :: 0 <= a < b < |keys| && keys[a] != keys[b]
      && Slot(keys[a], param1, hashlen) == Slot(keys[b], param1, hashlen)
      && Slot(keys[a], param2, hashlen) == Slot(keys[b], param2, hashlen)
  }

  /** A bucket holds exactly the given keys that hash to it. */
  ghost predicate Buckets(buckets: seq<set<Key>>, members: set<Key>, param: nat, hashlen: nat)
    requires hashlen > 0
  {
    |buckets| == hashlen
    && forall h, k :: 0 <= h < hashlen ==> (k in buckets[h] <==> k in members && Slot(k, param, hashlen) == h)
  }

  /** Every slot is unassigned or holds an id below `n`. */
  ghost predicate SlotsInRange(t: seq<int>, n: nat)
  {
    forall h :: 0 <= h < |t| ==> t[h] == Unassigned || 0 <= t[h] < n
  }

  /** The tables solve the keys: the two slots of every key add up to its rank modulo
      the number of keys. */
  ghost predicate Solves(keys: seq<Key>, param1: nat, param2: nat, hashlen: nat, t1: seq<int>, t2: seq<int>)
    requires hashlen > 0 && |t1| == hashlen && |t2| == hashlen
  {
    forall i :: 0 <= i < |keys| ==>
      SumsTo(t1[Slot(keys[i], param1, hashlen)], t2[Slot(keys[i], param2, hashlen)], |keys|, Rank(keys, keys[i]))
  }

  /** Some pair of tables of `hashlen` slots, each slot unassigned or a key id, solves
      the keys under the two parameters. */
  ghost predicate Solvable(keys: seq<Key>, param1: nat, param2: nat, hashlen: nat)
  {
    hashlen > 0 &&
    exists t1: seq<int>, t2: seq<int> :: |t1| == hashlen && |t2| == hashlen
      && SlotsInRange(t1, |keys|) && SlotsInRange(t2, |keys|) && Solves(keys, param1, param2, hashlen, t1, t2)
  }

  // ---------------------------------------------------------------- the key graph

  /** The slots that a set of keys occupies in one table. */
  ghost function SlotsOf(s: set<Key>, param: nat, hashlen: nat): set<nat>
    requires hashlen > 0
  {
    set k | k in s :: Slot(k, param, hashlen)
  }

  /** A non-empty set of keys that occupies no more slots, over both tables, than it
      has keys. */
  ghost predicate Crowded(s: set<Key>, param1: nat, param2: nat, hashlen: nat)
    requires hashlen > 0
  {
    s != {} && |SlotsOf(s, param1, hashlen)| + |SlotsOf(s, param2, hashlen)| <= |s|
  }

  /** The key graph has a cycle. Its nodes are the slots of the two tables and each
      distinct key is an edge joining its two slots. The edges of a forest always span
      more nodes than there are edges, and the edges of a cycle span exactly as many, so
      the graph has a cycle exactly when some non-empty set of keys is crowded. Two keys
      sharing both slots are a cycle of two edges (`CollisionIsCycle`), and every closed
      chain of keys is one (`ChainIsCycle`). */
  ghost predicate HasCycle(keys: seq<Key>, param1: nat, param2: nat, hashlen: nat)
    requires hashlen > 0
  {
    exists s {:trigger Crowded(s, param1, param2, hashlen)} :: s <= KeySet(keys) && Crowded(s, param1, param2, hashlen)
  }

  /** No subset of `s` is crowded: the keys of `s` form a forest. */
  ghost predicate Spread(s: set<Key>, param1: nat, param2: nat, hashlen: nat)
    requires hashlen > 0
  {
    forall t {:trigger Crowded(t, param1, param2, hashlen)} :: t <= s ==> !Crowded(t, param1, param2, hashlen)
  }

  /** A closed chain of distinct keys `c[0], c[1], …, c[2m-1]`: `c[2j]` and `c[2j+1]`
      share their first-table slot, `c[2j-1]` and `c[2j]` their second-table slot, and
      the last key shares its second-table slot with the first. */
  ghost predicate ClosedChain(keys: seq<Key>, param1: nat, param2: nat, hashlen: nat, c: seq<Key>)
    requires hashlen > 0
  {
    |c| >= 2 && |c| % 2 == 0 && Order.Distinct(c)
    && (forall i :: 0 <= i < |c| ==> c[i] in keys)
    && (forall j :: 0 <= j < |c| / 2 ==> Slot(c[2 * j], param1, hashlen) == Slot(c[2 * j + 1], param1, hashlen))
    && (forall j :: 0 < j < |c| / 2 ==> Slot(c[2 * j - 1], param2, hashlen) == Slot(c[2 * j], param2, hashlen))
    && Slot(c[|c| - 1], param2, hashlen) == Slot(c[0], param2, hashlen)
  }

  lemma SlotsOfAdd(s: set<Key>, k: Key, param: nat, hashlen: nat)
    requires hashlen > 0
    ensures SlotsOf(s + {k}, param, hashlen) == SlotsOf(s, param, hashlen) + {Slot(k, param, hashlen)}
  {
  }

  lemma SlotsOfMono(s: set<Key>, t: set<Key>, param: nat, hashlen: nat)
    requires hashlen > 0 && s <= t
    ensures SlotsOf(s, param, hashlen) <= SlotsOf(t, param, hashlen)
  {
  }

  lemma SubsetCard<T>(a: set<T>, b: set<T>)
    requires a <= b
    ensures |a| <= |b|
  {
    assert b == a + (b - a);
  }

  lemma CardAddOne<T>(a: set<T>, x: T)
    ensures |a + {x}| == if x in a then |a| else |a| + 1
  {
    if x in a {
      assert a + {x} == a;
    }
  }

  /** Two different keys sharing both slots are a cycle. */
  lemma CollisionIsCycle(keys: seq<Key>, param1: nat, param2: nat, hashlen: nat)
    requires hashlen > 0 && Collides(keys, param1, param2, hashlen)
    ensures HasCycle(keys, param1, param2, hashlen)
  {
    var a, b :| 0 <= a < b < |keys| && keys[a] != keys[b]
      && Slot(keys[a], param1, hashlen) == Slot(keys[b], param1, hashlen)
      && Slot(keys[a], param2, hashlen) == Slot(keys[b], param2, hashlen);
    var x, y := keys[a], keys[b];
    var s := {x} + {y};
    SlotsOfAdd({}, x, param1, hashlen);
    SlotsOfAdd({}, x, param2, hashlen);
    SlotsOfAdd({x}, y, param1, hashlen);
    SlotsOfAdd({x}, y, param2, hashlen);
    assert SlotsOf(s, param1, hashlen) == {Slot(x, param1, hashlen)};
    assert SlotsOf(s, param2, hashlen) == {Slot(x, param2, hashlen)};
    CardAddOne({x}, y);
    assert s <= KeySet(keys);
    assert Crowded(s, param1, param2, hashlen);
  }

  /** The slots of the keys at even positions `0, 2, …, 2(n-1)` of a chain. */
  ghost function EvenSlots(c: seq<Key>, param: nat, hashlen: nat, n: nat): (r: set<nat>)
    requires hashlen > 0 && 2 * n <= |c|
    ensures |r| <= n
    ensures forall i :: 0 <= i < n ==> Slot(c[2 * i], param, hashlen) in r
  {
    if n == 0 then {} else EvenSlots(c, param, hashlen, n - 1) + {Slot(c[2 * (n - 1)], param, hashlen)}
  }

  /** The slots of the keys at odd positions `1, 3, …, 2n-1` of a chain. */
  ghost function OddSlots(c: seq<Key>, param: nat, hashlen: nat, n: nat): (r: set<nat>)
    requires hashlen > 0 && 2 * n <= |c|
    ensures |r| <= n
    ensures forall i :: 0 <= i < n ==> Slot(c[2 * i + 1], param, hashlen) in r
  {
    if n == 0 then {} else OddSlots(c, param, hashlen, n - 1) + {Slot(c[2 * (n - 1) + 1], param, hashlen)}
  }

  /** The values of a duplicate-free sequence are as many as its entries. */
  lemma {:induction false} DistinctCard(c: seq<Key>, t: nat)
    requires t <= |c| && Order.Distinct(c)
    ensures |Order.Visited(c, t)| == t
    decreases t
  {
    if t > 0 {
      DistinctCard(c, t - 1);
      Order.VisitedFresh(c, t - 1);
    }
  }

  /** The first-table slot of each key of a closed chain is that of an even position:
      its own or the one before it. */
  lemma ChainSlot1(c: seq<Key>, param1: nat, hashlen: nat, m: nat)
    requires hashlen > 0 && |c| % 2 == 0 && m < |c|
    requires forall j :: 0 <= j < |c| / 2 ==> Slot(c[2 * j], param1, hashlen) == Slot(c[2 * j + 1], param1, hashlen)
    ensures Slot(c[m], param1, hashlen) in EvenSlots(c, param1, hashlen, |c| / 2)
  {
    var j := m / 2;
    assert m == 2 * j || m == 2 * j + 1;
    assert Slot(c[2 * j], param1, hashlen) == Slot(c[2 * j + 1], param1, hashlen);
    assert Slot(c[2 * j], param1, hashlen) in EvenSlots(c, param1, hashlen, |c| / 2);
  }

  /** The first-table slots of a closed chain are those of its even positions. */
  lemma ChainSlots1(keys: seq<Key>, param1: nat, param2: nat, hashlen: nat, c: seq<Key>, s: set<Key>)
    requires hashlen > 0 && ClosedChain(keys, param1, param2, hashlen, c)
    requires forall x :: x in s <==> x in c
    ensures SlotsOf(s, param1, hashlen) <= EvenSlots(c, param1, hashlen, |c| / 2)
  {
    forall x | x in SlotsOf(s, param1, hashlen) ensures x in EvenSlots(c, param1, hashlen, |c| / 2) {
      var k :| k in s && Slot(k, param1, hashlen) == x;
      var m :| 0 <= m < |c| && c[m] == k;
      ChainSlot1(c, param1, hashlen, m);
    }
  }

  /** The second-table slot of each key of a closed chain is that of an odd position:
      its own, the one before it, or, for the first key, the last one. */
  lemma ChainSlot2(c: seq<Key>, param2: nat, hashlen: nat, m: nat)
    requires hashlen > 0 && |c| >= 2 && |c| % 2 == 0 && m < |c|
    requires forall j :: 0 < j < |c| / 2 ==> Slot(c[2 * j - 1], param2, hashlen) == Slot(c[2 * j], param2, hashlen)
    requires Slot(c[|c| - 1], param2, hashlen) == Slot(c[0], param2, hashlen)
    ensures Slot(c[m], param2, hashlen) in OddSlots(c, param2, hashlen, |c| / 2)
  {
    var n := |c| / 2;
    var j := m / 2;
    if m == 2 * j + 1 {
      assert Slot(c[2 * j + 1], param2, hashlen) in OddSlots(c, param2, hashlen, n);
    } else if j > 0 {
      assert Slot(c[2 * j - 1], param2, hashlen) == Slot(c[2 * j], param2, hashlen);
      assert Slot(c[2 * (j - 1) + 1], param2, hashlen) in OddSlots(c, param2, hashlen, n);
    } else {
      assert |c| - 1 == 2 * (n - 1) + 1;
      assert Slot(c[2 * (n - 1) + 1], param2, hashlen) in OddSlots(c, param2, hashlen, n);
    }
  }

  /** The second-table slots of a closed chain are those of its odd positions. */
  lemma ChainSlots2(keys: seq<Key>, param1: nat, param2: nat, hashlen: nat, c: seq<Key>, s: set<Key>)
    requires hashlen > 0 && ClosedChain(keys, param1, param2, hashlen, c)
    requires forall x :: x in s <==> x in c
    ensures SlotsOf(s, param2, hashlen) <= OddSlots(c, param2, hashlen, |c| / 2)
  {
    forall x | x in SlotsOf(s, param2, hashlen) ensures x in OddSlots(c, param2, hashlen, |c| / 2) {
      var k :| k in s && Slot(k, param2, hashlen) == x;
      var m :| 0 <= m < |c| && c[m] == k;
      ChainSlot2(c, param2, hashlen, m);
    }
  }

  /** A closed chain of keys is a cycle: its `2m` keys occupy at most `m` slots in each
      table. */
  lemma ChainIsCycle(keys: seq<Key>, param1: nat, param2: nat, hashlen: nat, c: seq<Key>)
    requires hashlen > 0 && ClosedChain(keys, param1, param2, hashlen, c)
    ensures HasCycle(keys, param1, param2, hashlen)
  {
    var s := Order.Visited(c, |c|);
    Order.VisitedAll(c);
    DistinctCard(c, |c|);
    ChainSlots1(keys, param1, param2, hashlen, c, s);
    ChainSlots2(keys, param1, param2, hashlen, c, s);
    SubsetCard(SlotsOf(s, param1, hashlen), EvenSlots(c, param1, hashlen, |c| / 2));
    SubsetCard(SlotsOf(s, param2, hashlen), OddSlots(c, param2, hashlen, |c| / 2));
    assert c[0] in s;
    assert s <= KeySet(keys);
    assert Crowded(s, param1, param2, hashlen);
  }

  lemma TwoMembers<T>(s: set<T>, x: T, y: T)
    requires x in s && y in s && x != y
    ensures |s| >= 2
  {
    var rest := s - {x};
    assert y in rest;
    assert |rest| == |s| - 1;
  }

  /** The first loop of `make_perfect_hash`: every key is added to its bucket under
      each parameter; two different keys sharing both buckets are an error. */
  method BuildBuckets(keys: seq<Key>, param1: nat, param2: nat, hashlen: nat)
    returns (r: Result<(seq<set<Key>>, seq<set<Key>>)>)
    requires hashlen > 0
    ensures r.Err? ==> Collides(keys, param1, param2, hashlen)
    ensures r.Ok? ==> !Collides(keys, param1, param2, hashlen)
    ensures r.Ok? ==> Buckets(r.value.0, KeySet(keys), param1, hashlen)
                      && Buckets(r.value.1, KeySet(keys), param2, hashlen)
  {
    var buckets1: seq<set<Key>> := seq(hashlen, _ => {});
    var buckets2: seq<set<Key>> := seq(hashlen, _ => {});
    for i := 0 to |keys|
      invariant Buckets(buckets1, KeySet(keys[..i]), param1, hashlen)
      invariant Buckets(buckets2, KeySet(keys[..i]), param2, hashlen)
      invariant !Collides(keys[..i], param1, param2, hashlen)
    {
      var key := keys[i];
      var h1 := Slot(key, param1, hashlen);
      var h2 := Slot(key, param2, hashlen);
      KeySetSnoc(keys, i);
      BucketsAdd(buckets1, KeySet(keys[..i]), param1, hashlen, key);
      BucketsAdd(buckets2, KeySet(keys[..i]), param2, hashlen, key);
      buckets1 := buckets1[h1 := buckets1[h1] + {key}];
      buckets2 := buckets2[h2 := buckets2[h2] + {key}];
      var both := buckets1[h1] * buckets2[h2];
      StepCollision(keys, i, param1, param2, hashlen, buckets1, buckets2);
      if |both| != 1 {
        CollidesExtends(keys, i + 1, param1, param2, hashlen);
        return Err("|set1 - set2 intersection| > 1");
      }
    }
    assert keys[..|keys|] == keys;
    r := Ok((buckets1, buckets2));
  }

  lemma KeySetSnoc(keys: seq<Key>, i: nat)
    requires i < |keys|
    ensures KeySet(keys[..i + 1]) == KeySet(keys[..i]) + {keys[i]}
  {
    assert keys[..i + 1] == keys[..i] + [keys[i]];
  }

  /** Adding a key to its bucket keeps the buckets exact. */
  lemma BucketsAdd(buckets: seq<set<Key>>, members: set<Key>, param: nat, hashlen: nat, key: Key)
    requires hashlen > 0 && Buckets(buckets, members, param, hashlen)
    ensures var h := Slot(key, param, hashlen);
            Buckets(buckets[h := buckets[h] + {key}], members + {key}, param, hashlen)
  {
  }

  /** Removing a key from its bucket keeps the buckets exact. */
  lemma BucketsRemove(buckets: seq<set<Key>>, members: set<Key>, param: nat, hashlen: nat, key: Key)
    requires hashlen > 0 && Buckets(buckets, members, param, hashlen)
    ensures var h := Slot(key, param, hashlen);
            Buckets(buckets[h := buckets[h] - {key}], members - {key}, param, hashlen)
  {
  }

  /** After adding key `i`, the keys sharing both of its buckets are that key alone
      exactly when no earlier different key shares both. */
  lemma StepCollision(keys: seq<Key>, i: nat, param1: nat, param2: nat, hashlen: nat,
                      buckets1: seq<set<Key>>, buckets2: seq<set<Key>>)
    requires hashlen > 0 && i < |keys|
    requires Buckets(buckets1, KeySet(keys[..i + 1]), param1, hashlen)
    requires Buckets(buckets2, KeySet(keys[..i + 1]), param2, hashlen)
    requires !Collides(keys[..i], param1, param2, hashlen)
    ensures |buckets1[Slot(keys[i], param1, hashlen)] * buckets2[Slot(keys[i], param2, hashlen)]| != 1
            <==> Collides(keys[..i + 1], param1, param2, hashlen)
  {
    var both := buckets1[Slot(keys[i], param1, hashlen)] * buckets2[Slot(keys[i], param2, hashlen)];
    if Collides(keys[..i + 1], param1, param2, hashlen) {
      var k := StepPartner(keys, i, param1, param2, hashlen);
      assert keys[..i + 1][i] == keys[i];
      TwoMembers(both, keys[i], k);
    } else {
      StepAlone(keys, i, param1, param2, hashlen, buckets1, buckets2);
    }
  }

  /** A collision that appears when key `i` is added is between that key and an
      earlier different key. */
  lemma StepPartner(keys: seq<Key>, i: nat, param1: nat, param2: nat, hashlen: nat) returns (k: Key)
    requires hashlen > 0 && i < |keys|
    requires !Collides(keys[..i], param1, param2, hashlen)
    requires Collides(keys[..i + 1], param1, param2, hashlen)
    ensures k in keys[..i + 1] && k != keys[i]
    ensures Slot(k, param1, hashlen) == Slot(keys[i], param1, hashlen)
    ensures Slot(k, param2, hashlen) == Slot(keys[i], param2, hashlen)
  {
    var pre := keys[..i + 1];
    forall a, b | 0 <= a < b < i
      ensures pre[a] == pre[b] || Slot(pre[a], param1, hashlen) != Slot(pre[b], param1, hashlen)
              || Slot(pre[a], param2, hashlen) != Slot(pre[b], param2, hashlen)
    {
      assert keys[..i][a] == pre[a] && keys[..i][b] == pre[b];
    }
    var a, b :| 0 <= a < b < |pre| && pre[a] != pre[b]
      && Slot(pre[a], param1, hashlen) == Slot(pre[b], param1, hashlen)
      && Slot(pre[a], param2, hashlen) == Slot(pre[b], param2, hashlen);
    assert b == i && pre[i] == keys[i];
    k := pre[a];
  }

  /** Without a collision, key `i` is the only key in both of its buckets. */
  lemma StepAlone(keys: seq<Key>, i: nat, param1: nat, param2: nat, hashlen: nat,
                  buckets1: seq<set<Key>>, buckets2: seq<set<Key>>)
    requires hashlen > 0 && i < |keys|
    requires Buckets(buckets1, KeySet(keys[..i + 1]), param1, hashlen)
    requires Buckets(buckets2, KeySet(keys[..i + 1]), param2, hashlen)
    requires !Collides(keys[..i + 1], param1, param2, hashlen)
    ensures buckets1[Slot(keys[i], param1, hashlen)] * buckets2[Slot(keys[i], param2, hashlen)] == {keys[i]}
  {
    var key := keys[i];
    var h1 := Slot(key, param1, hashlen);
    var h2 := Slot(key, param2, hashlen);
    var both := buckets1[h1] * buckets2[h2];
    var pre := keys[..i + 1];
    assert pre[i] == key;
    assert key in both;
    forall j | 0 <= j < i
      ensures pre[j] == key || Slot(pre[j], param1, hashlen) != h1 || Slot(pre[j], param2, hashlen) != h2
    {
    }
    forall k | k in both ensures k == key {
      assert k in pre;
      var j :| 0 <= j < i + 1 && pre[j] == k;
    }
  }

  /** A collision among a prefix of the keys is a collision among all of them. */
  lemma CollidesExtends(keys: seq<Key>, n: nat, param1: nat, param2: nat, hashlen: nat)
    requires hashlen > 0 && n <= |keys|
    requires Collides(keys[..n], param1, param2, hashlen)
    ensures Collides(keys, param1, param2, hashlen)
  {
    var a, b :| 0 <= a < b < n && keys[..n][a] != keys[..n][b]
      && Slot(keys[..n][a], param1, hashlen) == Slot(keys[..n][b], param1, hashlen)
      && Slot(keys[..n][a], param2, hashlen) == Slot(keys[..n][b], param2, hashlen);
    assert keys[..n][a] == keys[a] && keys[..n][b] == keys[b];
  }

  /** Two slot values add up to `id` modulo `n`. */
  predicate SumsTo(x: int, y: int, n: nat, id: nat)
    requires n > 0
  {
    (x + y) % n == id
  }

  /** The value that completes an assigned slot `a` to `id` modulo `n`, computed as in
      the source: `id - a`, plus `n` when negative. */
  function Complement(id: nat, a: nat, n: nat): (v: int)
    requires id < n && a < n
    ensures 0 <= v < n && SumsTo(a, v, n, id) && SumsTo(v, a, n, id)
  {
    var v := id - a;
    if v < 0 then
      ModWrap(id, n);
      assert a + (v + n) == id + n;
      v + n
    else
      ModWrap(id, n);
      v
  }

  /** A value below the modulus is its own remainder, also after adding the modulus once. */
  lemma ModWrap(x: nat, n: nat)
    requires x < n
    ensures x % n == x && (x + n) % n == x
  {
    assert x == 0 * n + x;
    assert x + n == 1 * n + x;
  }

  /** One key of the peeling loop: if both of its slots are already assigned the
      parameters are rejected; otherwise the unassigned slot (or both) is set so that
      the two slots add up to `id` modulo `n`. Assigned slots never change. */
  method AssignKey(t1: array<int>, t2: array<int>, h1: nat, h2: nat, id: nat, n: nat) returns (ok: bool)
    requires t1 != t2 && h1 < t1.Length && h2 < t2.Length && id < n <= Unassigned
    requires SlotsInRange(t1[..], n) && SlotsInRange(t2[..], n)
    modifies t1, t2
    ensures ok <==> !(old(t1[h1]) != Unassigned && old(t2[h2]) != Unassigned)
    ensures ok ==> t1[h1] != Unassigned && t2[h2] != Unassigned && SumsTo(t1[h1], t2[h2], n, id)
    ensures forall h :: 0 <= h < t1.Length && (h != h1 || old(t1[h]) != Unassigned) ==> t1[h] == old(t1[h])
    ensures forall h :: 0 <= h < t2.Length && (h != h2 || old(t2[h]) != Unassigned) ==> t2[h] == old(t2[h])
    ensures SlotsInRange(t1[..], n) && SlotsInRange(t2[..], n)
  {
    ghost var s1, s2 := t1[..], t2[..];
    assert s1[h1] == t1[h1] && s2[h2] == t2[h2];
    var a1, a2 := t1[h1], t2[h2];
    if a1 != Unassigned && a2 != Unassigned {
      return false;
    } else if a1 != Unassigned {
      var v := Complement(id, a1, n);
      t2[h2] := v;
      assert t2[..] == s2[h2 := v];
      SlotsInRangeUpdate(s2, h2, v, n);
    } else if a2 != Unassigned {
      var v := Complement(id, a2, n);
      t1[h1] := v;
      assert t1[..] == s1[h1 := v];
      SlotsInRangeUpdate(s1, h1, v, n);
    } else {
      t1[h1] := id;
      t2[h2] := 0;
      ModWrap(id, n);
      assert SumsTo(id, 0, n, id);
      assert t1[..] == s1[h1 := id] && t2[..] == s2[h2 := 0];
      SlotsInRangeUpdate(s1, h1, id, n);
      SlotsInRangeUpdate(s2, h2, 0, n);
    }
    ok := true;
  }

  lemma SlotsInRangeUpdate(t: seq<int>, h: nat, v: int, n: nat)
    requires SlotsInRange(t, n) && h < |t| && 0 <= v < n
    ensures SlotsInRange(t[h := v], n)
  {
  }

  /** Processing one key in the peeling loop: on success its slots are assigned so
      that it is solved, and every key solved before stays solved. */
  method PeelKey(t1: array<int>, t2: array<int>, keys: seq<Key>, param1: nat, param2: nat, hashlen: nat,
                 k: Key, id: nat, ghost processed: set<Key>)
    returns (ok: bool)
    requires hashlen > 0 && t1 != t2 && t1.Length == hashlen && t2.Length == hashlen
    requires |keys| <= Unassigned && k in keys && id == Rank(keys, k)
    requires SlotsInRange(t1[..], |keys|) && SlotsInRange(t2[..], |keys|)
    requires forall k' :: k' in processed ==> Solved(t1[..], t2[..], keys, k', param1, param2, hashlen)
    modifies t1, t2
    ensures SlotsInRange(t1[..], |keys|) && SlotsInRange(t2[..], |keys|)
    ensures ok ==> forall k' :: k' in processed + {k} ==> Solved(t1[..], t2[..], keys, k', param1, param2, hashlen)
    ensures ok <==> !(old(t1[Slot(k, param1, hashlen)]) != Unassigned && old(t2[Slot(k, param2, hashlen)]) != Unassigned)
    ensures forall h :: 0 <= h < hashlen && h != Slot(k, param1, hashlen) ==> t1[h] == old(t1[h])
    ensures forall h :: 0 <= h < hashlen && h != Slot(k, param2, hashlen) ==> t2[h] == old(t2[h])
  {
    var h1 := Slot(k, param1, hashlen);
    var h2 := Slot(k, param2, hashlen);
    ghost var before1, before2 := t1[..], t2[..];
    ok := AssignKey(t1, t2, h1, h2, id, |keys|);
    if ok {
      assert t1[..][h1] == t1[h1] && t2[..][h2] == t2[h2];
      assert Solved(t1[..], t2[..], keys, k, param1, param2, hashlen);
      forall k' | k' in processed ensures Solved(t1[..], t2[..], keys, k', param1, param2, hashlen) {
        SolvedKept(before1, before2, t1[..], t2[..], keys, k', param1, param2, hashlen);
      }
    }
  }

  /** The state of the peeling loops: the buckets hold the keys not yet processed, the
      slots are in range and every processed key is solved. */
  ghost predicate PeelState(keys: seq<Key>, param1: nat, param2: nat, hashlen: nat, processed: set<Key>,
                            b1: seq<set<Key>>, b2: seq<set<Key>>, t1: seq<int>, t2: seq<int>)
  {
    hashlen > 0 && |t1| == hashlen && |t2| == hashlen && processed <= KeySet(keys)
    && Buckets(b1, KeySet(keys) - processed, param1, hashlen)
    && Buckets(b2, KeySet(keys) - processed, param2, hashlen)
    && SlotsInRange(t1, |keys|) && SlotsInRange(t2, |keys|)
    && forall k :: k in processed ==> Solved(t1, t2, keys, k, param1, param2, hashlen)
  }

  /** Solving key `k` and removing it from its buckets moves it to the processed keys. */
  lemma PeelStateAdd(keys: seq<Key>, param1: nat, param2: nat, hashlen: nat, processed: set<Key>,
                     b1: seq<set<Key>>, b2: seq<set<Key>>, t1: seq<int>, t2: seq<int>, k: Key)
    requires hashlen > 0 && |t1| == hashlen && |t2| == hashlen
    requires processed <= KeySet(keys) && k in KeySet(keys) - processed
    requires Buckets(b1, KeySet(keys) - processed, param1, hashlen)
    requires Buckets(b2, KeySet(keys) - processed, param2, hashlen)
    requires SlotsInRange(t1, |keys|) && SlotsInRange(t2, |keys|)
    requires forall k' :: k' in processed + {k} ==> Solved(t1, t2, keys, k', param1, param2, hashlen)
    ensures PeelState(keys, param1, param2, hashlen, processed + {k},
                      b1[Slot(k, param1, hashlen) := b1[Slot(k, param1, hashlen)] - {k}],
                      b2[Slot(k, param2, hashlen) := b2[Slot(k, param2, hashlen)] - {k}], t1, t2)
    ensures b1[Slot(k, param1, hashlen)] - {k} <= KeySet(keys) - (processed + {k})
    ensures b2[Slot(k, param2, hashlen)] - {k} <= KeySet(keys) - (processed + {k})
  {
    BucketsRemove(b1, KeySet(keys) - processed, param1, hashlen, k);
    BucketsRemove(b2, KeySet(keys) - processed, param2, hashlen, k);
    assert KeySet(keys) - processed - {k} == KeySet(keys) - (processed + {k});
  }

  /** Every assigned slot of table `t` is a slot of some key in `s`. */
  ghost predicate AssignedBy(t: seq<int>, s: set<Key>, param: nat, hashlen: nat)
    requires hashlen > 0
  {
    forall h :: 0 <= h < |t| && t[h] != Unassigned ==> h in SlotsOf(s, param, hashlen)
  }

  /** Key `u` shares no slot with a key of `s`. */
  ghost predicate Apart(u: Key, s: set<Key>, param1: nat, param2: nat, hashlen: nat)
    requires hashlen > 0
  {
    Slot(u, param1, hashlen) !in SlotsOf(s, param1, hashlen) && Slot(u, param2, hashlen) !in SlotsOf(s, param2, hashlen)
  }

  /** Key `u` shares a slot with a key of `s`. */
  ghost predicate Touches(u: Key, s: set<Key>, param1: nat, param2: nat, hashlen: nat)
    requires hashlen > 0
  {
    Slot(u, param1, hashlen) in SlotsOf(s, param1, hashlen) || Slot(u, param2, hashlen) in SlotsOf(s, param2, hashlen)
  }

  /** No key outside `s` and `pending` shares a slot with a key of `s`. */
  ghost predicate Sealed(keys: seq<Key>, param1: nat, param2: nat, hashlen: nat, s: set<Key>, pending: set<Key>)
    requires hashlen > 0
  {
    forall u {:trigger Apart(u, s, param1, param2, hashlen)} ::
      u in KeySet(keys) && u !in s && u !in pending ==> Apart(u, s, param1, param2, hashlen)
  }

  /** The keys `run` processed so far from one starting key: they occupy at most one
      slot more than there are of them (a tree), and every key of the working set
      shares a slot with them; before the first key only the starting key waits. */
  ghost predicate RunShape(run: set<Key>, working: set<Key>, key: Key, param1: nat, param2: nat, hashlen: nat)
    requires hashlen > 0
  {
    |SlotsOf(run, param1, hashlen)| + |SlotsOf(run, param2, hashlen)| <= |run| + 1
    && (run == {} ==> working <= {key})
    && (run != {} ==> forall w {:trigger Touches(w, run, param1, param2, hashlen)} ::
          w in working ==> Touches(w, run, param1, param2, hashlen))
  }

  /** A key with an unassigned slot has that slot to itself among the solved keys. */
  lemma FreeSlotFresh(t1: seq<int>, t2: seq<int>, keys: seq<Key>, param1: nat, param2: nat, hashlen: nat,
                      s: set<Key>, k: Key)
    requires hashlen > 0 && |t1| == hashlen && |t2| == hashlen
    requires forall k' :: k' in s ==> Solved(t1, t2, keys, k', param1, param2, hashlen)
    requires t1[Slot(k, param1, hashlen)] == Unassigned || t2[Slot(k, param2, hashlen)] == Unassigned
    ensures Slot(k, param1, hashlen) !in SlotsOf(s, param1, hashlen)
            || Slot(k, param2, hashlen) !in SlotsOf(s, param2, hashlen)
  {
    if t1[Slot(k, param1, hashlen)] == Unassigned {
      forall k' | k' in s ensures Slot(k', param1, hashlen) != Slot(k, param1, hashlen) {
        assert Solved(t1, t2, keys, k', param1, param2, hashlen);
      }
    } else {
      forall k' | k' in s ensures Slot(k', param2, hashlen) != Slot(k, param2, hashlen) {
        assert Solved(t1, t2, keys, k', param1, param2, hashlen);
      }
    }
  }

  /** A set holding `k` and part of a forest, where `k` has a slot no key of the forest
      occupies, is not crowded. */
  lemma NotCrowdedWith(s: set<Key>, t: set<Key>, k: Key, param1: nat, param2: nat, hashlen: nat)
    requires hashlen > 0 && Spread(s, param1, param2, hashlen) && k in t && t - {k} <= s
    requires Slot(k, param1, hashlen) !in SlotsOf(s, param1, hashlen)
             || Slot(k, param2, hashlen) !in SlotsOf(s, param2, hashlen)
    ensures !Crowded(t, param1, param2, hashlen)
  {
    var rest := t - {k};
    assert t == rest + {k};
    CardAddOne(rest, k);
    var a1, a2 := SlotsOf(rest, param1, hashlen), SlotsOf(rest, param2, hashlen);
    var x1, x2 := Slot(k, param1, hashlen), Slot(k, param2, hashlen);
    SlotsOfAdd(rest, k, param1, hashlen);
    SlotsOfAdd(rest, k, param2, hashlen);
    CardAddOne(a1, x1);
    CardAddOne(a2, x2);
    if rest == {} {
      assert a1 == {} && a2 == {};
    } else {
      assert !Crowded(rest, param1, param2, hashlen);
      SlotsOfMono(rest, s, param1, hashlen);
      SlotsOfMono(rest, s, param2, hashlen);
    }
  }

  /** A forest grown by a key with a slot of its own is still a forest. */
  lemma SpreadAdd(s: set<Key>, k: Key, param1: nat, param2: nat, hashlen: nat)
    requires hashlen > 0 && Spread(s, param1, param2, hashlen)
    requires Slot(k, param1, hashlen) !in SlotsOf(s, param1, hashlen)
             || Slot(k, param2, hashlen) !in SlotsOf(s, param2, hashlen)
    ensures Spread(s + {k}, param1, param2, hashlen)
  {
    forall t | t <= s + {k} ensures !Crowded(t, param1, param2, hashlen) {
      if k in t {
        NotCrowdedWith(s, t, k, param1, param2, hashlen);
      } else {
        assert t <= s;
      }
    }
  }

  /** Assigning the slots of `k` keeps every assigned slot covered by a processed key. */
  lemma AssignedByStep(before: seq<int>, after: seq<int>, s: set<Key>, k: Key, param: nat, hashlen: nat)
    requires hashlen > 0 && |before| == |after|
    requires AssignedBy(before, s, param, hashlen)
    requires forall h :: 0 <= h < |after| && h != Slot(k, param, hashlen) ==> after[h] == before[h]
    ensures AssignedBy(after, s + {k}, param, hashlen)
  {
    SlotsOfAdd(s, k, param, hashlen);
  }

  /** Processing `k` and adding the keys left in its buckets to the working set keeps
      every other unprocessed key away from the processed slots. */
  lemma SealedStep(keys: seq<Key>, param1: nat, param2: nat, hashlen: nat, s: set<Key>, working: set<Key>,
                   k: Key, b1: seq<set<Key>>, b2: seq<set<Key>>)
    requires hashlen > 0 && Sealed(keys, param1, param2, hashlen, s, working) && k in working
    requires Buckets(b1, KeySet(keys) - (s + {k}), param1, hashlen)
    requires Buckets(b2, KeySet(keys) - (s + {k}), param2, hashlen)
    ensures Sealed(keys, param1, param2, hashlen, s + {k},
                   working - {k} + b1[Slot(k, param1, hashlen)] + b2[Slot(k, param2, hashlen)])
  {
    SlotsOfAdd(s, k, param1, hashlen);
    SlotsOfAdd(s, k, param2, hashlen);
    var more := working - {k} + b1[Slot(k, param1, hashlen)] + b2[Slot(k, param2, hashlen)];
    forall u | u in KeySet(keys) && u !in s + {k} && u !in more ensures Apart(u, s + {k}, param1, param2, hashlen) {
      assert Apart(u, s, param1, param2, hashlen);
    }
  }

  /** Processing a key of the working set grows the run by one edge and at most one
      node, and the keys joining the working set share a slot with it. */
  lemma RunStep(run: set<Key>, working: set<Key>, key: Key, k: Key, more: set<Key>,
                param1: nat, param2: nat, hashlen: nat)
    requires hashlen > 0 && RunShape(run, working, key, param1, param2, hashlen)
    requires k in working && k !in run
    requires forall w :: w in more ==>
      Slot(w, param1, hashlen) == Slot(k, param1, hashlen) || Slot(w, param2, hashlen) == Slot(k, param2, hashlen)
    ensures RunShape(run + {k}, working - {k} + more, key, param1, param2, hashlen)
  {
    SlotsOfAdd(run, k, param1, hashlen);
    SlotsOfAdd(run, k, param2, hashlen);
    CardAddOne(run, k);
    CardAddOne(SlotsOf(run, param1, hashlen), Slot(k, param1, hashlen));
    CardAddOne(SlotsOf(run, param2, hashlen), Slot(k, param2, hashlen));
    if run == {} {
      assert run + {k} == {k};
      assert working - {k} == {};
    } else {
      assert Touches(k, run, param1, param2, hashlen);
    }
    forall w | w in working - {k} + more ensures Touches(w, run + {k}, param1, param2, hashlen) {
      if w !in more {
        assert Touches(w, run, param1, param2, hashlen);
      }
    }
  }

  /** A key whose two slots both belong to the current run closes a cycle with it. */
  lemma StuckIsCycle(keys: seq<Key>, param1: nat, param2: nat, hashlen: nat, processed: set<Key>,
                     now: set<Key>, k: Key)
    requires hashlen > 0 && processed <= now <= KeySet(keys) && k in KeySet(keys) && k !in now
    requires Sealed(keys, param1, param2, hashlen, processed, {})
    requires |SlotsOf(now - processed, param1, hashlen)| + |SlotsOf(now - processed, param2, hashlen)|
             <= |now - processed| + 1
    requires Slot(k, param1, hashlen) in SlotsOf(now, param1, hashlen)
    requires Slot(k, param2, hashlen) in SlotsOf(now, param2, hashlen)
    ensures HasCycle(keys, param1, param2, hashlen)
  {
    var run := now - processed;
    assert Apart(k, processed, param1, param2, hashlen);
    var k1 :| k1 in now && Slot(k1, param1, hashlen) == Slot(k, param1, hashlen);
    var k2 :| k2 in now && Slot(k2, param2, hashlen) == Slot(k, param2, hashlen);
    assert k1 in run && k2 in run;
    SlotsOfAdd(run, k, param1, hashlen);
    SlotsOfAdd(run, k, param2, hashlen);
    CardAddOne(run, k);
    assert Crowded(run + {k}, param1, param2, hashlen);
  }

  /** One successful step of the inner peeling loop keeps the processed keys a forest
      and keeps every assigned slot covered by a processed key. */
  lemma ForestStep(keys: seq<Key>, param1: nat, param2: nat, hashlen: nat, done: set<Key>, k: Key,
                   before1: seq<int>, before2: seq<int>, after1: seq<int>, after2: seq<int>)
    requires hashlen > 0 && |before1| == hashlen && |before2| == hashlen
    requires |after1| == hashlen && |after2| == hashlen && k !in done
    requires forall k' :: k' in done ==> Solved(before1, before2, keys, k', param1, param2, hashlen)
    requires before1[Slot(k, param1, hashlen)] == Unassigned || before2[Slot(k, param2, hashlen)] == Unassigned
    requires forall h :: 0 <= h < hashlen && h != Slot(k, param1, hashlen) ==> after1[h] == before1[h]
    requires forall h :: 0 <= h < hashlen && h != Slot(k, param2, hashlen) ==> after2[h] == before2[h]
    requires Spread(done, param1, param2, hashlen)
    requires AssignedBy(before1, done, param1, hashlen) && AssignedBy(before2, done, param2, hashlen)
    ensures Spread(done + {k}, param1, param2, hashlen)
    ensures AssignedBy(after1, done + {k}, param1, hashlen) && AssignedBy(after2, done + {k}, param2, hashlen)
  {
    FreeSlotFresh(before1, before2, keys, param1, param2, hashlen, done, k);
    SpreadAdd(done, k, param1, param2, hashlen);
    AssignedByStep(before1, after1, done, k, param1, hashlen);
    AssignedByStep(before2, after2, done, k, param2, hashlen);
  }

  /** One successful step of the inner peeling loop keeps the keys outside the working
      set sealed off from the processed keys, and grows the run as a tree from the
      starting key. */
  lemma RunGrows(keys: seq<Key>, param1: nat, param2: nat, hashlen: nat, processed: set<Key>, done: set<Key>,
                 pending: set<Key>, key: Key, k: Key, b1: seq<set<Key>>, b2: seq<set<Key>>)
    requires hashlen > 0 && processed <= done && k in pending && k !in done
    requires Sealed(keys, param1, param2, hashlen, done, pending)
    requires RunShape(done - processed, pending, key, param1, param2, hashlen)
    requires Buckets(b1, KeySet(keys) - (done + {k}), param1, hashlen)
    requires Buckets(b2, KeySet(keys) - (done + {k}), param2, hashlen)
    ensures Sealed(keys, param1, param2, hashlen, done + {k},
                   pending - {k} + b1[Slot(k, param1, hashlen)] + b2[Slot(k, param2, hashlen)])
    ensures RunShape(done + {k} - processed, pending - {k} + b1[Slot(k, param1, hashlen)] + b2[Slot(k, param2, hashlen)],
                     key, param1, param2, hashlen)
  {
    SealedStep(keys, param1, param2, hashlen, done, pending, k, b1, b2);
    RunStep(done - processed, pending, key, k, b1[Slot(k, param1, hashlen)] + b2[Slot(k, param2, hashlen)],
            param1, param2, hashlen);
    assert done - processed + {k} == done + {k} - processed;
  }

  /** A failed step of the inner peeling loop: both slots of `k` are assigned, so the
      keys processed since the start of the run and `k` close a cycle. */
  lemma StuckStep(keys: seq<Key>, param1: nat, param2: nat, hashlen: nat, processed: set<Key>, done: set<Key>,
                  pending: set<Key>, key: Key, k: Key, before1: seq<int>, before2: seq<int>)
    requires hashlen > 0 && |before1| == hashlen && |before2| == hashlen
    requires processed <= done <= KeySet(keys) && k in KeySet(keys) && k !in done
    requires before1[Slot(k, param1, hashlen)] != Unassigned && before2[Slot(k, param2, hashlen)] != Unassigned
    requires Sealed(keys, param1, param2, hashlen, processed, {})
    requires AssignedBy(before1, done, param1, hashlen) && AssignedBy(before2, done, param2, hashlen)
    requires RunShape(done - processed, pending, key, param1, param2, hashlen)
    ensures HasCycle(keys, param1, param2, hashlen)
  {
    StuckIsCycle(keys, param1, param2, hashlen, processed, done, k);
  }

  /** The state of the inner peeling loop started from `key` with `processed` already
      done: `done` holds the processed keys, the keys left are waiting in the working
      set or unassigned, the tables and buckets are in the peeling state, the processed
      keys form a forest that covers every assigned slot, no key outside the working set
      touches them, and the run grows as a tree from `key`. */
  ghost predicate Peeling(keys: seq<Key>, param1: nat, param2: nat, hashlen: nat, processed: set<Key>, key: Key,
                          done: set<Key>, working: set<Key>, unassigned: set<Key>,
                          b1: seq<set<Key>>, b2: seq<set<Key>>, t1: seq<int>, t2: seq<int>)
  {
    hashlen > 0
    && processed <= done && processed + {key} - working <= done <= KeySet(keys)
    && working <= KeySet(keys) - done && unassigned <= KeySet(keys) - done
    && KeySet(keys) - done <= unassigned + working
    && PeelState(keys, param1, param2, hashlen, done, b1, b2, t1, t2)
    && Spread(done, param1, param2, hashlen) && Sealed(keys, param1, param2, hashlen, done, working)
    && AssignedBy(t1, done, param1, hashlen) && AssignedBy(t2, done, param2, hashlen)
    && RunShape(done - processed, working, key, param1, param2, hashlen)
  }

  /** A successful round of the inner peeling loop keeps its state: `k` moves from the
      working set to the processed keys, leaves its buckets, and the keys still sharing
      a bucket with it join the working set. */
  lemma PeelingStep(keys: seq<Key>, param1: nat, param2: nat, hashlen: nat, processed: set<Key>, key: Key,
                    done: set<Key>, working: set<Key>, unassigned: set<Key>, b1: seq<set<Key>>, b2: seq<set<Key>>,
                    before1: seq<int>, before2: seq<int>, after1: seq<int>, after2: seq<int>, k: Key,
                    working': set<Key>, b1': seq<set<Key>>, b2': seq<set<Key>>)
    requires hashlen > 0 && |b1| == hashlen && |b2| == hashlen
    requires |before1| == hashlen && |before2| == hashlen && |after1| == hashlen && |after2| == hashlen
    requires Peeling(keys, param1, param2, hashlen, processed, key, done, working, unassigned, b1, b2, before1, before2)
    requires k in working
    requires before1[Slot(k, param1, hashlen)] == Unassigned || before2[Slot(k, param2, hashlen)] == Unassigned
    requires forall h :: 0 <= h < hashlen && h != Slot(k, param1, hashlen) ==> after1[h] == before1[h]
    requires forall h :: 0 <= h < hashlen && h != Slot(k, param2, hashlen) ==> after2[h] == before2[h]
    requires SlotsInRange(after1, |keys|) && SlotsInRange(after2, |keys|)
    requires forall k' :: k' in done + {k} ==> Solved(after1, after2, keys, k', param1, param2, hashlen)
    requires b1' == b1[Slot(k, param1, hashlen) := b1[Slot(k, param1, hashlen)] - {k}]
    requires b2' == b2[Slot(k, param2, hashlen) := b2[Slot(k, param2, hashlen)] - {k}]
    requires working' == working - {k} + b1'[Slot(k, param1, hashlen)] + b2'[Slot(k, param2, hashlen)]
    ensures Peeling(keys, param1, param2, hashlen, processed, key, done + {k}, working', unassigned - {k},
                    b1', b2', after1, after2)
    ensures KeySet(keys) - (done + {k}) < KeySet(keys) - done
  {
    PeelStateAdd(keys, param1, param2, hashlen, done, b1, b2, after1, after2, k);
    ForestStep(keys, param1, param2, hashlen, done, k, before1, before2, after1, after2);
    RunGrows(keys, param1, param2, hashlen, processed, done, working, key, k, b1', b2');
    forall x | x in KeySet(keys) - (done + {k}) ensures x in (unassigned - {k}) + working' {
      assert x in unassigned + working;
    }
    assert k in KeySet(keys) - done && k !in KeySet(keys) - (done + {k});
  }

  /** The id table maps each key to its rank. */
  lemma IdOfKey(keys: seq<Key>, ids: map<Key, nat>, k: Key)
    requires ids == TargetIds(SortedKeys(keys)) && k in KeySet(keys)
    ensures k in keys && k in ids && ids[k] == Rank(keys, k)
  {
    assert k in multiset(keys);
    assert k in SortedKeys(keys);
  }

  /** One round of the inner peeling loop: a key taken from the working set is solved
      and removed from its buckets, and the keys still sharing a bucket with it join
      the working set. If both of its slots are already assigned the round fails, and
      then the key graph has a cycle. */
  method PeelStep(t1: array<int>, t2: array<int>, keys: seq<Key>, param1: nat, param2: nat, hashlen: nat,
                  ids: map<Key, nat>, b1: seq<set<Key>>, b2: seq<set<Key>>, unassigned: set<Key>,
                  working: set<Key>, key: Key, ghost processed: set<Key>, ghost done: set<Key>)
    returns (ok: bool, b1': seq<set<Key>>, b2': seq<set<Key>>, unassigned': set<Key>, working': set<Key>,
             ghost done': set<Key>)
    requires t1 != t2 && |keys| <= Unassigned && ids == TargetIds(SortedKeys(keys)) && working != {}
    requires Peeling(keys, param1, param2, hashlen, processed, key, done, working, unassigned, b1, b2, t1[..], t2[..])
    requires Sealed(keys, param1, param2, hashlen, processed, {})
    modifies t1, t2
    ensures ok ==> Peeling(keys, param1, param2, hashlen, processed, key, done', working', unassigned', b1', b2', t1[..], t2[..])
    ensures ok ==> KeySet(keys) - done' < KeySet(keys) - done
    ensures !ok ==> HasCycle(keys, param1, param2, hashlen)
  {
    b1', b2', unassigned', working', done' := b1, b2, unassigned, working, done;
    var k :| k in working;
    IdOfKey(keys, ids, k);
    var h1 := Slot(k, param1, hashlen);
    var h2 := Slot(k, param2, hashlen);
    ghost var before1, before2 := t1[..], t2[..];
    assert before1[h1] == t1[h1] && before2[h2] == t2[h2];
    ok := PeelKey(t1, t2, keys, param1, param2, hashlen, k, ids[k], done);
    if !ok {
      StuckStep(keys, param1, param2, hashlen, processed, done, working, key, k, before1, before2);
      return;
    }
    done' := done + {k};
    b1' := b1[h1 := b1[h1] - {k}];
    b2' := b2[h2 := b2[h2] - {k}];
    working' := working - {k} + b1'[h1] + b2'[h2];
    unassigned' := unassigned - {k};
    PeelingStep(keys, param1, param2, hashlen, processed, key, done, working, unassigned, b1, b2,
                before1, before2, t1[..], t2[..], k, working', b1', b2');
  }

  /** The state between two runs of the inner peeling loop: the tables and buckets are
      in the peeling state, the unassigned keys are the unprocessed ones, and the
      processed keys form a forest that covers every assigned slot and that no
      unprocessed key touches. */
  ghost predicate Peeled(keys: seq<Key>, param1: nat, param2: nat, hashlen: nat, processed: set<Key>,
                         unassigned: set<Key>, b1: seq<set<Key>>, b2: seq<set<Key>>, t1: seq<int>, t2: seq<int>)
  {
    hashlen > 0
    && PeelState(keys, param1, param2, hashlen, processed, b1, b2, t1, t2)
    && unassigned == KeySet(keys) - processed
    && Spread(processed, param1, param2, hashlen) && Sealed(keys, param1, param2, hashlen, processed, {})
    && AssignedBy(t1, processed, param1, hashlen) && AssignedBy(t2, processed, param2, hashlen)
  }

  /** A run of the inner loop starts from one unassigned key, with nothing processed in
      it yet. */
  lemma PeelingStart(keys: seq<Key>, param1: nat, param2: nat, hashlen: nat, processed: set<Key>, key: Key,
                     unassigned: set<Key>, b1: seq<set<Key>>, b2: seq<set<Key>>, t1: seq<int>, t2: seq<int>)
    requires Peeled(keys, param1, param2, hashlen, processed, unassigned, b1, b2, t1, t2) && key in unassigned
    ensures Peeling(keys, param1, param2, hashlen, processed, key, processed, {key}, unassigned - {key}, b1, b2, t1, t2)
  {
    forall u | u in KeySet(keys) && u !in processed && u !in {key}
      ensures Apart(u, processed, param1, param2, hashlen)
    {
    }
    assert processed - processed == {};
  }

  /** A run of the inner loop that empties its working set leaves the state between
      runs, with the starting key processed. */
  lemma PeelingDone(keys: seq<Key>, param1: nat, param2: nat, hashlen: nat, processed: set<Key>, key: Key,
                    done: set<Key>, unassigned: set<Key>, b1: seq<set<Key>>, b2: seq<set<Key>>, t1: seq<int>, t2: seq<int>)
    requires Peeling(keys, param1, param2, hashlen, processed, key, done, {}, unassigned, b1, b2, t1, t2)
    ensures Peeled(keys, param1, param2, hashlen, done, unassigned, b1, b2, t1, t2)
    ensures processed + {key} <= done
  {
  }

  /** The inner peeling loop of `make_perfect_hash`, started from `key` once it is
      removed from the unassigned keys. On success `key` is processed, the unassigned
      keys are the unprocessed ones, and the processed keys still form a forest whose
      slots no unprocessed key occupies. The run fails exactly
      when a key finds both of its slots taken, and then the keys of the run and that
      key close a cycle. */
  method PeelComponent(t1: array<int>, t2: array<int>, keys: seq<Key>, param1: nat, param2: nat, hashlen: nat,
                       ids: map<Key, nat>, b1: seq<set<Key>>, b2: seq<set<Key>>, unassigned: set<Key>, key: Key,
                       ghost processed: set<Key>)
    returns (ok: bool, b1': seq<set<Key>>, b2': seq<set<Key>>, unassigned': set<Key>, ghost processed': set<Key>)
    requires t1 != t2 && |keys| <= Unassigned && ids == TargetIds(SortedKeys(keys))
    requires Peeled(keys, param1, param2, hashlen, processed, unassigned + {key}, b1, b2, t1[..], t2[..])
    requires key !in unassigned
    modifies t1, t2
    ensures ok ==> Peeled(keys, param1, param2, hashlen, processed', unassigned', b1', b2', t1[..], t2[..])
    ensures ok ==> processed + {key} <= processed'
    ensures !ok ==> HasCycle(keys, param1, param2, hashlen)
  {
    PeelingStart(keys, param1, param2, hashlen, processed, key, unassigned + {key}, b1, b2, t1[..], t2[..]);
    assert unassigned + {key} - {key} == unassigned;
    b1', b2', unassigned', processed' := b1, b2, unassigned, processed;
    var working: set<Key> := {key};
    while working != {}
      invariant Peeling(keys, param1, param2, hashlen, processed, key, processed', working, unassigned', b1', b2', t1[..], t2[..])
      decreases KeySet(keys) - processed'
    {
      ok, b1', b2', unassigned', working, processed' :=
        PeelStep(t1, t2, keys, param1, param2, hashlen, ids, b1', b2', unassigned', working, key, processed, processed');
      if !ok {
        return;
      }
    }
    PeelingDone(keys, param1, param2, hashlen, processed, key, processed', unassigned', b1', b2', t1[..], t2[..]);
    ok := true;
  }

  /** The peeling loops of `make_perfect_hash`. Keys are taken in an arbitrary order
      from the unassigned set; each processed key is removed from its buckets and the
      keys still sharing a bucket with it are processed next. Every key is processed
      exactly once, and on success the tables solve all keys. The peeling fails exactly
      when the key graph has a cycle, whatever order the keys are taken in. */
  method Peel(keys: seq<Key>, param1: nat, param2: nat, hashlen: nat,
              buckets1: seq<set<Key>>, buckets2: seq<set<Key>>)
    returns (r: Result<(seq<int>, seq<int>)>)
    requires hashlen > 0 && |keys| <= Unassigned
    requires Buckets(buckets1, KeySet(keys), param1, hashlen)
    requires Buckets(buckets2, KeySet(keys), param2, hashlen)
    ensures r.Ok? ==> |r.value.0| == hashlen && |r.value.1| == hashlen
    ensures r.Ok? ==> SlotsInRange(r.value.0, |keys|) && SlotsInRange(r.value.1, |keys|)
    ensures r.Ok? ==> Solves(keys, param1, param2, hashlen, r.value.0, r.value.1)
    ensures r.Err? <==> HasCycle(keys, param1, param2, hashlen)
  {
    var ids := TargetIds(SortedKeys(keys));
    var t1 := new int[hashlen](_ => Unassigned);
    var t2 := new int[hashlen](_ => Unassigned);
    var b1, b2 := buckets1, buckets2;
    var unassigned := KeySet(keys);
    ghost var processed: set<Key> := {};
    PeelStart(keys, param1, param2, hashlen, b1, b2, t1[..], t2[..]);
    while unassigned != {}
      invariant Peeled(keys, param1, param2, hashlen, processed, unassigned, b1, b2, t1[..], t2[..])
      decreases unassigned
    {
      var key :| key in unassigned;
      var ok;
      assert unassigned - {key} + {key} == unassigned;
      ok, b1, b2, unassigned, processed :=
        PeelComponent(t1, t2, keys, param1, param2, hashlen, ids, b1, b2, unassigned - {key}, key, processed);
      if !ok {
        return Err("Error: badly chosen hash function parameters");
      }
    }
    PeelFinish(keys, param1, param2, hashlen, processed, b1, b2, t1[..], t2[..]);
    r := Ok((t1[..], t2[..]));
  }

  /** Before any key is processed the tables are empty and every key waits. */
  lemma PeelStart(keys: seq<Key>, param1: nat, param2: nat, hashlen: nat, b1: seq<set<Key>>, b2: seq<set<Key>>,
                  t1: seq<int>, t2: seq<int>)
    requires hashlen > 0 && |keys| <= Unassigned && |t1| == hashlen && |t2| == hashlen
    requires forall h :: 0 <= h < hashlen ==> t1[h] == Unassigned && t2[h] == Unassigned
    requires Buckets(b1, KeySet(keys), param1, hashlen) && Buckets(b2, KeySet(keys), param2, hashlen)
    ensures Peeled(keys, param1, param2, hashlen, {}, KeySet(keys), b1, b2, t1, t2)
  {
    assert KeySet(keys) - {} == KeySet(keys);
  }

  /** Once every key is processed the tables solve them all and the keys form a forest. */
  lemma PeelFinish(keys: seq<Key>, param1: nat, param2: nat, hashlen: nat, processed: set<Key>,
                   b1: seq<set<Key>>, b2: seq<set<Key>>, t1: seq<int>, t2: seq<int>)
    requires Peeled(keys, param1, param2, hashlen, processed, {}, b1, b2, t1, t2)
    ensures |t1| == hashlen && |t2| == hashlen && SlotsInRange(t1, |keys|) && SlotsInRange(t2, |keys|)
    ensures Solves(keys, param1, param2, hashlen, t1, t2)
    ensures !HasCycle(keys, param1, param2, hashlen)
  {
    assert processed == KeySet(keys) by {
      forall k | k in KeySet(keys) ensures k in processed {
        assert k !in KeySet(keys) - processed;
      }
    }
    AllSolved(keys, param1, param2, hashlen, t1, t2);
    assert Spread(KeySet(keys), param1, param2, hashlen);
  }

  /** Both slots of `k` are assigned and add up to its rank. */
  ghost predicate Solved(t1: seq<int>, t2: seq<int>, keys: seq<Key>, k: Key, param1: nat, param2: nat, hashlen: nat)
    requires hashlen > 0 && |t1| == hashlen && |t2| == hashlen
  {
    k in keys
    && t1[Slot(k, param1, hashlen)] != Unassigned && t2[Slot(k, param2, hashlen)] != Unassigned
    && SumsTo(t1[Slot(k, param1, hashlen)], t2[Slot(k, param2, hashlen)], |keys|, Rank(keys, k))
  }

  lemma AllSolved(keys: seq<Key>, param1: nat, param2: nat, hashlen: nat, t1: seq<int>, t2: seq<int>)
    requires hashlen > 0 && |t1| == hashlen && |t2| == hashlen
    requires forall k :: k in KeySet(keys) ==> Solved(t1, t2, keys, k, param1, param2, hashlen)
    ensures Solves(keys, param1, param2, hashlen, t1, t2)
  {
    forall i | 0 <= i < |keys|
      ensures SumsTo(t1[Slot(keys[i], param1, hashlen)], t2[Slot(keys[i], param2, hashlen)], |keys|, Rank(keys, keys[i]))
    {
      assert keys[i] in KeySet(keys);
    }
  }

  /** A solved key stays solved when only unassigned slots are written. */
  lemma SolvedKept(before1: seq<int>, before2: seq<int>, t1: seq<int>, t2: seq<int>, keys: seq<Key>, k: Key,
                   param1: nat, param2: nat, hashlen: nat)
    requires hashlen > 0 && |before1| == |before2| == |t1| == |t2| == hashlen
    requires Solved(before1, before2, keys, k, param1, param2, hashlen)
    requires forall h :: 0 <= h < hashlen && before1[h] != Unassigned ==> t1[h] == before1[h]
    requires forall h :: 0 <= h < hashlen && before2[h] != Unassigned ==> t2[h] == before2[h]
    ensures Solved(t1, t2, keys, k, param1, param2, hashlen)
  {
  }

  /** `make_perfect_hash`: on success both tables have `hashlen` slots, every slot is
      unassigned or holds an id below `n`, and every key's two slots add up to its rank
      modulo `n`. It fails exactly when two keys share both buckets or the key graph has
      a cycle. */
  method MakePerfectHash(keys: seq<Key>, param1: nat, param2: nat, hashlen: nat)
    returns (r: Result<(seq<int>, seq<int>)>)
    requires |keys| <= Unassigned
    ensures hashlen == 0 ==> (r.Err? <==> |keys| > 0)
    ensures hashlen > 0 ==> (r.Err? <==> Collides(keys, param1, param2, hashlen) || HasCycle(keys, param1, param2, hashlen))
    ensures r.Ok? ==> |r.value.0| == hashlen && |r.value.1| == hashlen
    ensures r.Ok? ==> SlotsInRange(r.value.0, |keys|) && SlotsInRange(r.value.1, |keys|)
    ensures r.Ok? && hashlen > 0 ==> Solves(keys, param1, param2, hashlen, r.value.0, r.value.1)
  {
    if hashlen == 0 {
      if |keys| > 0 {
        return Err("panic: remainder with a divisor of zero");
      }
      return Ok(([], []));
    }
    var buckets := BuildBuckets(keys, param1, param2, hashlen);
    if buckets.Err? {
      return Err(buckets.msg);
    }
    r := Peel(keys, param1, param2, hashlen, buckets.value.0, buckets.value.1);
  }

  // ---------------------------------------------------------------- parameter search

  const MinParam: nat := 257
  const ParamLimit: nat := 65538
  const MaxCandidates: nat := 200

  /** The number of keys that land in bucket `h`. */
  function CountIn(keys: seq<Key>, hashsize: nat, param: nat, h: nat): nat
    requires hashsize > 0
  {
    if |keys| == 0 then 0
    else CountIn(keys[..|keys| - 1], hashsize, param, h)
         + (if Slot(keys[|keys| - 1], param, hashsize) == h then 1 else 0)
  }

  function Counts(keys: seq<Key>, hashsize: nat, param: nat): (r: seq<nat>)
    ensures |r| == hashsize
  {
    seq(hashsize, h requires 0 <= h < hashsize => CountIn(keys, hashsize, param, h))
  }

  function Sum(s: seq<nat>): nat
  {
    if |s| == 0 then 0 else Sum(s[..|s| - 1]) + s[|s| - 1]
  }

  function SumSquares(s: seq<nat>): nat
  {
    if |s| == 0 then 0 else SumSquares(s[..|s| - 1]) + s[|s| - 1] * s[|s| - 1]
  }

  /** The score of a parameter: the sum of the squared bucket sizes minus the number
      of keys (zero for a perfect spread). */
  function Score(keys: seq<Key>, hashsize: nat, param: nat): int
  {
    SumSquares(Counts(keys, hashsize, param)) - |keys|
  }

  lemma {:induction false} SumIncrement(s: seq<nat>, i: nat)
    requires i < |s|
    ensures Sum(s[i := s[i] + 1]) == Sum(s) + 1
    decreases |s|
  {
    var t := s[i := s[i] + 1];
    var n := |s| - 1;
    if i < n {
      assert t[..n] == s[..n][i := s[i] + 1];
      SumIncrement(s[..n], i);
    } else {
      assert t[..n] == s[..n];
    }
  }

  /** Every key lands in exactly one bucket. */
  lemma {:induction false} CountsSum(keys: seq<Key>, hashsize: nat, param: nat)
    requires hashsize > 0
    ensures Sum(Counts(keys, hashsize, param)) == |keys|
    decreases |keys|
  {
    if |keys| > 0 {
      var n := |keys| - 1;
      CountsSum(keys[..n], hashsize, param);
      var s := Slot(keys[n], param, hashsize);
      assert Counts(keys, hashsize, param) == Counts(keys[..n], hashsize, param)[s := CountIn(keys[..n], hashsize, param, s) + 1];
      SumIncrement(Counts(keys[..n], hashsize, param), s);
    } else {
      SumZero(Counts(keys, hashsize, param));
    }
  }

  lemma {:induction false} SumZero(s: seq<nat>)
    requires forall i :: 0 <= i < |s| ==> s[i] == 0
    ensures Sum(s) == 0
    decreases |s|
  {
    if |s| > 0 {
      SumZero(s[..|s| - 1]);
    }
  }

  /** The sum of squares exceeds the sum by `sum c*(c-1)`, which is zero exactly when no
      entry exceeds one. */
  lemma {:induction false} SquaresExceedSum(s: seq<nat>)
    ensures SumSquares(s) >= Sum(s)
    ensures SumSquares(s) == Sum(s) <==> forall i :: 0 <= i < |s| ==> s[i] <= 1
    decreases |s|
  {
    if |s| > 0 {
      var n := |s| - 1;
      SquaresExceedSum(s[..n]);
      assert s[n] * s[n] >= s[n];
      assert s[n] <= 1 <==> s[n] * s[n] == s[n];
      if SumSquares(s) == Sum(s) {
        forall i | 0 <= i < |s| ensures s[i] <= 1 {
          if i < n {
            assert s[..n][i] == s[i];
          }
        }
      }
      if forall i :: 0 <= i < |s| ==> s[i] <= 1 {
        assert forall i :: 0 <= i < n ==> s[..n][i] <= 1 by {
          forall i | 0 <= i < n ensures s[..n][i] <= 1 {
            assert s[..n][i] == s[i];
          }
        }
      }
    }
  }

  /** A score is never negative, and it is zero exactly when no bucket holds more than
      one key. */
  lemma ScoreFacts(keys: seq<Key>, hashsize: nat, param: nat)
    requires hashsize > 0
    ensures Score(keys, hashsize, param) >= 0
    ensures Score(keys, hashsize, param) == 0 <==>
      forall h :: 0 <= h < hashsize ==> CountIn(keys, hashsize, param, h) <= 1
  {
    CountsSum(keys, hashsize, param);
    SquaresExceedSum(Counts(keys, hashsize, param));
    var c := Counts(keys, hashsize, param);
    assert Sum(c) == |keys|;
    assert Score(keys, hashsize, param) == SumSquares(c) - Sum(c);
    if forall i :: 0 <= i < |c| ==> c[i] <= 1 {
      forall h | 0 <= h < hashsize ensures CountIn(keys, hashsize, param, h) <= 1 {
        assert c[h] <= 1;
      }
    } else {
      var i :| 0 <= i < |c| && c[i] > 1;
      assert CountIn(keys, hashsize, param, i) > 1;
    }
  }

  /** The inner loop of `find_best_distribution`: counts the keys per bucket in a
      table, then sums the squares. */
  method BucketScore(keys: seq<Key>, hashsize: nat, param: nat) returns (score: int)
    requires hashsize > 0 || |keys| == 0
    ensures score == Score(keys, hashsize, param)
  {
    var buckets := new nat[hashsize](_ => 0);
    for i := 0 to |keys|
      invariant forall h :: 0 <= h < hashsize ==> buckets[h] == CountIn(keys[..i], hashsize, param, h)
    {
      var s := Slot(keys[i], param, hashsize);
      buckets[s] := buckets[s] + 1;
      assert keys[..i + 1][..i] == keys[..i];
    }
    assert keys[..|keys|] == keys;
    assert buckets[..] == Counts(keys, hashsize, param);
    var total := 0;
    for h := 0 to hashsize
      invariant total == SumSquares(buckets[..h])
    {
      total := total + buckets[h] * buckets[h];
      assert buckets[..h + 1][..h] == buckets[..h];
    }
    assert buckets[..hashsize] == buckets[..];
    score := total - |keys|;
  }

  /** Every parameter of the search range paired with its score, in ascending parameter
      order. */
  function Candidates(keys: seq<Key>, hashsize: nat): (r: seq<(int, nat)>)
    ensures |r| == ParamLimit - MinParam
    ensures forall i :: 0 <= i < |r| ==> r[i] == (Score(keys, hashsize, MinParam + i), MinParam + i)
  {
    seq(ParamLimit - MinParam, i requires 0 <= i < ParamLimit - MinParam =>
      (Score(keys, hashsize, MinParam + i), MinParam + i))
  }

  predicate ScoreLe(a: (int, nat), b: (int, nat))
  {
    a.0 <= b.0
  }

  /** The candidates sorted by ascending score. */
  function RankedCandidates(keys: seq<Key>, hashsize: nat): (r: seq<(int, nat)>)
    ensures multiset(r) == multiset(Candidates(keys, hashsize)) && |r| == ParamLimit - MinParam
    ensures Order.SortedBy(r, ScoreLe)
  {
    assert Order.TotalPreorder(ScoreLe);
    var r := Order.SortBy(Candidates(keys, hashsize), ScoreLe);
    assert |r| == |multiset(r)| == |multiset(Candidates(keys, hashsize))|;
    r
  }

  /** The 200 parameters with the lowest scores, best first. */
  function BestParams(keys: seq<Key>, hashsize: nat): (r: seq<nat>)
    ensures |r| == MaxCandidates
  {
    var ranked := RankedCandidates(keys, hashsize);
    seq(MaxCandidates, i requires 0 <= i < MaxCandidates => ranked[i].1)
  }

  /** `find_best_distribution`: scores every parameter of the range in a loop, sorts by
      score and keeps the first 200. Hashing into zero buckets is a division by zero
      once there is a key. */
  method FindBestDistribution(keys: seq<Key>, hashsize: nat) returns (r: Result<seq<nat>>)
    ensures r.Err? <==> hashsize == 0 && |keys| > 0
    ensures r.Ok? ==> r.value == BestParams(keys, hashsize)
  {
    if hashsize == 0 && |keys| > 0 {
      return Err("panic: remainder with a divisor of zero");
    }
    var distributions: seq<(int, nat)> := [];
    for param := MinParam to ParamLimit
      invariant distributions == Candidates(keys, hashsize)[..param - MinParam]
    {
      var score := BucketScore(keys, hashsize, param);
      distributions := distributions + [(score, param)];
    }
    assert distributions == Candidates(keys, hashsize);
    assert Order.TotalPreorder(ScoreLe);
    var sorted := Order.SortBy(distributions, ScoreLe);
    assert |sorted| == |multiset(sorted)| == |multiset(distributions)| == |distributions|;
    var outvalues := seq(|sorted|, i requires 0 <= i < |sorted| => sorted[i].1);
    r := Ok(outvalues[..MaxCandidates]);
  }

  /** Every ranked entry is a candidate: a parameter of the range with its own score. */
  lemma RankedEntry(keys: seq<Key>, hashsize: nat, i: nat)
    requires i < ParamLimit - MinParam
    ensures var e := RankedCandidates(keys, hashsize)[i];
            MinParam <= e.1 < ParamLimit && e.0 == Score(keys, hashsize, e.1)
  {
    var e := RankedCandidates(keys, hashsize)[i];
    assert e in multiset(Candidates(keys, hashsize));
  }

  /** The chosen parameters lie in the range, are distinct, come in ascending order of
      score, and no parameter left out scores better than any chosen one. */
  lemma BestParamsFacts(keys: seq<Key>, hashsize: nat)
    ensures forall i :: 0 <= i < MaxCandidates ==> MinParam <= BestParams(keys, hashsize)[i] < ParamLimit
    ensures forall i, j :: 0 <= i < j < MaxCandidates ==>
      BestParams(keys, hashsize)[i] != BestParams(keys, hashsize)[j]
      && Score(keys, hashsize, BestParams(keys, hashsize)[i]) <= Score(keys, hashsize, BestParams(keys, hashsize)[j])
    ensures forall p, i :: MinParam <= p < ParamLimit && p !in BestParams(keys, hashsize) && 0 <= i < MaxCandidates ==>
      Score(keys, hashsize, BestParams(keys, hashsize)[i]) <= Score(keys, hashsize, p)
  {
    var ranked := RankedCandidates(keys, hashsize);
    var best := BestParams(keys, hashsize);
    forall i | 0 <= i < MaxCandidates ensures MinParam <= best[i] < ParamLimit {
      RankedEntry(keys, hashsize, i);
    }
    assert Order.Distinct(Candidates(keys, hashsize));
    forall i, j | 0 <= i < j < MaxCandidates
      ensures best[i] != best[j] && Score(keys, hashsize, best[i]) <= Score(keys, hashsize, best[j])
    {
      RankedEntry(keys, hashsize, i);
      RankedEntry(keys, hashsize, j);
      Order.DistinctCount(Candidates(keys, hashsize), ranked, i, j);
      assert ScoreLe(ranked[i], ranked[j]);
    }
    forall p, i | MinParam <= p < ParamLimit && p !in best && 0 <= i < MaxCandidates
      ensures Score(keys, hashsize, best[i]) <= Score(keys, hashsize, p)
    {
      var c := Candidates(keys, hashsize)[p - MinParam];
      assert c in multiset(ranked);
      var j :| 0 <= j < |ranked| && ranked[j] == c;
      assert forall m :: 0 <= m < MaxCandidates ==> ranked[m].1 != p by {
        forall m | 0 <= m < MaxCandidates ensures ranked[m].1 != p {
          assert best[m] == ranked[m].1 && best[m] in best;
        }
      }
      RankedEntry(keys, hashsize, i);
      assert ScoreLe(ranked[i], ranked[j]);
    }
  }

  /** Whether the pair at positions `i < j` of the best parameters for `hashlen` slots
      builds the tables: no two keys share both buckets and the key graph has no
      cycle. */
  ghost predicate PairWorks(keys: seq<Key>, hashlen: nat, i: nat, j: nat)
  {
    hashlen > 0 && i < j < MaxCandidates
    && !Collides(keys, BestParams(keys, hashlen)[i], BestParams(keys, hashlen)[j], hashlen)
    && !HasCycle(keys, BestParams(keys, hashlen)[i], BestParams(keys, hashlen)[j], hashlen)
  }

  /** The pair at positions `i < j` works for `hashlen` slots and is the first that does
      in the search order: first position ascending, then the second. */
  ghost predicate FirstPair(keys: seq<Key>, hashlen: nat, i: nat, j: nat)
  {
    PairWorks(keys, hashlen, i, j)
    && (forall i': nat, j': nat :: i' < i ==> !PairWorks(keys, hashlen, i', j'))
    && (forall j': nat :: j' < j ==> !PairWorks(keys, hashlen, i, j'))
  }

  /** The triple `(hashlen, i, j)` works and is the first that does in the search order:
      sizes ascending from half the key count, then the pairs in the order above. */
  ghost predicate FirstWorking(keys: seq<Key>, hashlen: nat, i: nat, j: nat)
  {
    FirstPair(keys, hashlen, i, j)
    && forall h: nat, i': nat, j': nat :: |keys| / 2 <= h < hashlen ==> !PairWorks(keys, h, i', j')
  }

  /** The two inner loops of `find_hash_parameters` for one table size: the pairs of the
      best parameters are tried in list order, the earlier one first, and the first pair
      whose construction succeeds is returned, or nothing when none does. */
  method SearchPairs(keys: seq<Key>, hashlen: nat, dist: seq<nat>) returns (found: Option<(nat, nat)>)
    requires hashlen > 0 && |keys| <= Unassigned && dist == BestParams(keys, hashlen)
    ensures found.Some? ==> FirstPair(keys, hashlen, found.value.0, found.value.1)
    ensures found.Some? ==> Solvable(keys, dist[found.value.0], dist[found.value.1], hashlen)
    ensures found.None? ==> forall i: nat, j: nat :: !PairWorks(keys, hashlen, i, j)
  {
    for idx1 := 0 to |dist| - 1
      invariant forall i: nat, j: nat :: i < idx1 ==> !PairWorks(keys, hashlen, i, j)
    {
      var param1 := dist[idx1];
      for idx2 := idx1 + 1 to |dist|
        invariant forall j: nat :: j < idx2 ==> !PairWorks(keys, hashlen, idx1, j)
      {
        var param2 := dist[idx2];
        var attempt := MakePerfectHash(keys, param1, param2, hashlen);
        if attempt.Ok? {
          assert Solves(keys, param1, param2, hashlen, attempt.value.0, attempt.value.1);
          return Some((idx1, idx2));
        }
      }
    }
    found := None;
  }

  /** `find_hash_parameters`: tries table sizes from `n/2` up to `n - 1` and returns the
      first working triple of the search order, or nothing when none works. With a single
      key the only size tried is zero, which is a division by zero. */
  method FindHashParameters(keys: seq<Key>) returns (r: Result<Option<(nat, nat, nat)>>)
    requires |keys| <= Unassigned
    ensures r.Err? <==> |keys| == 1
    ensures |keys| == 0 ==> r == Ok(None)
    ensures r.Ok? && r.value.Some? ==>
      var (hashlen, param1, param2) := r.value.value;
      |keys| / 2 <= hashlen < |keys|
      && (exists i: nat, j: nat :: FirstWorking(keys, hashlen, i, j)
            && param1 == BestParams(keys, hashlen)[i] && param2 == BestParams(keys, hashlen)[j])
      && Solvable(keys, param1, param2, hashlen)
    ensures r == Ok(None) ==>
      forall h: nat, i: nat, j: nat :: |keys| / 2 <= h < |keys| ==> !PairWorks(keys, h, i, j)
  {
    var upperLimit := |keys|;
    var lowerLimit := upperLimit / 2;
    for hashlen := lowerLimit to upperLimit
      invariant |keys| == 1 ==> hashlen == 0
      invariant forall h: nat, i: nat, j: nat :: lowerLimit <= h < hashlen ==> !PairWorks(keys, h, i, j)
    {
      var distvalues := FindBestDistribution(keys, hashlen);
      if distvalues.Err? {
        return Err(distvalues.msg);
      }
      var found := SearchPairs(keys, hashlen, distvalues.value);
      if found.Some? {
        var (idx1, idx2) := found.value;
        assert FirstWorking(keys, hashlen, idx1, idx2);
        return Ok(Some((hashlen, distvalues.value[idx1], distvalues.value[idx2])));
      }
    }
    r := Ok(None);
  }
}
