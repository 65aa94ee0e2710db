/** Cross-version merge (src/merge.rs): the flattened types of one schema version are
    folded into the accumulated table. New type names are copied in; for a name
    present on both sides, element lists, attribute lists and enum literal lists
    are merged positionally and the version bits of matched entries are OR-ed. */
module Merge {
  import opened Wrappers
  import opened FlatTypes
  import opened ListMerge
  import Order

  /** Every version bit of `x` is set in `y`. */
  predicate BitsIn(x: Version, y: Version)
  {
    x & !y == 0
  }

  // ---------------------------------------------------------------- element items

  function ItemKey(item: ElementCollectionItem): string
  {
    item.Name()
  }

  /** `b` is `a` with possibly more version bits: same kind, every other field equal. */
  ghost predicate ItemGrows(a: ElementCollectionItem, b: ElementCollectionItem)
  {
    match (a, b)
    case (ElementItem(x), ElementItem(y)) =>
      y == x.(versionInfo := y.versionInfo) && BitsIn(x.versionInfo, y.versionInfo)
    case (GroupRef(_), GroupRef(_)) => a == b
    case _ => false
  }

  /** `b` has the key and kind of the incoming item `a` and all of its version bits. */
  ghost predicate ItemCovers(a: ElementCollectionItem, b: ElementCollectionItem)
  {
    match (a, b)
    case (ElementItem(x), ElementItem(y)) => x.name == y.name && BitsIn(x.versionInfo, y.versionInfo)
    case (GroupRef(_), GroupRef(_)) => a == b
    case _ => false
  }

  /** Combining a matched existing item with an incoming one: two elements get the
      union of their version bits, two group references stay as they are, and an
      element matched against a group reference is an error. */
  function CombineItems(cur: ElementCollectionItem, incoming: ElementCollectionItem): (r: Result<ElementCollectionItem>)
    ensures r.Err? <==> cur.ElementItem? != incoming.ElementItem?
    ensures r.Ok? ==> ItemKey(r.value) == ItemKey(cur)
  {
    match (cur, incoming)
    case (ElementItem(x), ElementItem(y)) =>
      Ok(ElementItem(x.(versionInfo := x.versionInfo | y.versionInfo)))
    case (GroupRef(_), GroupRef(_)) => Ok(cur)
    case _ => Err("Error: merge of incompatible types")
  }

  /** A successful combination only adds version bits to the existing item. */
  lemma CombinedItemGrows(cur: ElementCollectionItem, incoming: ElementCollectionItem)
    requires CombineItems(cur, incoming).Ok?
    ensures ItemGrows(cur, CombineItems(cur, incoming).value)
  {
  }

  /** A successful combination carries every version bit of the incoming item. */
  lemma CombinedItemCovers(cur: ElementCollectionItem, incoming: ElementCollectionItem)
    requires CombineItems(cur, incoming).Ok? && ItemKey(incoming) == ItemKey(cur)
    ensures ItemCovers(incoming, CombineItems(cur, incoming).value)
  {
  }

  // ---------------------------------------------------------------- attributes

  function AttrKey(a: Attribute): string
  {
    a.name
  }

  ghost predicate AttrGrows(a: Attribute, b: Attribute)
  {
    b == a.(versionInfo := b.versionInfo) && BitsIn(a.versionInfo, b.versionInfo)
  }

  ghost predicate AttrCovers(a: Attribute, b: Attribute)
  {
    a.name == b.name && BitsIn(a.versionInfo, b.versionInfo)
  }

  function CombineAttributes(cur: Attribute, incoming: Attribute): (r: Result<Attribute>)
    ensures r.Ok? && AttrGrows(cur, r.value) && AttrKey(r.value) == AttrKey(cur)
    ensures AttrKey(incoming) == AttrKey(cur) ==> AttrCovers(incoming, r.value)
  {
    Ok(cur.(versionInfo := cur.versionInfo | incoming.versionInfo))
  }

  // ---------------------------------------------------------------- enum literals

  function LiteralKey(item: (string, Version)): string
  {
    item.0
  }

  ghost predicate LiteralGrows(a: (string, Version), b: (string, Version))
  {
    a.0 == b.0 && BitsIn(a.1, b.1)
  }

  function CombineLiterals(cur: (string, Version), incoming: (string, Version)): (r: Result<(string, Version)>)
    ensures r.Ok? && LiteralGrows(cur, r.value)
    ensures incoming.0 == cur.0 ==> LiteralGrows(incoming, r.value)
  {
    Ok((cur.0, cur.1 | incoming.1))
  }

  // ---------------------------------------------------------------- laws

  lemma ItemLaws()
    ensures KeepsKey(ItemKey, CombineItems)
    ensures GrowthOrder(CombineItems, ItemGrows)
    ensures CoverOrder(ItemKey, CombineItems, ItemGrows, ItemCovers)
  {
    forall a, b | CombineItems(a, b).Ok? ensures ItemGrows(a, CombineItems(a, b).value) {
      CombinedItemGrows(a, b);
    }
    forall a, b | ItemKey(a) == ItemKey(b) && CombineItems(a, b).Ok?
      ensures ItemCovers(b, CombineItems(a, b).value)
    {
      CombinedItemCovers(a, b);
    }
  }

  lemma AttrLaws()
    ensures KeepsKey(AttrKey, CombineAttributes)
    ensures GrowthOrder(CombineAttributes, AttrGrows)
    ensures CoverOrder(AttrKey, CombineAttributes, AttrGrows, AttrCovers)
    ensures forall a, b :: CombineAttributes(a, b).Ok?
  {
  }

  lemma LiteralLaws()
    ensures KeepsKey(LiteralKey, CombineLiterals)
    ensures GrowthOrder(CombineLiterals, LiteralGrows)
    ensures CoverOrder(LiteralKey, CombineLiterals, LiteralGrows, LiteralGrows)
    ensures forall a, b :: CombineLiterals(a, b).Ok?
  {
  }

  // ---------------------------------------------------------------- collections

  /** Both collections are choices, or both are sequences. */
  predicate SameShape(a: ElementCollection, b: ElementCollection)
  {
    a.Choice? == b.Choice?
  }

  /** `b` is `a` with its item list grown: same kind, name and amount, every old item
      still present in order with only more version bits. */
  ghost predicate CollectionGrows(a: ElementCollection, b: ElementCollection)
  {
    b == a.(subElements := b.subElements) && Embeds(a.subElements, b.subElements, ItemGrows)
  }

  /** `merge_element_collection`: collections of different shapes are left alone;
      otherwise the incoming items are merged into the existing ones. */
  function MergedCollection(cur: ElementCollection, incoming: ElementCollection): (r: Result<ElementCollection>)
    ensures !SameShape(cur, incoming) ==> r == Ok(cur)
    ensures r.Ok? ==> CollectionGrows(cur, r.value)
    ensures r.Ok? && SameShape(cur, incoming) ==>
      KeySet(r.value.subElements, ItemKey) == KeySet(cur.subElements, ItemKey) + KeySet(incoming.subElements, ItemKey)
    ensures r.Ok? && SameShape(cur, incoming) ==>
      forall x :: x in incoming.subElements ==> exists y :: y in r.value.subElements && ItemCovers(x, y)
  {
    ItemLaws();
    if SameShape(cur, incoming) then
      MergeKeys(cur.subElements, 0, incoming.subElements, ItemKey, CombineItems);
      MergeEmbeds(cur.subElements, 0, incoming.subElements, ItemKey, CombineItems, ItemGrows);
      MergeCovers(cur.subElements, 0, incoming.subElements, ItemKey, CombineItems, ItemGrows, ItemCovers);
      match MergeInto(cur.subElements, 0, incoming.subElements, ItemKey, CombineItems)
      case Ok(items) => Ok(cur.(subElements := items))
      case Err(e) => Err(e)
    else
      EmbedsRefl(cur.subElements, ItemGrows);
      Ok(cur)
  }

  method MergeElementCollection(cur: ElementCollection, incoming: ElementCollection) returns (r: Result<ElementCollection>)
    ensures r == MergedCollection(cur, incoming)
  {
    if SameShape(cur, incoming) {
      var items := MergeList(cur.subElements, incoming.subElements, ItemKey, CombineItems);
      if items.Err? {
        return Err(items.msg);
      }
      r := Ok(cur.(subElements := items.value));
    } else {
      r := Ok(cur);
    }
  }

  /** An element and a group reference that share a name make the merge fail as soon
      as the incoming one is matched against the existing one. */
  lemma KindClashFails(cur: ElementCollection, incoming: ElementCollection, i: nat)
    requires SameShape(cur, incoming) && |incoming.subElements| > 0
    requires FirstWithKey(cur.subElements, ItemKey(incoming.subElements[0]), ItemKey) == Some(i)
    requires cur.subElements[i].ElementItem? != incoming.subElements[0].ElementItem?
    ensures MergedCollection(cur, incoming).Err?
  {
  }

  function IsElement(item: ElementCollectionItem): bool
  {
    item.ElementItem?
  }

  /** Without such a clash anywhere in the two lists the merge succeeds. */
  lemma NoKindClashSucceeds(cur: ElementCollection, incoming: ElementCollection)
    requires TagConsistent(cur.subElements + incoming.subElements, ItemKey, IsElement)
    ensures MergedCollection(cur, incoming).Ok?
  {
    if SameShape(cur, incoming) {
      assert TagRespecting(ItemKey, CombineItems, IsElement);
      MergeSucceeds(cur.subElements, 0, incoming.subElements, ItemKey, CombineItems, IsElement);
    }
  }

  // ---------------------------------------------------------------- attributes and enums

  /** `merge_attributes`: never fails; keeps every attribute, in order, adding only
      version bits, and adds the incoming attributes whose names are new. */
  function MergedAttributes(cur: seq<Attribute>, incoming: seq<Attribute>): (r: seq<Attribute>)
    ensures KeySet(r, AttrKey) == KeySet(cur, AttrKey) + KeySet(incoming, AttrKey)
    ensures Embeds(cur, r, AttrGrows)
    ensures forall x :: x in incoming ==> exists y :: y in r && AttrCovers(x, y)
  {
    AttrLaws();
    MergeTotal(cur, 0, incoming, AttrKey, CombineAttributes);
    MergeKeys(cur, 0, incoming, AttrKey, CombineAttributes);
    MergeEmbeds(cur, 0, incoming, AttrKey, CombineAttributes, AttrGrows);
    MergeCovers(cur, 0, incoming, AttrKey, CombineAttributes, AttrGrows, AttrCovers);
    MergeInto(cur, 0, incoming, AttrKey, CombineAttributes).value
  }

  method MergeAttributes(cur: seq<Attribute>, incoming: seq<Attribute>) returns (r: seq<Attribute>)
    ensures r == MergedAttributes(cur, incoming)
  {
    var merged := MergeList(cur, incoming, AttrKey, CombineAttributes);
    AttrLaws();
    MergeTotal(cur, 0, incoming, AttrKey, CombineAttributes);
    r := merged.value;
  }

  /** `merge_enums`: enums of different names do not merge; otherwise the literal
      lists are merged like attribute lists. */
  function MergedEnum(cur: EnumDefinition, incoming: EnumDefinition): (r: Result<EnumDefinition>)
    ensures r.Err? <==> cur.name != incoming.name
    ensures r.Ok? ==> r.value.name == cur.name && Embeds(cur.enumitems, r.value.enumitems, LiteralGrows)
    ensures r.Ok? ==>
      KeySet(r.value.enumitems, LiteralKey) == KeySet(cur.enumitems, LiteralKey) + KeySet(incoming.enumitems, LiteralKey)
    ensures r.Ok? ==> forall x :: x in incoming.enumitems ==> exists y :: y in r.value.enumitems && LiteralGrows(x, y)
  {
    if cur.name != incoming.name then Err("warning: enum name mismatch")
    else
      LiteralLaws();
      MergeTotal(cur.enumitems, 0, incoming.enumitems, LiteralKey, CombineLiterals);
      MergeKeys(cur.enumitems, 0, incoming.enumitems, LiteralKey, CombineLiterals);
      MergeEmbeds(cur.enumitems, 0, incoming.enumitems, LiteralKey, CombineLiterals, LiteralGrows);
      MergeCovers(cur.enumitems, 0, incoming.enumitems, LiteralKey, CombineLiterals, LiteralGrows, LiteralGrows);
      Ok(cur.(enumitems := MergeInto(cur.enumitems, 0, incoming.enumitems, LiteralKey, CombineLiterals).value))
  }

  method MergeEnums(cur: EnumDefinition, incoming: EnumDefinition) returns (r: Result<EnumDefinition>)
    ensures r == MergedEnum(cur, incoming)
  {
    if cur.name != incoming.name {
      return Err("warning: enum name mismatch");
    }
    var items := MergeList(cur.enumitems, incoming.enumitems, LiteralKey, CombineLiterals);
    LiteralLaws();
    MergeTotal(cur.enumitems, 0, incoming.enumitems, LiteralKey, CombineLiterals);
    r := Ok(cur.(enumitems := items.value));
  }

  // ---------------------------------------------------------------- types

  /** Both types are of the same kind. */
  predicate SameKind(a: DataType, b: DataType)
  {
    (a.Elements? && b.Elements?) || (a.Characters? && b.Characters?) || (a.Mixed? && b.Mixed?)
    || (a.Enum? && b.Enum?) || (a.ElementsGroup? && b.ElementsGroup?)
  }

  /** `b` is `a` after merging: same kind and every non-list field kept, the element,
      attribute and literal lists only grown. */
  ghost predicate TypeGrows(a: DataType, b: DataType)
  {
    match a
    case Elements(c, attrs) =>
      b.Elements? && CollectionGrows(c, b.collection) && Embeds(attrs, b.attributes, AttrGrows)
    case Characters(_, _, _, _) => b == a
    case Mixed(c, attrs, base) =>
      b.Mixed? && b.basetype == base && CollectionGrows(c, b.collection) && Embeds(attrs, b.attributes, AttrGrows)
    case Enum(e) =>
      b.Enum? && b.enumDef.name == e.name && Embeds(e.enumitems, b.enumDef.enumitems, LiteralGrows)
    case ElementsGroup(c) => b.ElementsGroup? && CollectionGrows(c, b.collection)
  }

  lemma TypeGrowsRefl(t: DataType)
    ensures TypeGrows(t, t)
  {
    ItemLaws();
    AttrLaws();
    LiteralLaws();
    match t
    case Elements(c, attrs) =>
      EmbedsRefl(c.subElements, ItemGrows);
      EmbedsRefl(attrs, AttrGrows);
    case Mixed(c, attrs, _) =>
      EmbedsRefl(c.subElements, ItemGrows);
      EmbedsRefl(attrs, AttrGrows);
    case Enum(e) =>
      EmbedsRefl(e.enumitems, LiteralGrows);
    case ElementsGroup(c) =>
      EmbedsRefl(c.subElements, ItemGrows);
    case Characters(_, _, _, _) =>
  }

  /** `merge_element_types`: merges two definitions of one type name. Only a failed
      element-list merge or an enum name mismatch is an error; two character types,
      or two types of different kinds, leave the existing definition unchanged. */
  function MergedType(cur: DataType, incoming: DataType): (r: Result<DataType>)
    ensures !SameKind(cur, incoming) || cur.Characters? ==> r == Ok(cur)
    ensures r.Ok? ==> TypeGrows(cur, r.value)
    ensures cur.Enum? && incoming.Enum? ==> (r.Err? <==> cur.enumDef.name != incoming.enumDef.name)
    ensures SameKind(cur, incoming) && cur.Collection().Some? ==>
      (r.Err? <==> MergedCollection(cur.collection, incoming.collection).Err?)
  {
    TypeGrowsRefl(cur);
    match (cur, incoming)
    case (Elements(c, a), Elements(c2, a2)) =>
      (match MergedCollection(c, c2)
       case Ok(c') => Ok(Elements(c', MergedAttributes(a, a2)))
       case Err(e) => Err(e))
    case (Mixed(c, a, base), Mixed(c2, a2, _)) =>
      (match MergedCollection(c, c2)
       case Ok(c') => Ok(Mixed(c', MergedAttributes(a, a2), base))
       case Err(e) => Err(e))
    case (Characters(_, _, _, _), Characters(_, _, _, _)) => Ok(cur)
    case (Enum(e), Enum(e2)) =>
      (match MergedEnum(e, e2)
       case Ok(e') => Ok(Enum(e'))
       case Err(msg) => Err(msg))
    case (ElementsGroup(c), ElementsGroup(c2)) =>
      (match MergedCollection(c, c2)
       case Ok(c') => Ok(ElementsGroup(c'))
       case Err(e) => Err(e))
    case _ => Ok(cur)
  }

  method MergeElementTypes(cur: DataType, incoming: DataType) returns (r: Result<DataType>)
    ensures r == MergedType(cur, incoming)
  {
    match (cur, incoming)
    case (Elements(c, a), Elements(c2, a2)) =>
      var c' := MergeElementCollection(c, c2);
      if c'.Err? {
        return Err(c'.msg);
      }
      var a' := MergeAttributes(a, a2);
      r := Ok(Elements(c'.value, a'));
    case (Mixed(c, a, base), Mixed(c2, a2, _)) =>
      var c' := MergeElementCollection(c, c2);
      if c'.Err? {
        return Err(c'.msg);
      }
      var a' := MergeAttributes(a, a2);
      r := Ok(Mixed(c'.value, a', base));
    case (Characters(_, _, _, _), Characters(_, _, _, _)) =>
      r := Ok(cur);
    case (Enum(e), Enum(e2)) =>
      var e' := MergeEnums(e, e2);
      if e'.Err? {
        return Err(e'.msg);
      }
      r := Ok(Enum(e'.value));
    case (ElementsGroup(c), ElementsGroup(c2)) =>
      var c' := MergeElementCollection(c, c2);
      if c'.Err? {
        return Err(c'.msg);
      }
      r := Ok(ElementsGroup(c'.value));
    case _ =>
      r := Ok(cur);
  }

  // ---------------------------------------------------------------- tables

  /** Every name defined on both sides merges without error. */
  ghost predicate AllMergeable(base: map<string, DataType>, input: map<string, DataType>)
  {
    forall k :: k in base && k in input ==> MergedType(base[k], input[k]).Ok?
  }

  /** The entry a name has once it has been processed. */
  ghost function MergedEntry(base: map<string, DataType>, input: map<string, DataType>, k: string): DataType
    requires k in base || k in input
  {
    if k in base && k in input then
      (if MergedType(base[k], input[k]).Ok? then MergedType(base[k], input[k]).value else base[k])
    else if k in base then base[k]
    else input[k]
  }

  /** The state of the merge loop once the names in `done` have been processed. */
  ghost predicate Progress(base: map<string, DataType>, input: map<string, DataType>,
                           merged: map<string, DataType>, done: set<string>)
  {
    merged.Keys == base.Keys + (input.Keys * done)
    && (forall k :: k in merged ==> merged[k] == (if k in done then MergedEntry(base, input, k) else base[k]))
    && (forall k :: k in done && k in base && k in input ==> MergedType(base[k], input[k]).Ok?)
  }

  /** Processing one more name keeps the loop state. */
  lemma ProgressStep(base: map<string, DataType>, input: map<string, DataType>,
                     merged: map<string, DataType>, done: set<string>, name: string, merged': map<string, DataType>)
    requires Progress(base, input, merged, done) && name !in done && (name in base || name in input)
    requires name !in merged ==> merged' == merged[name := input[name]]
    requires name in merged && name !in input ==> merged' == merged
    requires name in merged && name in input ==>
      MergedType(merged[name], input[name]).Ok? && merged' == merged[name := MergedType(merged[name], input[name]).value]
    ensures Progress(base, input, merged', done + {name})
  {
  }

  /** One iteration of the merge loop: the entry for `name` is copied in, kept, or merged. */
  method MergeName(base: map<string, DataType>, input: map<string, DataType>, merged: map<string, DataType>,
                   ghost done: set<string>, name: string) returns (r: Result<map<string, DataType>>)
    requires Progress(base, input, merged, done)
    requires name !in done && (name in base || name in input)
    ensures r.Ok? ==> Progress(base, input, r.value, done + {name})
    ensures r.Err? ==> !AllMergeable(base, input)
  {
    if name !in merged {
      r := Ok(merged[name := input[name]]);
    } else if name in input {
      var t := MergeElementTypes(merged[name], input[name]);
      if t.Err? {
        assert merged[name] == base[name];
        return Err(t.msg);
      }
      r := Ok(merged[name := t.value]);
    } else {
      r := Ok(merged);
    }
    ProgressStep(base, input, merged, done, name, r.value);
  }

  /** The union of both key sets, in ascending order. */
  method TypeNames(base: map<string, DataType>, input: map<string, DataType>) returns (names: seq<string>)
    ensures forall k :: k in names <==> k in base || k in input
    ensures Order.Distinct(names)
  {
    names := Order.SortedStrings(base.Keys + input.Keys);
  }

  /** Once every name has been processed, the merged table holds the merged entry of
      every name on both sides, and every such name merges. */
  lemma MergeComplete(base: map<string, DataType>, input: map<string, DataType>, merged: map<string, DataType>)
    requires Progress(base, input, merged, base.Keys + input.Keys)
    ensures AllMergeable(base, input)
    ensures merged.Keys == base.Keys + input.Keys
    ensures forall k :: k in base && k !in input ==> merged[k] == base[k]
    ensures forall k :: k in input && k !in base ==> merged[k] == input[k]
    ensures forall k :: k in base && k in input ==>
      merged[k] == MergedType(base[k], input[k]).value && TypeGrows(base[k], merged[k])
  {
    forall k | k in base && k in input
      ensures merged[k] == MergedType(base[k], input[k]).value && TypeGrows(base[k], merged[k])
    {
    }
  }

  /** `merge`: visits the union of both key sets in ascending order. Names only in
      the input are copied in, names only in the base are left alone, and names on
      both sides are merged; the first failing merge aborts. */
  method Merge(base: map<string, DataType>, input: map<string, DataType>) returns (r: Result<map<string, DataType>>)
    ensures r.Ok? <==> AllMergeable(base, input)
    ensures r.Ok? ==> r.value.Keys == base.Keys + input.Keys
    ensures r.Ok? ==> forall k :: k in base && k !in input ==> r.value[k] == base[k]
    ensures r.Ok? ==> forall k :: k in input && k !in base ==> r.value[k] == input[k]
    ensures r.Ok? ==> forall k :: k in base && k in input ==>
      r.value[k] == MergedType(base[k], input[k]).value && TypeGrows(base[k], r.value[k])
    ensures r.Ok? ==> r.value == MergedTable(base, input)
  {
    var names := TypeNames(base, input);
    r := MergeAll(base, input, names);
    if r.Ok? {
      MergeComplete(base, input, r.value);
    }
  }

  /** The table `merge` produces when every shared name merges. */
  ghost function MergedTable(base: map<string, DataType>, input: map<string, DataType>): map<string, DataType>
  {
    map k | k in base.Keys + input.Keys :: MergedEntry(base, input, k)
  }

  /** The loop of `merge` over the listing `names` of both key sets. */
  method MergeAll(base: map<string, DataType>, input: map<string, DataType>, names: seq<string>)
    returns (r: Result<map<string, DataType>>)
    requires forall k :: k in names <==> k in base || k in input
    requires Order.Distinct(names)
    ensures r.Err? ==> !AllMergeable(base, input)
    ensures r.Ok? ==> Progress(base, input, r.value, base.Keys + input.Keys)
  {
    var merged := base;
    for i := 0 to |names|
      invariant Progress(base, input, merged, Order.Visited(names, i))
    {
      var name := names[i];
      Order.VisitedFresh(names, i);
      var step := MergeName(base, input, merged, Order.Visited(names, i), name);
      if step.Err? {
        return Err(step.msg);
      }
      merged := step.value;
    }
    Order.VisitedAll(names);
    assert Order.Visited(names, |names|) == base.Keys + input.Keys;
    return Ok(merged);
  }

  // ---------------------------------------------------------------- all versions

  /** The sequence back to front. */
  function Reversed<T>(s: seq<T>): (r: seq<T>)
    ensures |r| == |s|
    ensures forall j :: 0 <= j < |s| ==> r[j] == s[|s| - 1 - j]
  {
    if s == [] then [] else [s[|s| - 1]] + Reversed(s[..|s| - 1])
  }

  /** Taking one more element of a prefix puts it at the front of the reversal. */
  lemma ReversedPrefixStep<T>(s: seq<T>, i: nat)
    requires 0 < i <= |s|
    ensures Reversed(s[..i]) == [s[i - 1]] + Reversed(s[..i - 1])
  {
    assert s[..i][..i - 1] == s[..i - 1];
  }

  /** Folding the tables `inputs`, in this order, into `acc`; the first failing merge
      is the result. */
  ghost function MergeFold(acc: map<string, DataType>, inputs: seq<map<string, DataType>>): Result<map<string, DataType>>
    decreases |inputs|
  {
    if inputs == [] then Ok(acc)
    else if AllMergeable(acc, inputs[0]) then MergeFold(MergedTable(acc, inputs[0]), inputs[1..])
    else Err("merge failed")
  }

  /** Every name any of the tables defines. */
  ghost function AllNames(tables: seq<map<string, DataType>>): set<string>
  {
    set i, k | 0 <= i < |tables| && k in tables[i] :: k
  }

  /** A successful fold defines exactly the names of the accumulator and the inputs. */
  lemma {:induction false} MergeFoldNames(acc: map<string, DataType>, inputs: seq<map<string, DataType>>)
    ensures MergeFold(acc, inputs).Ok? ==> MergeFold(acc, inputs).value.Keys == acc.Keys + AllNames(inputs)
    decreases |inputs|
  {
    if inputs != [] && AllMergeable(acc, inputs[0]) {
      MergeFoldNames(MergedTable(acc, inputs[0]), inputs[1..]);
      assert AllNames(inputs) == inputs[0].Keys + AllNames(inputs[1..]) by {
        forall k | k in AllNames(inputs) ensures k in inputs[0].Keys + AllNames(inputs[1..]) {
          var i :| 0 <= i < |inputs| && k in inputs[i];
          if i > 0 {
            assert inputs[1..][i - 1] == inputs[i];
          }
        }
        forall k | k in AllNames(inputs[1..]) ensures k in AllNames(inputs) {
          var i :| 0 <= i < |inputs[1..]| && k in inputs[1..][i];
          assert inputs[i + 1] == inputs[1..][i];
        }
      }
    }
  }

  /** The driver of `core` once every schema version is flattened: the last (newest)
      version is the base, and the others are merged into it from the newest to the
      oldest. There is no base when no schema was loaded, which the source unwraps. */
  method MergeVersions(schemas: seq<map<string, DataType>>) returns (r: Result<map<string, DataType>>)
    ensures schemas == [] ==> r.Err?
    ensures schemas != [] ==> (r.Ok? <==> MergeFold(schemas[|schemas| - 1], Reversed(schemas[..|schemas| - 1])).Ok?)
    ensures r.Ok? ==> r.value == MergeFold(schemas[|schemas| - 1], Reversed(schemas[..|schemas| - 1])).value
  {
    if schemas == [] {
      return Err("no schema was loaded");
    }
    var n := |schemas|;
    var acc := schemas[n - 1];
    var i := n - 1;
    while i > 0
      invariant 0 <= i <= n - 1
      invariant MergeFold(acc, Reversed(schemas[..i])) == MergeFold(schemas[n - 1], Reversed(schemas[..n - 1]))
    {
      ReversedPrefixStep(schemas, i);
      var step := Merge(acc, schemas[i - 1]);
      if step.Err? {
        return Err(step.msg);
      }
      acc := step.value;
      i := i - 1;
    }
    r := Ok(acc);
  }

  /** A successful merge of all versions defines every name of every version. */
  lemma MergeVersionsNames(schemas: seq<map<string, DataType>>)
    requires schemas != []
    ensures var r := MergeFold(schemas[|schemas| - 1], Reversed(schemas[..|schemas| - 1]));
      r.Ok? ==> r.value.Keys == AllNames(schemas)
  {
    var n := |schemas|;
    var rest := Reversed(schemas[..n - 1]);
    MergeFoldNames(schemas[n - 1], rest);
    forall k | k in AllNames(schemas) ensures k in schemas[n - 1].Keys + AllNames(rest) {
      var i :| 0 <= i < n && k in schemas[i];
      if i < n - 1 {
        assert rest[n - 2 - i] == schemas[i];
      }
    }
    forall k | k in AllNames(rest) ensures k in AllNames(schemas) {
      var j :| 0 <= j < |rest| && k in rest[j];
      assert rest[j] == schemas[n - 2 - j];
    }
  }
}
