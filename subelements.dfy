/** The sub-element tables (src/generator/subelements.rs): for every element type the
    version tags of its sub-items and the sub-items themselves, each stored as a run
    in a shared table that reuses an identical earlier run. */
module Subelements {
  import opened Wrappers
  import opened Order
  import opened AutosarTypes
  import opened GeneratorTypes
  import opened Compaction

  /** The number of sub-items of a type; 0 for a name that is not a type. */
  function ItemCount(types: map<string, MergedType>, k: string): nat
  {
    if k in types then |types[k].Items()| else 0
  }

  /** `cmp_grouptypenames_subelems`: types with more sub-items first, equal counts by
      name. Both names are looked up with `unwrap`, so both must be types. */
  function CmpSubelements(k1: string, k2: string, types: map<string, MergedType>): (r: Ordering)
    requires k1 in types && k2 in types
    ensures r == Equal <==> k1 == k2
    ensures r == Less <==>
              |types[k1].Items()| > |types[k2].Items()| ||
              (|types[k1].Items()| == |types[k2].Items()| && StrLess(k1, k2))
  {
    var r := CmpLargerFirst(ItemCount(types, k1), k1, ItemCount(types, k2), k2);
    StrOrderFacts();
    r
  }

  /** The version tag stored for a sub-item: an element's own tag, 0 for a group reference. */
  function VersionOf(item: ElementCollectionItem): Version
  {
    match item
    case ElementItem(e) => e.versionInfo
    case GroupRef(_) => 0
  }

  /** The version tags of a list of sub-items, in order. */
  function ItemVersions(items: seq<ElementCollectionItem>): (r: seq<Version>)
  {
    seq(|items|, i requires 0 <= i < |items| => VersionOf(items[i]))
  }

  /** The table entry for one sub-item: the element's position in the element
      definitions, or the referenced type's position among the alphabetically sorted
      type names. None where the source's `unwrap` would fail. */
  function MapItem(item: ElementCollectionItem, elemIdx: map<SimpleElement, nat>, alphabetical: seq<string>)
    : (r: Option<GroupItem>)
    ensures item.ElementItem? ==> (r.Some? <==> FromElement(item.element) in elemIdx)
    ensures item.ElementItem? && r.Some? ==> r.value == ElementRef(elemIdx[FromElement(item.element)])
    ensures item.GroupRef? ==> (r.Some? <==> item.groupRef in alphabetical)
    ensures item.GroupRef? && r.Some? ==>
              r.value.GroupRef? && r.value.typeIndex < |alphabetical| && alphabetical[r.value.typeIndex] == item.groupRef
  {
    match item
    case ElementItem(e) =>
      var s := FromElement(e);
      if s in elemIdx then Some(ElementRef(elemIdx[s])) else None
    case GroupRef(g) =>
      var p := FirstIndex(alphabetical, g);
      if p.Some? then Some(GroupItem.GroupRef(p.value)) else None
  }

  /** Every sub-item mapped to its table entry, or None when one of them has none. */
  function MapItems(items: seq<ElementCollectionItem>, elemIdx: map<SimpleElement, nat>, alphabetical: seq<string>)
    : (r: Option<seq<GroupItem>>)
    ensures r.Some? <==> forall i :: 0 <= i < |items| ==> MapItem(items[i], elemIdx, alphabetical).Some?
    ensures r.Some? ==> |r.value| == |items|
    ensures r.Some? ==> forall i :: 0 <= i < |items| ==> r.value[i] == MapItem(items[i], elemIdx, alphabetical).value
  {
    if items == [] then Some([])
    else
      var head := MapItem(items[0], elemIdx, alphabetical);
      var tail := MapItems(items[1..], elemIdx, alphabetical);
      if head.None? then None
      else if tail.None? then None
      else Some([head.value] + tail.value)
  }

  /** Every sub-item of every type can be given a table entry: an element occurs among
      the element definitions and a group reference names a type. */
  ghost predicate Resolvable(types: map<string, MergedType>, defs: seq<SimpleElement>)
  {
    forall n, i :: n in types && 0 <= i < |types[n].Items()| ==>
      (types[n].Items()[i].ElementItem? ==> FromElement(types[n].Items()[i].element) in defs) &&
      (types[n].Items()[i].GroupRef? ==> types[n].Items()[i].groupRef in types)
  }

  /** The table entry `g` stands for `item`: the last element definition equal to the
      element, or the position of the referenced type name in `names`, the ascending
      listing of the type names. */
  ghost predicate RefersTo(g: GroupItem, item: ElementCollectionItem, defs: seq<SimpleElement>, names: seq<string>)
  {
    (item.ElementItem? ==>
      g.ElementRef? && g.elementIndex < |defs| && defs[g.elementIndex] == FromElement(item.element) &&
      forall j :: g.elementIndex < j < |defs| ==> defs[j] != FromElement(item.element)) &&
    (item.GroupRef? ==> g.GroupRef? && g.typeIndex < |names| && names[g.typeIndex] == item.groupRef)
  }

  /** A group reference's entry is the number of type names that sort before the
      referenced name. */
  lemma GroupRefRank(g: GroupItem, item: ElementCollectionItem, types: map<string, MergedType>,
                     defs: seq<SimpleElement>, names: seq<string>)
    requires SortedListing(names, types.Keys)
    requires item.GroupRef? && RefersTo(g, item, defs, names)
    ensures g == GroupItem.GroupRef(NameRank(types.Keys, item.groupRef))
  {
    SortedNameRank(names, types.Keys, g.typeIndex);
  }

  datatype SubelementsInfo = SubelementsInfo(
    versionsArray: seq<Version>,
    versionsIndexInfo: map<string, nat>,
    itemRefArray: seq<GroupItem>,
    itemRefInfo: map<string, nat>)

  /** The tables hold the runs of type `n` at the positions its index maps record. */
  ghost predicate RunStored(types: map<string, MergedType>, defs: seq<SimpleElement>, names: seq<string>, n: string,
                            info: SubelementsInfo)
    requires n in types && n in info.versionsIndexInfo && n in info.itemRefInfo
  {
    var items := types[n].Items();
    (items == [] ==> info.versionsIndexInfo[n] == 0 && info.itemRefInfo[n] == 0) &&
    (items != [] ==>
      OccursAt(info.versionsArray, ItemVersions(items), info.versionsIndexInfo[n]) &&
      info.itemRefInfo[n] + |items| <= |info.itemRefArray| &&
      forall i :: 0 <= i < |items| ==> RefersTo(info.itemRefArray[info.itemRefInfo[n] + i], items[i], defs, names))
  }

  /** The tables hold the runs of every type in `done`, and only those are indexed. */
  ghost predicate TablesHold(types: map<string, MergedType>, defs: seq<SimpleElement>, names: seq<string>,
                             done: set<string>, info: SubelementsInfo)
  {
    done <= types.Keys && info.versionsIndexInfo.Keys == done && info.itemRefInfo.Keys == done &&
    forall n {:trigger RunStored(types, defs, names, n, info)} :: n in done ==> RunStored(types, defs, names, n, info)
  }

  /** `info'` extends both tables of `info` at their ends. */
  ghost predicate Extends(info: SubelementsInfo, info': SubelementsInfo)
  {
    |info.versionsArray| <= |info'.versionsArray| && info'.versionsArray[..|info.versionsArray|] == info.versionsArray &&
    |info.itemRefArray| <= |info'.itemRefArray| && info'.itemRefArray[..|info.itemRefArray|] == info.itemRefArray
  }

  /** Appending to both tables keeps every stored run in place. */
  lemma RunKept(types: map<string, MergedType>, defs: seq<SimpleElement>, names: seq<string>, n: string,
                info: SubelementsInfo, info': SubelementsInfo)
    requires n in types && n in info.versionsIndexInfo && n in info.itemRefInfo
    requires n in info'.versionsIndexInfo && n in info'.itemRefInfo
    requires info'.versionsIndexInfo[n] == info.versionsIndexInfo[n] && info'.itemRefInfo[n] == info.itemRefInfo[n]
    requires RunStored(types, defs, names, n, info) && Extends(info, info')
    ensures RunStored(types, defs, names, n, info')
  {
    var items := types[n].Items();
    if items != [] {
      OccursInExtension(info.versionsArray, info'.versionsArray, ItemVersions(items), info.versionsIndexInfo[n]);
      forall i | 0 <= i < |items|
        ensures RefersTo(info'.itemRefArray[info'.itemRefInfo[n] + i], items[i], defs, names)
      {
        assert info'.itemRefArray[info.itemRefInfo[n] + i] == info.itemRefArray[info.itemRefInfo[n] + i];
      }
    }
  }

  /** Recording one more type whose runs are stored keeps the invariant. */
  lemma TablesAdd(types: map<string, MergedType>, defs: seq<SimpleElement>, names: seq<string>, done: set<string>,
                  name: string, info: SubelementsInfo, info': SubelementsInfo)
    requires TablesHold(types, defs, names, done, info) && name in types && name !in done && Extends(info, info')
    requires info'.versionsIndexInfo.Keys == done + {name} && info'.itemRefInfo.Keys == done + {name}
    requires forall n :: n in done ==>
               info'.versionsIndexInfo[n] == info.versionsIndexInfo[n] && info'.itemRefInfo[n] == info.itemRefInfo[n]
    requires RunStored(types, defs, names, name, info')
    ensures TablesHold(types, defs, names, done + {name}, info')
  {
    forall n | n in done ensures RunStored(types, defs, names, n, info') {
      RunKept(types, defs, names, n, info, info');
    }
  }

  /** A mapped sub-item list refers to its items, given the index map the source builds. */
  lemma MappedRefers(items: seq<ElementCollectionItem>, grp: seq<GroupItem>, defs: seq<SimpleElement>,
                     elemIdx: map<SimpleElement, nat>, names: seq<string>)
    requires IsLastIndex(elemIdx, defs)
    requires MapItems(items, elemIdx, names) == Some(grp)
    ensures |grp| == |items|
    ensures forall i :: 0 <= i < |items| ==> RefersTo(grp[i], items[i], defs, names)
  {
  }

  /** A stored copy of entries that refer to `items` refers to them too. */
  lemma RunRefers(table: seq<GroupItem>, pos: nat, grp: seq<GroupItem>, items: seq<ElementCollectionItem>,
                  defs: seq<SimpleElement>, names: seq<string>)
    requires OccursAt(table, grp, pos) && |grp| == |items|
    requires forall i :: 0 <= i < |items| ==> RefersTo(grp[i], items[i], defs, names)
    ensures pos + |items| <= |table|
    ensures forall i :: 0 <= i < |items| ==> RefersTo(table[pos + i], items[i], defs, names)
  {
    forall i | 0 <= i < |items| ensures RefersTo(table[pos + i], items[i], defs, names) {
      assert table[pos + i] == table[pos..pos + |grp|][i] == grp[i];
    }
  }

  /** Every sub-item of the types in `done` has a table entry. */
  ghost predicate AllMapped(types: map<string, MergedType>, done: set<string>, elemIdx: map<SimpleElement, nat>,
                            names: seq<string>)
    requires done <= types.Keys
  {
    forall n, i {:trigger MapItem(types[n].Items()[i], elemIdx, names)} ::
      n in done && 0 <= i < |types[n].Items()| ==> MapItem(types[n].Items()[i], elemIdx, names).Some?
  }

  /** The version tags of a type's sub-items are found in the version table or appended to it. */
  method StoreVersions(items: seq<ElementCollectionItem>, versions: seq<Version>) returns (pos: nat, versions': seq<Version>)
    requires items != []
    ensures |versions| <= |versions'| && versions'[..|versions|] == versions
    ensures OccursAt(versions', ItemVersions(items), pos)
    ensures Compacted(versions, ItemVersions(items), pos, versions')
  {
    pos, versions' := FindOrAppend(versions, ItemVersions(items));
  }

  /** A run of table entries is found in the table or appended to it; entries that
      refer to the sub-items `items` still do so at their stored position. */
  method StoreEntries(itemRefs: seq<GroupItem>, grp: seq<GroupItem>, ghost items: seq<ElementCollectionItem>,
                      ghost defs: seq<SimpleElement>, ghost names: seq<string>)
    returns (pos: nat, itemRefs': seq<GroupItem>)
    requires grp != [] && |grp| == |items|
    requires forall i :: 0 <= i < |items| ==> RefersTo(grp[i], items[i], defs, names)
    ensures |itemRefs| <= |itemRefs'| && itemRefs'[..|itemRefs|] == itemRefs
    ensures OccursAt(itemRefs', grp, pos)
    ensures Compacted(itemRefs, grp, pos, itemRefs')
    ensures pos + |items| <= |itemRefs'|
    ensures forall i :: 0 <= i < |items| ==> RefersTo(itemRefs'[pos + i], items[i], defs, names)
  {
    pos, itemRefs' := FindOrAppend(itemRefs, grp);
    RunRefers(itemRefs', pos, grp, items, defs, names);
  }

  /** The table entries of a type's sub-items are found in the table or appended to it;
      fails when a sub-item has no entry. */
  method StoreItemRefs(defs: seq<SimpleElement>, elemIdx: map<SimpleElement, nat>, names: seq<string>,
                       items: seq<ElementCollectionItem>, itemRefs: seq<GroupItem>)
    returns (r: Result<(nat, seq<GroupItem>)>)
    requires IsLastIndex(elemIdx, defs)
    requires items != []
    ensures r.Err? ==> exists i :: 0 <= i < |items| && MapItem(items[i], elemIdx, names).None?
    ensures r.Ok? ==> forall i :: 0 <= i < |items| ==> MapItem(items[i], elemIdx, names).Some?
    ensures r.Ok? ==> |itemRefs| <= |r.value.1| && r.value.1[..|itemRefs|] == itemRefs
    ensures r.Ok? ==> r.value.0 + |items| <= |r.value.1|
    ensures r.Ok? ==> forall i :: 0 <= i < |items| ==> RefersTo(r.value.1[r.value.0 + i], items[i], defs, names)
  {
    var grp := MapItems(items, elemIdx, names);
    if grp.None? {
      return Err("sub-item without a table entry");
    }
    MappedRefers(items, grp.value, defs, elemIdx, names);
    var pos, itemRefs' := StoreEntries(itemRefs, grp.value, items, defs, names);
    r := Ok((pos, itemRefs'));
  }

  /** When every sub-item of every type has a table entry, the types are resolvable. */
  lemma AllMappedResolvable(types: map<string, MergedType>, defs: seq<SimpleElement>,
                            elemIdx: map<SimpleElement, nat>, names: seq<string>)
    requires IsLastIndex(elemIdx, defs)
    requires forall x :: x in names <==> x in types
    requires AllMapped(types, types.Keys, elemIdx, names)
    ensures Resolvable(types, defs)
  {
    forall n, i | n in types && 0 <= i < |types[n].Items()|
      ensures types[n].Items()[i].ElementItem? ==> FromElement(types[n].Items()[i].element) in defs
      ensures types[n].Items()[i].GroupRef? ==> types[n].Items()[i].groupRef in types
    {
      assert MapItem(types[n].Items()[i], elemIdx, names).Some?;
    }
  }

  /** A type whose runs sit at the positions recorded for it is stored. */
  lemma NewRunStored(types: map<string, MergedType>, defs: seq<SimpleElement>, names: seq<string>, name: string,
                     info: SubelementsInfo)
    requires name in types && types[name].Items() != []
    requires name in info.versionsIndexInfo && name in info.itemRefInfo
    requires OccursAt(info.versionsArray, ItemVersions(types[name].Items()), info.versionsIndexInfo[name])
    requires info.itemRefInfo[name] + |types[name].Items()| <= |info.itemRefArray|
    requires forall i :: 0 <= i < |types[name].Items()| ==>
               RefersTo(info.itemRefArray[info.itemRefInfo[name] + i], types[name].Items()[i], defs, names)
    ensures RunStored(types, defs, names, name, info)
  {
  }

  /** The state of the loop of `build_info` after the types in `done`: their runs are
      stored and each of their sub-items has a table entry. */
  ghost predicate Progress(types: map<string, MergedType>, defs: seq<SimpleElement>, elemIdx: map<SimpleElement, nat>,
                           names: seq<string>, done: set<string>, info: SubelementsInfo)
  {
    TablesHold(types, defs, names, done, info) && AllMapped(types, done, elemIdx, names)
  }

  /** One iteration of the loop of `build_info`: the type's runs are stored, or index
      0 is recorded for a type without sub-items; fails when a sub-item has no table entry. */
  method StoreType(types: map<string, MergedType>, defs: seq<SimpleElement>, elemIdx: map<SimpleElement, nat>,
                   names: seq<string>, ghost done: set<string>, name: string, info: SubelementsInfo)
    returns (r: Result<SubelementsInfo>)
    requires IsLastIndex(elemIdx, defs)
    requires forall x :: x in names <==> x in types
    requires Progress(types, defs, elemIdx, names, done, info) && name in types && name !in done
    ensures r.Err? ==> !Resolvable(types, defs)
    ensures r.Ok? ==> Progress(types, defs, elemIdx, names, done + {name}, r.value)
  {
    var items := types[name].Items();
    var info';
    if items != [] {
      var vpos, versions' := StoreVersions(items, info.versionsArray);
      var step := StoreItemRefs(defs, elemIdx, names, items, info.itemRefArray);
      if step.Err? {
        assert !Resolvable(types, defs) by {
          var i :| 0 <= i < |items| && MapItem(items[i], elemIdx, names).None?;
          assert !(items[i].ElementItem? ==> FromElement(items[i].element) in defs) ||
                 !(items[i].GroupRef? ==> items[i].groupRef in types);
        }
        return Err(step.msg);
      }
      var (ipos, itemRefs') := step.value;
      info' := SubelementsInfo(versions', info.versionsIndexInfo[name := vpos],
                               itemRefs', info.itemRefInfo[name := ipos]);
      NewRunStored(types, defs, names, name, info');
    } else {
      info' := SubelementsInfo(info.versionsArray, info.versionsIndexInfo[name := 0],
                               info.itemRefArray, info.itemRefInfo[name := 0]);
    }
    TablesAdd(types, defs, names, done, name, info, info');
    r := Ok(info');
  }

  /** What the finished tables hold, type by type: both index maps cover exactly the
      types; a type without sub-items is at 0 in both; otherwise the version tags of its
      sub-items occur in the version table at its version index, and from its item index
      on the item table holds, for each sub-item in turn, the entry that refers to it. */
  lemma TablesComplete(types: map<string, MergedType>, defs: seq<SimpleElement>, names: seq<string>,
                       info: SubelementsInfo)
    requires TablesHold(types, defs, names, types.Keys, info)
    ensures info.versionsIndexInfo.Keys == types.Keys && info.itemRefInfo.Keys == types.Keys
    ensures forall n :: n in types && types[n].Items() == [] ==>
              info.versionsIndexInfo[n] == 0 && info.itemRefInfo[n] == 0
    ensures forall n :: n in types && types[n].Items() != [] ==>
              OccursAt(info.versionsArray, ItemVersions(types[n].Items()), info.versionsIndexInfo[n])
    ensures forall n :: n in types && types[n].Items() != [] ==>
              info.itemRefInfo[n] + |types[n].Items()| <= |info.itemRefArray|
    ensures forall n :: n in types && types[n].Items() != [] ==>
              forall i :: 0 <= i < |types[n].Items()| ==>
                RefersTo(info.itemRefArray[info.itemRefInfo[n] + i], types[n].Items()[i], defs, names)
  {
    forall n | n in types ensures RunStored(types, defs, names, n, info) {
    }
  }

  /** After the whole listing of the types is visited, every type is done. */
  lemma ProgressAll(types: map<string, MergedType>, defs: seq<SimpleElement>, elemIdx: map<SimpleElement, nat>,
                    names: seq<string>, order: seq<string>, info: SubelementsInfo)
    requires forall x :: x in order <==> x in types
    requires Progress(types, defs, elemIdx, names, Visited(order, |order|), info)
    ensures Progress(types, defs, elemIdx, names, types.Keys, info)
  {
    VisitedAll(order);
    assert Visited(order, |order|) == types.Keys;
  }

  /** `build_info` for the sub-element tables. Types are visited with more sub-items
      first. A type without sub-items gets index 0 in both index maps; otherwise its
      version tags and its table entries are each looked up as a run in their table
      and appended when absent; a group reference is stored as the position of the
      type name in the ascending listing of all type names. The build fails (the source
      panics) when an element is not among the element definitions or a group
      reference names no type. */
  method BuildInfo(types: map<string, MergedType>, defs: seq<SimpleElement>) returns (r: Result<SubelementsInfo>)
    ensures r.Ok? <==> Resolvable(types, defs)
    ensures r.Ok? ==> forall names :: SortedListing(names, types.Keys) ==> TablesHold(types, defs, names, types.Keys, r.value)
  {
    var elemIdx := LastIndexMap(defs);
    var bySize := SortLargerFirst(types.Keys, k => ItemCount(types, k));
    var alphabetical := SortedStrings(types.Keys);
    r := StoreAll(types, defs, elemIdx, alphabetical, bySize);
    if r.Ok? {
      AllMappedResolvable(types, defs, elemIdx, alphabetical);
      forall names | SortedListing(names, types.Keys)
        ensures TablesHold(types, defs, names, types.Keys, r.value)
      {
        SortedListingUnique(names, alphabetical, types.Keys);
      }
    }
  }

  /** The loop of `build_info`: every type of the listing `order` is stored in turn. */
  method StoreAll(types: map<string, MergedType>, defs: seq<SimpleElement>, elemIdx: map<SimpleElement, nat>,
                  names: seq<string>, order: seq<string>) returns (r: Result<SubelementsInfo>)
    requires IsLastIndex(elemIdx, defs)
    requires forall x :: x in names <==> x in types
    requires forall x :: x in order <==> x in types
    requires Distinct(order)
    ensures r.Err? ==> !Resolvable(types, defs)
    ensures r.Ok? ==> Progress(types, defs, elemIdx, names, types.Keys, r.value)
  {
    var info := SubelementsInfo([], map[], [], map[]);
    for t := 0 to |order|
      invariant Progress(types, defs, elemIdx, names, Visited(order, t), info)
    {
      var name := order[t];
      VisitedFresh(order, t);
      var step := StoreType(types, defs, elemIdx, names, Visited(order, t), name, info);
      if step.Err? {
        return Err(step.msg);
      }
      info := step.value;
    }
    ProgressAll(types, defs, elemIdx, names, order, info);
    r := Ok(info);
  }
}
