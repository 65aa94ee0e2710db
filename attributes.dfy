/** The attribute tables (src/generator/attributes.rs): for every element type the
    version tags of its attributes, kept in the version table shared with the
    sub-element tables, and its attributes without their version tags, each stored as
    a run that reuses an identical earlier run. */
module Attributes {
  import opened Wrappers
  import opened Order
  import opened AutosarTypes
  import opened GeneratorTypes
  import opened Compaction

  /** The number of attributes of a type; 0 for a name that is not a type. */
  function AttrCount(types: map<string, MergedType>, k: string): nat
  {
    if k in types then |types[k].Attributes()| else 0
  }

  /** `cmp_elemtypenames_attrs`: types with more attributes first, equal counts by
      name; a name that is not a type counts as having no attributes. */
  function CmpAttributes(k1: string, k2: string, types: map<string, MergedType>): (r: Ordering)
    ensures r == Equal <==> k1 == k2
    ensures r == Less <==>
              AttrCount(types, k1) > AttrCount(types, k2) ||
              (AttrCount(types, k1) == AttrCount(types, k2) && StrLess(k1, k2))
  {
    var r := CmpLargerFirst(AttrCount(types, k1), k1, AttrCount(types, k2), k2);
    StrOrderFacts();
    r
  }

  /** The version tags of a list of attributes, in order. */
  function AttrVersions(attrs: seq<Attribute>): (r: seq<Version>)
  {
    seq(|attrs|, i requires 0 <= i < |attrs| => attrs[i].versionInfo)
  }

  /** The attributes with every version tag cleared. */
  function Stripped(attrs: seq<Attribute>): (r: seq<Attribute>)
  {
    seq(|attrs|, i requires 0 <= i < |attrs| => attrs[i].(versionInfo := 0))
  }

  /** Clearing the tags keeps the length and every other field, and leaves tag 0. */
  lemma StrippedFacts(attrs: seq<Attribute>)
    ensures |Stripped(attrs)| == |attrs|
    ensures forall i :: 0 <= i < |attrs| ==>
              Stripped(attrs)[i].versionInfo == 0 &&
              Stripped(attrs)[i].name == attrs[i].name &&
              Stripped(attrs)[i].attrType == attrs[i].attrType &&
              Stripped(attrs)[i].required == attrs[i].required
  {
  }

  /** Lists that differ only in their version tags have the same stripped run, which is
      what lets the table share a run between types with different tags. */
  lemma StrippedIgnoresVersions(a: seq<Attribute>, b: seq<Attribute>)
    requires |a| == |b|
    requires forall i :: 0 <= i < |a| ==>
               a[i].name == b[i].name && a[i].attrType == b[i].attrType && a[i].required == b[i].required
    ensures Stripped(a) == Stripped(b)
  {
    assert forall i :: 0 <= i < |a| ==> Stripped(a)[i] == Stripped(b)[i];
  }

  /** A stripped list together with its version tags gives back the original list. */
  lemma StrippedRoundTrip(attrs: seq<Attribute>)
    ensures |Stripped(attrs)| == |AttrVersions(attrs)| == |attrs|
    ensures forall i :: 0 <= i < |attrs| ==> Stripped(attrs)[i].(versionInfo := AttrVersions(attrs)[i]) == attrs[i]
  {
  }

  /** `iter_mut().for_each(|attr| attr.version_info = 0)` on a copy of the attributes. */
  method StripVersions(attrs: seq<Attribute>) returns (r: seq<Attribute>)
    ensures r == Stripped(attrs)
  {
    r := attrs;
    var i := 0;
    while i < |r|
      invariant 0 <= i <= |r| == |attrs|
      invariant forall j :: 0 <= j < i ==> r[j] == attrs[j].(versionInfo := 0)
      invariant forall j :: i <= j < |r| ==> r[j] == attrs[j]
    {
      r := r[i := r[i].(versionInfo := 0)];
      i := i + 1;
    }
  }

  datatype AttributeInfo = AttributeInfo(
    attributesArray: seq<Attribute>,
    attributesIndexInfo: map<string, (nat, nat)>,
    attrVerIndexInfo: map<string, nat>)

  /** The tables hold the runs of type `n`: a type without attributes is at (0, 0) and 0;
      otherwise its version tags occur in `versions` at its version index and its
      stripped attributes occupy exactly its index range of the attribute table. */
  ghost predicate RunStored(types: map<string, MergedType>, n: string, versions: seq<Version>, info: AttributeInfo)
    requires n in types && n in info.attributesIndexInfo && n in info.attrVerIndexInfo
  {
    var attrs := types[n].Attributes();
    var (lo, hi) := info.attributesIndexInfo[n];
    (attrs == [] ==> lo == 0 && hi == 0 && info.attrVerIndexInfo[n] == 0) &&
    (attrs != [] ==>
      OccursAt(versions, AttrVersions(attrs), info.attrVerIndexInfo[n]) &&
      hi == lo + |attrs| && OccursAt(info.attributesArray, Stripped(attrs), lo))
  }

  /** The tables hold the runs of every type in `done`, and only those are indexed. */
  ghost predicate TablesHold(types: map<string, MergedType>, done: set<string>, versions: seq<Version>,
                             info: AttributeInfo)
  {
    done <= types.Keys && info.attributesIndexInfo.Keys == done && info.attrVerIndexInfo.Keys == done &&
    forall n {:trigger RunStored(types, n, versions, info)} :: n in done ==> RunStored(types, n, versions, info)
  }

  /** `versions'` and `info'` extend `versions` and the attribute table of `info` at their ends. */
  ghost predicate Extends(versions: seq<Version>, info: AttributeInfo, versions': seq<Version>, info': AttributeInfo)
  {
    |versions| <= |versions'| && versions'[..|versions|] == versions &&
    |info.attributesArray| <= |info'.attributesArray| &&
    info'.attributesArray[..|info.attributesArray|] == info.attributesArray
  }

  /** Appending to both tables keeps a stored run in place. */
  lemma RunKept(types: map<string, MergedType>, n: string, versions: seq<Version>, info: AttributeInfo,
                versions': seq<Version>, info': AttributeInfo)
    requires n in types && n in info.attributesIndexInfo && n in info.attrVerIndexInfo
    requires n in info'.attributesIndexInfo && n in info'.attrVerIndexInfo
    requires info'.attributesIndexInfo[n] == info.attributesIndexInfo[n]
    requires info'.attrVerIndexInfo[n] == info.attrVerIndexInfo[n]
    requires RunStored(types, n, versions, info) && Extends(versions, info, versions', info')
    ensures RunStored(types, n, versions', info')
  {
    var attrs := types[n].Attributes();
    if attrs != [] {
      OccursInExtension(versions, versions', AttrVersions(attrs), info.attrVerIndexInfo[n]);
      OccursInExtension(info.attributesArray, info'.attributesArray, Stripped(attrs), info.attributesIndexInfo[n].0);
    }
  }

  /** Recording one more type whose runs are stored keeps the invariant. */
  lemma TablesAdd(types: map<string, MergedType>, done: set<string>, name: string, versions: seq<Version>,
                  info: AttributeInfo, versions': seq<Version>, info': AttributeInfo)
    requires TablesHold(types, done, versions, info) && name in types && name !in done
    requires Extends(versions, info, versions', info')
    requires info'.attributesIndexInfo.Keys == done + {name} && info'.attrVerIndexInfo.Keys == done + {name}
    requires forall n :: n in done ==>
               info'.attributesIndexInfo[n] == info.attributesIndexInfo[n] &&
               info'.attrVerIndexInfo[n] == info.attrVerIndexInfo[n]
    requires RunStored(types, name, versions', info')
    ensures TablesHold(types, done + {name}, versions', info')
  {
    forall n | n in done ensures RunStored(types, n, versions', info') {
      RunKept(types, n, versions, info, versions', info');
    }
  }

  /** One iteration of the loop of `build_info`: a type without attributes is recorded at
      (0, 0) and 0; otherwise its version tags and its stripped attributes are each
      looked up as a run and appended when absent. */
  method StoreType(types: map<string, MergedType>, ghost done: set<string>, name: string,
                   versions: seq<Version>, info: AttributeInfo)
    returns (versions': seq<Version>, info': AttributeInfo)
    requires TablesHold(types, done, versions, info) && name in types && name !in done
    ensures TablesHold(types, done + {name}, versions', info')
    ensures |versions| <= |versions'| && versions'[..|versions|] == versions
    ensures types[name].Attributes() != [] ==>
      name in info'.attrVerIndexInfo && name in info'.attributesIndexInfo
      && Compacted(versions, AttrVersions(types[name].Attributes()), info'.attrVerIndexInfo[name], versions')
      && Compacted(info.attributesArray, Stripped(types[name].Attributes()),
                   info'.attributesIndexInfo[name].0, info'.attributesArray)
  {
    var attrs := types[name].Attributes();
    if attrs != [] {
      var vpos;
      vpos, versions' := FindOrAppend(versions, AttrVersions(attrs));
      var copy := StripVersions(attrs);
      var pos, table := FindOrAppend(info.attributesArray, copy);
      info' := AttributeInfo(table, info.attributesIndexInfo[name := (pos, pos + |copy|)],
                             info.attrVerIndexInfo[name := vpos]);
    } else {
      versions' := versions;
      info' := AttributeInfo(info.attributesArray, info.attributesIndexInfo[name := (0, 0)],
                             info.attrVerIndexInfo[name := 0]);
    }
    TablesAdd(types, done, name, versions, info, versions', info');
  }

  /** After the whole listing of the types is visited, every type is done. */
  lemma TablesAll(types: map<string, MergedType>, order: seq<string>, versionsIn: seq<Version>,
                  versions: seq<Version>, info: AttributeInfo)
    requires forall x :: x in order <==> x in types
    requires Progress(types, Visited(order, |order|), versionsIn, versions, info)
    ensures Progress(types, types.Keys, versionsIn, versions, info)
  {
    VisitedAll(order);
    assert Visited(order, |order|) == types.Keys;
  }

  /** The state of the loop of `build_info` after the types in `done`: their runs are
      stored and the version table passed in is still at the start of the version table. */
  ghost predicate Progress(types: map<string, MergedType>, done: set<string>, versionsIn: seq<Version>,
                           versions: seq<Version>, info: AttributeInfo)
  {
    TablesHold(types, done, versions, info) && IsPrefix(versionsIn, versions)
  }

  /** One iteration of the loop of `build_info` keeps its state. */
  method StoreNext(types: map<string, MergedType>, ghost done: set<string>, name: string, ghost versionsIn: seq<Version>,
                   versions: seq<Version>, info: AttributeInfo)
    returns (versions': seq<Version>, info': AttributeInfo)
    requires Progress(types, done, versionsIn, versions, info) && name in types && name !in done
    ensures Progress(types, done + {name}, versionsIn, versions', info')
  {
    versions', info' := StoreType(types, done, name, versions, info);
    assert versions'[..|versionsIn|] == versions[..|versionsIn|];
  }

  /** `build_info` for the attribute tables. Types are visited with more attributes
      first; the version table passed in is extended at its end and never rewritten. */
  method BuildInfo(types: map<string, MergedType>, versionsIn: seq<Version>)
    returns (info: AttributeInfo, versions: seq<Version>)
    ensures |versionsIn| <= |versions| && versions[..|versionsIn|] == versionsIn
    ensures TablesHold(types, types.Keys, versions, info)
  {
    var order := SortLargerFirst(types.Keys, k => AttrCount(types, k));
    info, versions := StoreAll(types, versionsIn, order);
  }

  /** The loop of `build_info`: every type of the listing `order` is stored in turn. */
  method StoreAll(types: map<string, MergedType>, versionsIn: seq<Version>, order: seq<string>)
    returns (info: AttributeInfo, versions: seq<Version>)
    requires forall x :: x in order <==> x in types
    requires Distinct(order)
    ensures Progress(types, types.Keys, versionsIn, versions, info)
  {
    info := AttributeInfo([], map[], map[]);
    versions := versionsIn;
    for t := 0 to |order|
      invariant Progress(types, Visited(order, t), versionsIn, versions, info)
    {
      VisitedFresh(order, t);
      versions, info := StoreNext(types, Visited(order, t), order[t], versionsIn, versions, info);
    }
    TablesAll(types, order, versionsIn, versions, info);
  }

  /** What the finished tables hold, type by type: both index maps cover exactly the
      types; a type without attributes is at (0, 0) and 0; otherwise its version tags
      occur in the version table at its version index, its index range is as long as
      its attribute list, and the range holds its attributes with the tags cleared. */
  lemma TablesComplete(types: map<string, MergedType>, versions: seq<Version>, info: AttributeInfo)
    requires TablesHold(types, types.Keys, versions, info)
    ensures info.attributesIndexInfo.Keys == types.Keys && info.attrVerIndexInfo.Keys == types.Keys
    ensures forall n :: n in types && types[n].Attributes() == [] ==>
              info.attributesIndexInfo[n] == (0, 0) && info.attrVerIndexInfo[n] == 0
    ensures forall n :: n in types && types[n].Attributes() != [] ==>
              OccursAt(versions, AttrVersions(types[n].Attributes()), info.attrVerIndexInfo[n]) &&
              info.attributesIndexInfo[n].1 == info.attributesIndexInfo[n].0 + |types[n].Attributes()| &&
              OccursAt(info.attributesArray, Stripped(types[n].Attributes()), info.attributesIndexInfo[n].0)
  {
    forall n | n in types ensures RunStored(types, n, versions, info) {
    }
  }
}
