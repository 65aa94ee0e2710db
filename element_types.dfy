/** The element-type table (src/generator/element_types.rs): the content mode of each
    element type, the element names that use each type, the enumeration literals that
    reference attributes may take, and one table entry per element type with the
    bounds of its runs in the other tables and of its run of reference names. */
module ElementTypes {
  import opened Wrappers
  import opened Order
  import opened AutosarTypes
  import opened GeneratorTypes
  import opened Compaction

  // ---------------------------------------------------------------- content mode

  datatype ContentMode = SequenceMode | ChoiceMode | BagMode | CharactersMode | MixedMode

  /** `calc_element_mode`: a choice that may repeat any number of times is a bag, any
      other choice a choice, a sequence a sequence; character and mixed content have
      their own modes whatever their collection. */
  function CalcElementMode(t: MergedType): (r: ContentMode)
    ensures r == CharactersMode <==> t.Characters?
    ensures r == MixedMode <==> t.Mixed?
    ensures r == BagMode <==> (t.ElementsGroup? || t.Elements?) && t.collection.Choice? && t.collection.amount == Any
    ensures r == ChoiceMode <==> (t.ElementsGroup? || t.Elements?) && t.collection.Choice? && t.collection.amount != Any
    ensures r == SequenceMode <==> (t.ElementsGroup? || t.Elements?) && t.collection.Sequence?
  {
    match t
    case ElementsGroup(c) => CollectionMode(c)
    case Elements(c, _, _) => CollectionMode(c)
    case Characters(_, _) => CharactersMode
    case Mixed(_, _, _) => MixedMode
  }

  function CollectionMode(c: ElementCollection): ContentMode
  {
    match c
    case Choice(_, _, Any) => BagMode
    case Choice(_, _, _) => ChoiceMode
    case Sequence(_, _) => SequenceMode
  }

  /** The three element-content modes are exactly the types whose sub-items are
      stored in the sub-element table without character data. */
  lemma ModeOfElementContent(t: MergedType)
    ensures CalcElementMode(t) in {SequenceMode, ChoiceMode, BagMode} <==>
              t.Collection().Some? && t.Basetype().None?
  {
  }

  // ---------------------------------------------------------------- element names of each type

  /** The (type name, element name) pairs of the elements among `items`. */
  ghost function UsesOf(items: seq<ElementCollectionItem>): set<(string, string)>
  {
    set e | e in items && e.ElementItem? :: (e.element.typeref, e.element.name)
  }

  /** The (type name, element name) pairs of the elements of the types in `keys`. */
  ghost function UsesIn(types: map<string, MergedType>, keys: set<string>): set<(string, string)>
  {
    set k, p | k in keys && k in types && p in UsesOf(types[k].Items()) :: p
  }

  /** `m` maps "AR:AUTOSAR" to {"AUTOSAR"} and every type name in `uses` to the element
      names that use it, and holds nothing else. */
  ghost predicate IndexesUses(m: map<string, set<string>>, uses: set<(string, string)>)
  {
    (forall t :: t in m <==> t == "AR:AUTOSAR" || exists n :: (t, n) in uses) &&
    (forall t, n :: t in m ==> (n in m[t] <==> (t == "AR:AUTOSAR" && n == "AUTOSAR") || (t, n) in uses))
  }

  lemma UsesOfSnoc(items: seq<ElementCollectionItem>, i: nat)
    requires i < |items|
    ensures UsesOf(items[..i + 1]) ==
              UsesOf(items[..i]) +
              (if items[i].ElementItem? then {(items[i].element.typeref, items[i].element.name)} else {})
  {
    assert items[..i + 1] == items[..i] + [items[i]];
  }

  lemma UsesInAdd(types: map<string, MergedType>, keys: set<string>, k: string)
    requires k in types
    ensures UsesIn(types, keys + {k}) == UsesIn(types, keys) + UsesOf(types[k].Items())
  {
  }

  /** The inner loop of `build_elementnames_of_type_list`: each element of `items` adds
      its name to the set of its type, creating the set on first use. */
  method AddElementNames(m: map<string, set<string>>, ghost uses: set<(string, string)>,
                         items: seq<ElementCollectionItem>)
    returns (m': map<string, set<string>>)
    requires IndexesUses(m, uses)
    ensures IndexesUses(m', uses + UsesOf(items))
  {
    m' := m;
    for i := 0 to |items|
      invariant IndexesUses(m', uses + UsesOf(items[..i]))
    {
      UsesOfSnoc(items, i);
      if items[i].ElementItem? {
        var e := items[i].element;
        if e.typeref in m' {
          m' := m'[e.typeref := m'[e.typeref] + {e.name}];
        } else {
          m' := m'[e.typeref := {e.name}];
        }
      }
    }
    assert items[..|items|] == items;
  }

  /** `build_elementnames_of_type_list`: "AR:AUTOSAR" is used by the element "AUTOSAR";
      every other key is the type of some element inside a collection, mapped to the
      names of exactly the elements that have that type. */
  method BuildElementnamesOfTypeList(types: map<string, MergedType>) returns (m: map<string, set<string>>)
    ensures "AR:AUTOSAR" in m && "AUTOSAR" in m["AR:AUTOSAR"]
    ensures forall t :: t in m && t != "AR:AUTOSAR" ==> exists n :: (t, n) in UsesIn(types, types.Keys)
    ensures forall t, n :: (t, n) in UsesIn(types, types.Keys) ==> t in m && n in m[t]
    ensures forall t, n :: t in m && n in m[t] ==>
              (t == "AR:AUTOSAR" && n == "AUTOSAR") || (t, n) in UsesIn(types, types.Keys)
  {
    var keys := SetToSeq(types.Keys);
    m := AddAllTypes(types, keys);
  }

  /** The outer loop of `build_elementnames_of_type_list`, over the types in the
      order `keys` lists them. */
  method AddAllTypes(types: map<string, MergedType>, keys: seq<string>) returns (m: map<string, set<string>>)
    requires forall x :: x in keys <==> x in types
    ensures IndexesUses(m, UsesIn(types, types.Keys))
  {
    m := map["AR:AUTOSAR" := {"AUTOSAR"}];
    for t := 0 to |keys|
      invariant IndexesUses(m, UsesIn(types, Visited(keys, t)))
    {
      UsesInAdd(types, Visited(keys, t), keys[t]);
      m := AddElementNames(m, UsesIn(types, Visited(keys, t)), types[keys[t]].Items());
    }
    VisitedAll(keys);
    assert Visited(keys, |keys|) == types.Keys;
  }

  // ---------------------------------------------------------------- reference types

  /** The position of the first attribute named "DEST" (`iter().find(..)`). */
  function FirstDest(attrs: seq<Attribute>): (r: Option<nat>)
    ensures r.Some? <==> exists i :: 0 <= i < |attrs| && attrs[i].name == "DEST"
    ensures r.Some? ==> r.value < |attrs| && attrs[r.value].name == "DEST"
    ensures r.Some? ==> forall j :: 0 <= j < r.value ==> attrs[j].name != "DEST"
  {
    if attrs == [] then None
    else if attrs[0].name == "DEST" then Some(0)
    else
      var rest := FirstDest(attrs[1..]);
      if rest.None? then None
      else
        assert forall j :: 1 <= j < |attrs| ==> attrs[j] == attrs[1..][j - 1];
        Some(rest.value + 1)
  }

  /** The literals a type contributes: those of the enumeration that is the type of its
      first "DEST" attribute; none when it has no such attribute or the attribute's
      type is missing or not an enumeration. */
  function DestLiterals(t: MergedType, charTypes: map<string, CharacterDataType>): (r: set<string>)
  {
    match FirstDest(t.Attributes())
    case None => {}
    case Some(i) =>
      var attrType := t.Attributes()[i].attrType;
      if attrType in charTypes && charTypes[attrType].Enum? then
        set p | p in charTypes[attrType].enumDef.enumitems :: p.0
      else {}
  }

  /** `find_ref_attribute_types`: the union of the literals every element type contributes. */
  function RefAttributeTypes(types: map<string, MergedType>, charTypes: map<string, CharacterDataType>): set<string>
  {
    set k, x | k in types && x in DestLiterals(types[k], charTypes) :: x
  }

  /** Every reference literal is a literal of some enumeration character type. */
  lemma RefAttributeTypesAreLiterals(types: map<string, MergedType>, charTypes: map<string, CharacterDataType>,
                                     x: string)
    requires x in RefAttributeTypes(types, charTypes)
    ensures exists c :: c in charTypes && charTypes[c].Enum? &&
              exists p :: p in charTypes[c].enumDef.enumitems && p.0 == x
  {
    var k :| k in types && x in DestLiterals(types[k], charTypes);
    var i := FirstDest(types[k].Attributes()).value;
    var c := types[k].Attributes()[i].attrType;
    assert c in charTypes && charTypes[c].Enum?;
  }

  /** Every literal of the enumeration typing an element type's first "DEST" attribute
      is a reference literal; a later "DEST" attribute contributes nothing. */
  lemma RefAttributeTypesComplete(types: map<string, MergedType>, charTypes: map<string, CharacterDataType>,
                                  k: string, i: nat, p: (string, Version))
    requires k in types && i < |types[k].Attributes()| && types[k].Attributes()[i].name == "DEST"
    requires forall j :: 0 <= j < i ==> types[k].Attributes()[j].name != "DEST"
    requires types[k].Attributes()[i].attrType in charTypes
    requires charTypes[types[k].Attributes()[i].attrType].Enum?
    requires p in charTypes[types[k].Attributes()[i].attrType].enumDef.enumitems
    ensures p.0 in RefAttributeTypes(types, charTypes)
  {
    assert FirstDest(types[k].Attributes()) == Some(i);
    assert p.0 in DestLiterals(types[k], charTypes);
  }

  // ---------------------------------------------------------------- reference-name runs

  /** The XSD type names recorded for a type; only pure element content has any. */
  function RefTypenames(t: MergedType): (r: set<string>)
    ensures t.XsdTypenames().Some? ==> r == t.XsdTypenames().value
    ensures t.XsdTypenames().None? ==> r == {}
  {
    if t.Elements? then t.xsdTypenames else {}
  }

  /** The emitted reference names of a set of names: `EnumItem::` followed by the
      identifier of each name. The identifier spelling is a parameter. */
  ghost function RefNameSet(names: set<string>, ident: string -> string): set<string>
  {
    set n | n in names :: RefName(n, ident)
  }

  /** The reference name of one name. */
  function RefName(n: string, ident: string -> string): string
  {
    "EnumItem::" + ident(n)
  }

  /** How many of `names` have the reference name `x`: two names whose identifiers
      agree give the same reference name. */
  ghost function RefNameCount(names: set<string>, ident: string -> string, x: string): nat
  {
    |set n | n in names && RefName(n, ident) == x|
  }

  /** A duplicate-free list is its duplicate-free front followed by a name not in it. */
  lemma DistinctFront(list: seq<string>)
    requires Distinct(list) && |list| > 0
    ensures Distinct(list[..|list| - 1]) && list[|list| - 1] !in list[..|list| - 1]
  {
    var l := |list| - 1;
    forall i | 0 <= i < l ensures list[..l][i] != list[l] {
      assert list[..l][i] == list[i];
    }
  }

  /** Removing a name from a set of names lowers the count of its reference name by one. */
  lemma RefNameCountRemove(names: set<string>, ident: string -> string, x: string, n: string)
    requires n in names
    ensures RefNameCount(names, ident, x) == RefNameCount(names - {n}, ident, x) + (if RefName(n, ident) == x then 1 else 0)
  {
    var all := set m | m in names && RefName(m, ident) == x;
    var rest := set m | m in names - {n} && RefName(m, ident) == x;
    if RefName(n, ident) == x {
      assert all == rest + {n};
    } else {
      assert all == rest;
    }
  }

  /** Mapping a duplicate-free list of the names to their reference names gives each
      reference name as often as there are names with that reference name. */
  lemma {:induction false} RefNamesCounted(list: seq<string>, v: seq<string>, names: set<string>,
                                           ident: string -> string, x: string)
    requires Distinct(list) && |v| == |list| && (forall n :: n in names <==> n in list)
    requires forall i :: 0 <= i < |list| ==> v[i] == RefName(list[i], ident)
    ensures multiset(v)[x] == RefNameCount(names, ident, x)
    decreases |list|
  {
    if list == [] {
      assert names == {};
      assert (set m | m in names && RefName(m, ident) == x) == {};
    } else {
      var l := |list| - 1;
      DistinctFront(list);
      assert forall n :: n in names - {list[l]} <==> n in list[..l] by {
        assert list == list[..l] + [list[l]];
      }
      RefNamesCounted(list[..l], v[..l], names - {list[l]}, ident, x);
      RefNameCountRemove(names, ident, x, list[l]);
      assert v == v[..l] + [v[l]];
      assert multiset(v) == multiset(v[..l]) + multiset{v[l]};
    }
  }

  /** `range` is the run of reference names of `names` in `refstrings`: (0, 0) for no
      names; otherwise one entry per name, in ascending order, and the entries are
      exactly the reference names of `names`. */
  ghost predicate RefRunOk(refstrings: seq<string>, range: (nat, nat), names: set<string>, ident: string -> string)
  {
    (|names| == 0 ==> range == (0, 0)) &&
    (|names| > 0 ==>
      range.0 + |names| == range.1 <= |refstrings| &&
      (forall i, j :: range.0 <= i < j < range.1 ==> StrLe(refstrings[i], refstrings[j])) &&
      (forall j :: range.0 <= j < range.1 ==> refstrings[j] in RefNameSet(names, ident)) &&
      (forall x :: x in RefNameSet(names, ident) ==> x in refstrings[range.0..range.1]) &&
      (forall x :: multiset(refstrings[range.0..range.1])[x] == RefNameCount(names, ident, x)))
  }

  /** A run stays where it is when the table grows at its end. */
  lemma RefRunKept(refstrings: seq<string>, refstrings': seq<string>, range: (nat, nat), names: set<string>,
                   ident: string -> string)
    requires RefRunOk(refstrings, range, names, ident) && IsPrefix(refstrings, refstrings')
    ensures RefRunOk(refstrings', range, names, ident)
  {
    if |names| > 0 {
      assert refstrings'[range.0..range.1] == refstrings[range.0..range.1];
      forall j | range.0 <= j < range.1 ensures refstrings'[j] == refstrings[j] {
        assert refstrings'[j] == refstrings'[..|refstrings|][j];
      }
    }
  }

  /** The sorted reference names of `names` (the `filter_map`, `collect` and `sort` in
      `generate`): one entry per name, ascending, exactly the reference names, each as
      often as there are names with that reference name. */
  method SortedRefNames(names: set<string>, ident: string -> string) returns (sorted: seq<string>)
    ensures |sorted| == |names|
    ensures forall i, j :: 0 <= i < j < |sorted| ==> StrLe(sorted[i], sorted[j])
    ensures forall j :: 0 <= j < |sorted| ==> sorted[j] in RefNameSet(names, ident)
    ensures forall x :: x in RefNameSet(names, ident) ==> x in sorted
    ensures forall x :: multiset(sorted)[x] == RefNameCount(names, ident, x)
  {
    var list := SetToSeq(names);
    var v := seq(|list|, i requires 0 <= i < |list| => RefName(list[i], ident));
    StrOrderFacts();
    sorted := SortBy(v, StrLe);
    forall x ensures multiset(sorted)[x] == RefNameCount(names, ident, x) {
      RefNamesCounted(list, v, names, ident, x);
    }
    assert |sorted| == |v| by {
      assert |sorted| == |multiset(sorted)| == |multiset(v)| == |v|;
    }
    forall j | 0 <= j < |sorted| ensures sorted[j] in RefNameSet(names, ident) {
      assert sorted[j] in multiset(v);
      var k :| 0 <= k < |v| && v[k] == sorted[j];
      assert list[k] in names;
    }
    forall x | x in RefNameSet(names, ident) ensures x in sorted {
      var n :| n in names && x == RefName(n, ident);
      var k :| 0 <= k < |list| && list[k] == n;
      assert v[k] == x;
      assert x in multiset(sorted);
    }
  }

  /** The reference-name part of the loop of `generate`: the sorted names are looked
      up as a run in `refstrings`, which grows by the run when it is not found. */
  method StoreRefRun(names: set<string>, ident: string -> string, refstrings: seq<string>)
    returns (range: (nat, nat), refstrings': seq<string>)
    ensures RefRunOk(refstrings', range, names, ident)
    ensures IsPrefix(refstrings, refstrings') && |refstrings'| <= |refstrings| + |names|
    ensures |names| == 0 ==> refstrings' == refstrings
    ensures |names| > 0 ==> (range.0 <= range.1 <= |refstrings'|
                             && Compacted(refstrings, refstrings'[range.0..range.1], range.0, refstrings'))
  {
    var sorted := SortedRefNames(names, ident);
    if |sorted| == 0 {
      return (0, 0), refstrings;
    }
    var pos;
    pos, refstrings' := FindOrAppend(refstrings, sorted);
    range := (pos, pos + |sorted|);
    assert refstrings'[range.0..range.1] == sorted;
    SortedRunOk(refstrings', pos, sorted, names, ident);
  }

  /** A run holding the sorted reference names, wherever it sits in the table. */
  lemma SortedRunOk(refstrings: seq<string>, pos: nat, sorted: seq<string>, names: set<string>,
                    ident: string -> string)
    requires |sorted| == |names| > 0
    requires forall i, j :: 0 <= i < j < |sorted| ==> StrLe(sorted[i], sorted[j])
    requires forall j :: 0 <= j < |sorted| ==> sorted[j] in RefNameSet(names, ident)
    requires forall x :: x in RefNameSet(names, ident) ==> x in sorted
    requires forall x :: multiset(sorted)[x] == RefNameCount(names, ident, x)
    requires pos + |sorted| <= |refstrings| && refstrings[pos..pos + |sorted|] == sorted
    ensures RefRunOk(refstrings, (pos, pos + |sorted|), names, ident)
  {
    forall i, j | pos <= i < j < pos + |sorted| ensures StrLe(refstrings[i], refstrings[j]) {
      assert refstrings[i] == sorted[i - pos] && refstrings[j] == sorted[j - pos];
    }
    forall j | pos <= j < pos + |sorted| ensures refstrings[j] in RefNameSet(names, ident) {
      assert refstrings[j] == sorted[j - pos];
    }
  }

  // ---------------------------------------------------------------- the element-type table

  /** One entry of the element-type table. */
  datatype ElementSpec = ElementSpec(
    subElements: (nat, nat),
    subElementVer: nat,
    attributes: (nat, nat),
    attributesVer: nat,
    characterData: Option<nat>,
    mode: ContentMode,
    refInfo: (nat, nat))

  /** The index maps built by the sub-element and attribute tables. */
  datatype IndexMaps = IndexMaps(
    subelements: map<string, nat>,
    subelementsVer: map<string, nat>,
    attributes: map<string, (nat, nat)>,
    attributesVer: map<string, nat>)

  /** A lookup that the source unwraps fails for type `name`: it is missing from one
      of the index maps, or its character type is not a character type. */
  ghost predicate Missing(t: MergedType, name: string, charTypes: map<string, CharacterDataType>, maps: IndexMaps)
  {
    name !in maps.subelements || name !in maps.subelementsVer ||
    name !in maps.attributes || name !in maps.attributesVer ||
    (t.Basetype().Some? && t.basetype !in charTypes)
  }

  /** `spec` is the entry of type `name`: its content mode; its sub-element range,
      from the type's index as long as its list of sub-items; its version and
      attribute indices as recorded; the position of its character type in the
      listing `charNames`; and its run of reference names. */
  ghost predicate SpecOk(types: map<string, MergedType>, refTypes: set<string>, maps: IndexMaps,
                         ident: string -> string, charNames: seq<string>, name: string, spec: ElementSpec,
                         refstrings: seq<string>)
    requires name in types
  {
    var t := types[name];
    name in maps.subelements && name in maps.subelementsVer &&
    name in maps.attributes && name in maps.attributesVer &&
    spec.mode == CalcElementMode(t) &&
    spec.subElements.0 == maps.subelements[name] &&
    spec.subElements.1 - spec.subElements.0 == |t.Items()| &&
    spec.subElementVer == maps.subelementsVer[name] &&
    spec.attributes == maps.attributes[name] &&
    spec.attributesVer == maps.attributesVer[name] &&
    (t.Basetype().None? ==> spec.characterData.None?) &&
    (t.Basetype().Some? ==>
      spec.characterData.Some? && spec.characterData.value < |charNames| &&
      charNames[spec.characterData.value] == t.basetype) &&
    RefRunOk(refstrings, spec.refInfo, RefTypenames(t) * refTypes, ident)
  }

  /** The entry of one type (one iteration of the loop of `generate`); fails where
      the source's `unwrap` panics. */
  method SpecFor(types: map<string, MergedType>, charTypes: map<string, CharacterDataType>, charNames: seq<string>,
                 refTypes: set<string>, maps: IndexMaps, ident: string -> string, name: string,
                 refstrings: seq<string>)
    returns (r: Result<(ElementSpec, seq<string>)>)
    requires name in types
    requires forall x :: x in charNames <==> x in charTypes
    ensures r.Err? ==> Missing(types[name], name, charTypes, maps)
    ensures r.Ok? ==> !Missing(types[name], name, charTypes, maps)
    ensures r.Ok? ==> SpecOk(types, refTypes, maps, ident, charNames, name, r.value.0, r.value.1)
    ensures r.Ok? ==> IsPrefix(refstrings, r.value.1)
  {
    var t := types[name];
    var mode := CalcElementMode(t);
    if name !in maps.subelements || name !in maps.subelementsVer ||
       name !in maps.attributes || name !in maps.attributesVer {
      return Err("type without an index");
    }
    var subLow := maps.subelements[name];
    var subHigh := subLow + |t.Items()|;
    var chartype: Option<nat> := None;
    if t.Basetype().Some? {
      var idx := FirstIndex(charNames, t.basetype);
      if idx.None? {
        return Err("unknown character type");
      }
      chartype := Some(idx.value);
    }
    var refInfo, refstrings' := StoreRefRun(RefTypenames(t) * refTypes, ident, refstrings);
    var spec := ElementSpec((subLow, subHigh), maps.subelementsVer[name], maps.attributes[name],
                            maps.attributesVer[name], chartype, mode, refInfo);
    r := Ok((spec, refstrings'));
  }

  /** The first `count` entries of `specs` are those of the first `count` names. */
  ghost predicate SpecsOk(types: map<string, MergedType>, charTypes: map<string, CharacterDataType>,
                          refTypes: set<string>, maps: IndexMaps, ident: string -> string, charNames: seq<string>,
                          names: seq<string>, count: nat, specs: seq<ElementSpec>, refstrings: seq<string>)
  {
    count <= |names| && |specs| == count && (forall x :: x in names ==> x in types) &&
    forall i {:trigger SpecOk(types, refTypes, maps, ident, charNames, names[i], specs[i], refstrings)} ::
      0 <= i < count ==>
        !Missing(types[names[i]], names[i], charTypes, maps) &&
        SpecOk(types, refTypes, maps, ident, charNames, names[i], specs[i], refstrings)
  }

  /** Extending the reference-name table keeps an entry. */
  lemma SpecKept(types: map<string, MergedType>, refTypes: set<string>, maps: IndexMaps, ident: string -> string,
                 charNames: seq<string>, name: string, spec: ElementSpec, refstrings: seq<string>,
                 refstrings': seq<string>)
    requires name in types
    requires SpecOk(types, refTypes, maps, ident, charNames, name, spec, refstrings)
    requires IsPrefix(refstrings, refstrings')
    ensures SpecOk(types, refTypes, maps, ident, charNames, name, spec, refstrings')
  {
    RefRunKept(refstrings, refstrings', spec.refInfo, RefTypenames(types[name]) * refTypes, ident);
  }

  /** Extending the reference-name table keeps every entry. */
  lemma SpecsKept(types: map<string, MergedType>, charTypes: map<string, CharacterDataType>,
                  refTypes: set<string>, maps: IndexMaps, ident: string -> string, charNames: seq<string>,
                  names: seq<string>, count: nat, specs: seq<ElementSpec>, refstrings: seq<string>,
                  refstrings': seq<string>)
    requires SpecsOk(types, charTypes, refTypes, maps, ident, charNames, names, count, specs, refstrings)
    requires IsPrefix(refstrings, refstrings')
    ensures SpecsOk(types, charTypes, refTypes, maps, ident, charNames, names, count, specs, refstrings')
  {
    forall i | 0 <= i < count
      ensures !Missing(types[names[i]], names[i], charTypes, maps)
      ensures SpecOk(types, refTypes, maps, ident, charNames, names[i], specs[i], refstrings')
    {
      assert SpecOk(types, refTypes, maps, ident, charNames, names[i], specs[i], refstrings);
      SpecKept(types, refTypes, maps, ident, charNames, names[i], specs[i], refstrings, refstrings');
    }
  }

  /** Appending the entry of the next name keeps the invariant. */
  lemma SpecsAdd(types: map<string, MergedType>, charTypes: map<string, CharacterDataType>,
                 refTypes: set<string>, maps: IndexMaps, ident: string -> string, charNames: seq<string>,
                 names: seq<string>, count: nat, specs: seq<ElementSpec>, spec: ElementSpec, refstrings: seq<string>)
    requires SpecsOk(types, charTypes, refTypes, maps, ident, charNames, names, count, specs, refstrings)
    requires count < |names|
    requires !Missing(types[names[count]], names[count], charTypes, maps)
    requires SpecOk(types, refTypes, maps, ident, charNames, names[count], spec, refstrings)
    ensures SpecsOk(types, charTypes, refTypes, maps, ident, charNames, names, count + 1, specs + [spec], refstrings)
  {
    var specs' := specs + [spec];
    forall i | 0 <= i < count + 1
      ensures !Missing(types[names[i]], names[i], charTypes, maps)
      ensures SpecOk(types, refTypes, maps, ident, charNames, names[i], specs'[i], refstrings)
    {
      if i < count {
        assert specs'[i] == specs[i];
        assert SpecOk(types, refTypes, maps, ident, charNames, names[i], specs[i], refstrings);
      }
    }
  }

  /** The loop of `generate` over the listing `names` of the types. */
  method SpecsFor(types: map<string, MergedType>, charTypes: map<string, CharacterDataType>, charNames: seq<string>,
                  refTypes: set<string>, maps: IndexMaps, ident: string -> string, names: seq<string>)
    returns (r: Result<(seq<ElementSpec>, seq<string>)>)
    requires forall x :: x in names <==> x in types
    requires forall x :: x in charNames <==> x in charTypes
    ensures r.Err? ==> exists n :: n in types && Missing(types[n], n, charTypes, maps)
    ensures r.Ok? ==> SpecsOk(types, charTypes, refTypes, maps, ident, charNames, names, |names|, r.value.0, r.value.1)
  {
    var specs: seq<ElementSpec> := [];
    var refstrings: seq<string> := [];
    for idx := 0 to |names|
      invariant SpecsOk(types, charTypes, refTypes, maps, ident, charNames, names, idx, specs, refstrings)
    {
      var step := SpecFor(types, charTypes, charNames, refTypes, maps, ident, names[idx], refstrings);
      if step.Err? {
        return Err(step.msg);
      }
      var (spec, refstrings') := step.value;
      SpecsKept(types, charTypes, refTypes, maps, ident, charNames, names, idx, specs, refstrings, refstrings');
      SpecsAdd(types, charTypes, refTypes, maps, ident, charNames, names, idx, specs, spec, refstrings');
      specs := specs + [spec];
      refstrings := refstrings';
    }
    r := Ok((specs, refstrings));
  }

  /** The element-type table and the reference-name table of `generate`. Types are
      listed in ascending order of name, one entry each; the build fails exactly when
      a lookup the source unwraps fails. */
  method BuildElementSpecs(types: map<string, MergedType>, charTypes: map<string, CharacterDataType>,
                           maps: IndexMaps, ident: string -> string)
    returns (r: Result<(seq<ElementSpec>, seq<string>)>)
    ensures r.Ok? <==> forall n :: n in types ==> !Missing(types[n], n, charTypes, maps)
    ensures r.Ok? ==> forall names, charNames ::
              SortedListing(names, types.Keys) && SortedListing(charNames, charTypes.Keys) ==>
                |r.value.0| == |names| &&
                forall i :: 0 <= i < |names| ==>
                  SpecOk(types, RefAttributeTypes(types, charTypes), maps, ident, charNames, names[i],
                         r.value.0[i], r.value.1)
  {
    var names := SortedStrings(types.Keys);
    var charNames := SortedStrings(charTypes.Keys);
    var refTypes := RefAttributeTypes(types, charTypes);
    r := SpecsFor(types, charTypes, charNames, refTypes, maps, ident, names);
    if r.Ok? {
      SpecsComplete(types, charTypes, refTypes, maps, ident, charNames, names, r.value.0, r.value.1);
    }
  }

  /** Every type is listed once, so entries for the whole listing cover every type;
      and the only ascending listings are the ones the build used. */
  lemma SpecsComplete(types: map<string, MergedType>, charTypes: map<string, CharacterDataType>,
                      refTypes: set<string>, maps: IndexMaps, ident: string -> string, charNames: seq<string>,
                      names: seq<string>, specs: seq<ElementSpec>, refstrings: seq<string>)
    requires SortedListing(names, types.Keys) && SortedListing(charNames, charTypes.Keys)
    requires SpecsOk(types, charTypes, refTypes, maps, ident, charNames, names, |names|, specs, refstrings)
    ensures forall n :: n in types ==> !Missing(types[n], n, charTypes, maps)
    ensures forall names', charNames' ::
              SortedListing(names', types.Keys) && SortedListing(charNames', charTypes.Keys) ==>
                |specs| == |names'| &&
                forall i :: 0 <= i < |names'| ==>
                  SpecOk(types, refTypes, maps, ident, charNames', names'[i], specs[i], refstrings)
  {
    forall n | n in types ensures !Missing(types[n], n, charTypes, maps) {
      var i :| 0 <= i < |names| && names[i] == n;
      assert SpecOk(types, refTypes, maps, ident, charNames, names[i], specs[i], refstrings);
    }
    forall names', charNames' | SortedListing(names', types.Keys) && SortedListing(charNames', charTypes.Keys)
      ensures |specs| == |names'|
      ensures forall i :: 0 <= i < |names'| ==>
                SpecOk(types, refTypes, maps, ident, charNames', names'[i], specs[i], refstrings)
    {
      SortedListingUnique(names', names, types.Keys);
      SortedListingUnique(charNames', charNames, charTypes.Keys);
      forall i | 0 <= i < |names'|
        ensures SpecOk(types, refTypes, maps, ident, charNames', names'[i], specs[i], refstrings)
      {
        assert SpecOk(types, refTypes, maps, ident, charNames, names[i], specs[i], refstrings);
      }
    }
  }

  /** The character-data index of an entry is the number of character type names
      that sort before its character type. */
  lemma CharacterDataRank(types: map<string, MergedType>, charTypes: map<string, CharacterDataType>,
                          refTypes: set<string>, maps: IndexMaps, ident: string -> string, charNames: seq<string>,
                          name: string, spec: ElementSpec, refstrings: seq<string>)
    requires SortedListing(charNames, charTypes.Keys)
    requires name in types && types[name].Basetype().Some?
    requires SpecOk(types, refTypes, maps, ident, charNames, name, spec, refstrings)
    ensures spec.characterData == Some(NameRank(charTypes.Keys, types[name].basetype))
  {
    SortedNameRank(charNames, charTypes.Keys, spec.characterData.value);
  }
}
