/** The identifier enumerations (src/generator/identifier_enums.rs): the element names,
    attribute names and enumeration literals of the whole schema, each collected into a
    set and listed in ascending order; each listing is then handed to the enum emitter,
    whose discriminants come from a perfect hash of the names (that emitter is not part
    of this model). */
module IdentifierEnums {
  import opened Wrappers
  import opened Order
  import opened AutosarTypes
  import opened Compaction

  // ---------------------------------------------------------------- the three universes

  /** The names of the elements among `items` (group references have none). */
  ghost function ElementNamesOf(items: seq<ElementCollectionItem>): set<string>
  {
    set it | it in items && it.ElementItem? :: it.element.name
  }

  /** The element names of the groups named in `keys`. */
  ghost function ElementNamesIn(groups: map<string, ElementCollection>, keys: set<string>): set<string>
  {
    set k, it | k in keys && k in groups && it in groups[k].Items() && it.ElementItem? :: it.element.name
  }

  /** Every element name of the schema: "AUTOSAR", the root, and the name of every
      element of every group. */
  ghost function ElementNameUniverse(adt: AutosarDataTypes): set<string>
  {
    {"AUTOSAR"} + ElementNamesIn(adt.groupTypes, adt.groupTypes.Keys)
  }

  /** The attribute names of the element types named in `keys`. */
  ghost function AttributeNamesIn(types: map<string, ElementDataType>, keys: set<string>): set<string>
  {
    set k, a | k in keys && k in types && a in types[k].AttributesOf() :: a.name
  }

  /** Every attribute name of every element type of the schema. */
  ghost function AttributeNameUniverse(adt: AutosarDataTypes): set<string>
  {
    AttributeNamesIn(adt.elementTypes, adt.elementTypes.Keys)
  }

  /** The literals of the enumeration types named in `keys`; other character types
      contribute none. */
  ghost function EnumItemsIn(types: map<string, CharacterDataType>, keys: set<string>): set<string>
  {
    set k, p | k in keys && k in types && types[k].Enum? && p in types[k].enumDef.enumitems :: p.0
  }

  /** Every enumeration literal of the schema. */
  ghost function EnumItemUniverse(adt: AutosarDataTypes): set<string>
  {
    EnumItemsIn(adt.characterTypes, adt.characterTypes.Keys)
  }

  // ---------------------------------------------------------------- collecting

  /** The inner loop over one group: each element's name goes into the set unless it
      is there already. */
  method AddElementNames(names: set<string>, items: seq<ElementCollectionItem>) returns (names': set<string>)
    ensures names' == names + ElementNamesOf(items)
  {
    names' := names;
    for i := 0 to |items|
      invariant names' == names + ElementNamesOf(items[..i])
    {
      assert items[..i + 1] == items[..i] + [items[i]];
      if items[i].ElementItem? {
        var e := items[i].element;
        if e.name !in names' {
          names' := names' + {e.name};
        }
      }
    }
    assert items[..|items|] == items;
  }

  lemma ElementNamesInAdd(groups: map<string, ElementCollection>, keys: set<string>, k: string)
    requires k in groups
    ensures ElementNamesIn(groups, keys + {k}) == ElementNamesIn(groups, keys) + ElementNamesOf(groups[k].Items())
  {
  }

  /** The element names of the first `t` groups of the listing `keys`. */
  ghost function ElementNamesUpTo(groups: map<string, ElementCollection>, keys: seq<string>, t: nat): set<string>
    requires t <= |keys|
  {
    if t == 0 then {}
    else ElementNamesUpTo(groups, keys, t - 1) + (if keys[t - 1] in groups then ElementNamesOf(groups[keys[t - 1]].Items()) else {})
  }

  /** The names gathered from a prefix of the listing are those of the groups it names. */
  lemma {:induction false} ElementNamesUpToVisited(groups: map<string, ElementCollection>, keys: seq<string>, t: nat)
    requires t <= |keys| && forall x :: x in keys ==> x in groups
    ensures ElementNamesUpTo(groups, keys, t) == ElementNamesIn(groups, Visited(keys, t))
  {
    if t > 0 {
      ElementNamesUpToVisited(groups, keys, t - 1);
      ElementNamesInAdd(groups, Visited(keys, t - 1), keys[t - 1]);
    }
  }

  /** The element names: "AUTOSAR" and then the names of the elements of every group. */
  method CollectElementNames(adt: AutosarDataTypes) returns (names: set<string>)
    ensures names == ElementNameUniverse(adt)
  {
    var keys := SetToSeq(adt.groupTypes.Keys);
    names := {"AUTOSAR"};
    for t := 0 to |keys|
      invariant names == {"AUTOSAR"} + ElementNamesUpTo(adt.groupTypes, keys, t)
    {
      names := AddElementNames(names, adt.groupTypes[keys[t]].Items());
    }
    ElementNamesUpToVisited(adt.groupTypes, keys, |keys|);
    VisitedAll(keys);
    assert Visited(keys, |keys|) == adt.groupTypes.Keys;
  }

  /** The inner loop over the attributes of one element type. */
  method AddAttributeNames(names: set<string>, attrs: seq<Attribute>) returns (names': set<string>)
    ensures names' == names + set a | a in attrs :: a.name
  {
    names' := names;
    for i := 0 to |attrs|
      invariant names' == names + set a | a in attrs[..i] :: a.name
    {
      assert attrs[..i + 1] == attrs[..i] + [attrs[i]];
      names' := names' + {attrs[i].name};
    }
    assert attrs[..|attrs|] == attrs;
  }

  lemma AttributeNamesInAdd(types: map<string, ElementDataType>, keys: set<string>, k: string)
    requires k in types
    ensures AttributeNamesIn(types, keys + {k}) == AttributeNamesIn(types, keys) + set a | a in types[k].AttributesOf() :: a.name
  {
  }

  /** The attribute names of all element types. */
  method CollectAttributeNames(adt: AutosarDataTypes) returns (names: set<string>)
    ensures names == AttributeNameUniverse(adt)
  {
    var keys := SetToSeq(adt.elementTypes.Keys);
    names := {};
    for t := 0 to |keys|
      invariant names == AttributeNamesIn(adt.elementTypes, Visited(keys, t))
    {
      AttributeNamesInAdd(adt.elementTypes, Visited(keys, t), keys[t]);
      names := AddAttributeNames(names, adt.elementTypes[keys[t]].AttributesOf());
    }
    VisitedAll(keys);
    assert Visited(keys, |keys|) == adt.elementTypes.Keys;
  }

  /** The inner loop over the literals of one enumeration. */
  method AddEnumItems(names: set<string>, items: seq<(string, Version)>) returns (names': set<string>)
    ensures names' == names + set p | p in items :: p.0
  {
    names' := names;
    for i := 0 to |items|
      invariant names' == names + set p | p in items[..i] :: p.0
    {
      assert items[..i + 1] == items[..i] + [items[i]];
      names' := names' + {items[i].0};
    }
    assert items[..|items|] == items;
  }

  lemma EnumItemsInAdd(types: map<string, CharacterDataType>, keys: set<string>, k: string)
    requires k in types
    ensures types[k].Enum? ==>
      EnumItemsIn(types, keys + {k}) == EnumItemsIn(types, keys) + set p | p in types[k].enumDef.enumitems :: p.0
    ensures !types[k].Enum? ==> EnumItemsIn(types, keys + {k}) == EnumItemsIn(types, keys)
  {
  }

  /** The literals of all enumeration types. */
  method CollectEnumItems(adt: AutosarDataTypes) returns (names: set<string>)
    ensures names == EnumItemUniverse(adt)
  {
    var keys := SetToSeq(adt.characterTypes.Keys);
    names := {};
    for t := 0 to |keys|
      invariant names == EnumItemsIn(adt.characterTypes, Visited(keys, t))
    {
      EnumItemsInAdd(adt.characterTypes, Visited(keys, t), keys[t]);
      var c := adt.characterTypes[keys[t]];
      if c.Enum? {
        names := AddEnumItems(names, c.enumDef.enumitems);
      }
    }
    VisitedAll(keys);
    assert Visited(keys, |keys|) == adt.characterTypes.Keys;
  }

  /** The three name lists `generate` hands to the enum emitter: each universe listed
      in ascending order, each name once, so that a name's position in its listing is
      its rank, the number of names of its universe that sort before it. */
  method NameLists(adt: AutosarDataTypes) returns (elementNames: seq<string>, attributeNames: seq<string>, enumItems: seq<string>)
    ensures SortedListing(elementNames, ElementNameUniverse(adt))
    ensures SortedListing(attributeNames, AttributeNameUniverse(adt))
    ensures SortedListing(enumItems, EnumItemUniverse(adt))
    ensures "AUTOSAR" in elementNames
    ensures forall k :: 0 <= k < |elementNames| ==> NameRank(ElementNameUniverse(adt), elementNames[k]) == k
    ensures forall k :: 0 <= k < |attributeNames| ==> NameRank(AttributeNameUniverse(adt), attributeNames[k]) == k
    ensures forall k :: 0 <= k < |enumItems| ==> NameRank(EnumItemUniverse(adt), enumItems[k]) == k
  {
    var e := CollectElementNames(adt);
    var a := CollectAttributeNames(adt);
    var n := CollectEnumItems(adt);
    elementNames := SortedStrings(e);
    attributeNames := SortedStrings(a);
    enumItems := SortedStrings(n);
    forall k | 0 <= k < |elementNames| ensures NameRank(ElementNameUniverse(adt), elementNames[k]) == k {
      SortedNameRank(elementNames, e, k);
    }
    forall k | 0 <= k < |attributeNames| ensures NameRank(AttributeNameUniverse(adt), attributeNames[k]) == k {
      SortedNameRank(attributeNames, a, k);
    }
    forall k | 0 <= k < |enumItems| ensures NameRank(EnumItemUniverse(adt), enumItems[k]) == k {
      SortedNameRank(enumItems, n, k);
    }
  }

  // ---------------------------------------------------------------- the enum text

  /** The width `generate_enum` pads the names to: the largest UTF-8 length among the
      names. `Iterator::max` of an empty list is `None` and the source unwraps it, so
      an empty list is an error. */
  function EnumWidth(names: seq<string>): (r: Result<nat>)
    ensures r.Err? <==> names == []
    ensures r.Ok? ==> exists i :: 0 <= i < |names| && Utf8Len(names[i]) == r.value
    ensures r.Ok? ==> forall i :: 0 <= i < |names| ==> Utf8Len(names[i]) <= r.value
  {
    if names == [] then Err("max of an empty name list")
    else
      var rest := EnumWidth(names[1..]);
      assert forall i :: 1 <= i < |names| ==> names[i] == names[1..][i - 1];
      if rest.Err? then Ok(Utf8Len(names[0]))
      else if Utf8Len(names[0]) >= rest.value then Ok(Utf8Len(names[0]))
      else Ok(rest.value)
  }

  /** The element-name list is never empty, so its enum always has a width. */
  lemma ElementNamesHaveWidth(adt: AutosarDataTypes, elementNames: seq<string>)
    requires SortedListing(elementNames, ElementNameUniverse(adt))
    ensures EnumWidth(elementNames).Ok?
    ensures EnumWidth(elementNames).value >= 7
  {
    assert "AUTOSAR" in elementNames;
    var i :| 0 <= i < |elementNames| && elementNames[i] == "AUTOSAR";
    assert Utf8Len("AUTOSAR") == 7;
  }
}
