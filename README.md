# autosar-xsd-mangler, modelled in Dafny

The AUTOSAR XSD mangler reads the XML schema files of all published AUTOSAR
versions. It turns each one into a flat table of data types, merges the
tables of all versions into one version-tagged table, removes duplicate
types, and generates the Rust tables that an AUTOSAR data library is built
on. Those tables are:

- the element definitions and their docstrings;
- the sub-element and attribute tables, with their version arrays;
- the element-type specifications;
- the identifier enumerations, with their perfect hash.

This project models that pipeline stage by stage. Each stage has its own
module:

| module | stage | file |
|---|---|---|
| `Xsd` | the pure helpers of the schema reader (occurrence counts, complex-type names, restriction classification, annotation tags) | `xsd.dfy` |
| `FlatTypes` | the flat type model the flattener produces | `flat_types.dfy` |
| `Flatten` | the flattener, from the XSD syntax tree to the flat table | `flatten.dfy` |
| `ListMerge` | the positional merge of one list into another, used for items, attributes and literals | `list_merge.dfy` |
| `Merge` | `merge`, and the merging of all versions in `main` | `merge.dfy` |
| `AutosarTypes` | the merged data model, `AutosarDataTypes::new`, the sanity check and the version bits | `autosar_types.dfy` |
| `Dedup` | duplicate removal | `dedup.dfy` |
| `GeneratorTypes` | the generator's view of an element type | `gen_types.dfy` |
| `Compaction` | run reuse in a shared table, shared by the sub-element, attribute and reference tables | `compaction.dfy` |
| `Subelements`, `Attributes`, `ElementTypes`, `ElementDefinitions`, `IdentifierEnums` | the generator tables | one `.dfy` file each |
| `PerfectHash` | the perfect-hash construction | `perfect_hash.dfy` |
| `TypeName` | the Rust type name derived from an AUTOSAR type name | `type_name.dfy` |
| `Order` | string order, sorting and set listing, as Rust's `sort` and `Ord for String` provide them | `order.dfy` |
| `Wrappers` | `Option`/`Result` | `wrappers.dfy` |

How the source's forms are modelled:

- A loop of the source is a `method` with a loop. The method is proved
  against a specification function or a predicate on its state. When the
  source iterates a hash map, the loop visits the keys in an arbitrary
  order.
- A `&mut` argument that the source updates in place is passed in and
  returned as a value, since it is never aliased.
- A panic (`unwrap` on `None`, an index out of range, `todo!()`) becomes an
  `Err` result where callers can reach it. Otherwise it becomes a
  precondition; those are listed below.
- A `usize` is unbounded, except where the source depends on its width:
  - the hash function wraps at 2^64;
  - version sets are 64-bit words;
  - `unbounded` parses to `usize::MAX`.

## Model

| member | source | states |
|---|---|---|
| Xsd.ParseUsize | src/xsd.rs:1187-1200 | a count parses exactly when it is a non-empty run of decimal digits, after an optional '+', whose value fits in a usize |
| Xsd.DecimalRoundTrip | src/xsd.rs:1187-1200 | reading back the decimal spelling of a number gives the number |
| Xsd.ParseOccurs | src/xsd.rs:1187-1200 | a missing occurrence attribute means 1 and "unbounded" means usize::MAX; any other value parses as a usize or is an error |
| Xsd.OccursRoundTrip | src/xsd.rs:1187-1200 | every count up to usize::MAX written in decimal is read back unchanged |
| Xsd.ExtendPrevNames | src/xsd.rs:1202-1216 | a new name replaces the last remembered name when one contains the other and more than one name is remembered; otherwise it is appended; without a name the list is unchanged |
| Xsd.ComplexTypeName | src/xsd.rs:515-528 | an unnamed complex type is named after the last two enclosing names, or the only one, followed by "-TYPE" |
| Xsd.ComplexTypeRef | src/xsd.rs:597 | the type reference is the name in the "AR:" namespace |
| Xsd.MmClassFromComment | src/xsd.rs:1218-1223 | a class is found exactly when the comment starts with " complex type for class ", and it is the rest of the comment |
| Xsd.GetRestrictToStandard | src/xsd.rs:1225-1238 | a tag naming "CP" but not "AP" means classic platform, "AP" but not "CP" adaptive platform, any other value both, and no tag not set |
| Xsd.ModelGroupItemName | src/xsd.rs:1240-1248 | a group item is named by its reference; choices and elements by a fixed word |
| Xsd.GetAttributeValue | src/xsd.rs:1160-1171 | the value of the first attribute with the key, and none exactly when no attribute has it |
| Xsd.GetRequiredAttributeValue | src/xsd.rs:1173-1185 | as above, with a missing attribute an error |
| Xsd.ClassifyRestriction | src/xsd.rs:921-943 | a restriction that mixes a literal with enumerations or a pattern, or enumerations with a pattern, is an error; otherwise it is a literal, a pattern, an enumeration, or a plain restriction of the base type |
| Xsd.ParseRestriction | src/xsd.rs:856-944 | the restriction fails exactly when a facet has an unknown tag or no value, or a maxLength does not parse; otherwise it is the classification of: a literal when some whiteSpace facet is "preserve", every enumeration value in order, the last pattern, the last maxLength, and the base type |
| Xsd.LastValue | src/xsd.rs:876-882 | a value is found exactly when some facet has the tag and a value |
| Xsd.SplitJoin | src/xsd.rs:1032 | splitting the annotation text at ';' loses nothing |
| Xsd.ParseTag | src/xsd.rs:1034-1039 | a piece splits at its first '=' into the key before it and the value sliced on UTF-8 byte positions from two bytes after the '=' to one byte before the end; the piece is the key, the '=', one character, the value and one last character; the slice succeeds exactly when two characters follow the '=', and the first of them and the last character are one byte long (the source panics otherwise) |
| Xsd.TagValueSliced | src/xsd.rs:1037 | when both byte positions are character boundaries and in order, they are the character after the one after '=' and the last character, both one byte long |
| Xsd.TagValueFits | src/xsd.rs:1037 | conversely, with two characters after '=' and one-byte quote characters, both byte positions are character boundaries, in order |
| Xsd.ParseTags | src/xsd.rs:1030-1040 | the loop yields the left-to-right fold of the pieces of the text split at ';' (each piece with '=' sets its key): it fails exactly when the fold fails, and otherwise returns the fold's map |
| Xsd.TagsParsedNone | src/xsd.rs:1030-1040 | the fold fails exactly when some piece with '=' is malformed |
| Xsd.TagsParsedSources | src/xsd.rs:1034-1039 | every key of the map comes from a piece with '=' that parses to that key and value |
| Xsd.TagsParsedLastWins | src/xsd.rs:1034-1039 | every piece with '=' has its key in the map, holding its value unless a later piece sets the same key |
| Xsd.ParsedTags | src/xsd.rs:1030-1040 | the tags of a text fail exactly when a piece with '=' is malformed; otherwise every key comes from such a piece, every such piece's key is present, and a key holds the value of the last piece that sets it |
| FlatTypes.ElementCollectionItem.Name | src/main.rs:342-348 | an element is named by its name and a group reference by the group |
| FlatTypes.ElementCollection.Items | src/main.rs:333-339 | both kinds of collection expose their sub-elements |
| FlatTypes.DataType.Collection | src/flatten.rs:103-156 | exactly the element-content variants carry a collection |
| FlatTypes.DataType.Attributes | src/flatten.rs:103-156 | exactly the variants with attributes expose them |
| Flatten.CombineAmounts | src/flatten.rs:498-519 | the combined amount's minimum is the product of the minimums, and it is at most one exactly when both are |
| Flatten.CombineAmountsAlgebra | src/flatten.rs:498-519 | combining amounts is commutative, associative and idempotent; One is neutral and Any absorbs |
| Flatten.OccursToAmount | src/flatten.rs:521-531 | (1,1) is One, (0,1) is ZeroOrOne, and every other bound pair is Any |
| Flatten.NewElement | src/flatten.rs:533-541 | an element keeps its name and type reference, takes the schema's version, and converts its occurrence bounds |
| Flatten.FlattenSimpleType | src/flatten.rs:390-425 | an enumeration restriction gives an enumeration with one literal per value, stamped with the version; any other restriction gives character content, with a pattern exactly when the restriction has one |
| Flatten.BuildAttribute | src/flatten.rs:456-496 | an attribute fails exactly when its type is missing, complex, or a literal restriction; otherwise it keeps its name and requiredness, takes the version, and refers to its type |
| Flatten.BuildAttributeList | src/flatten.rs:427-454 | the list builds exactly when every own and group attribute builds; it is the own attributes followed by those of the groups, in order |
| Flatten.BuildEach | src/flatten.rs:428-433 | the loop over a list of attributes succeeds exactly when every attribute builds, yields them in order, and otherwise fails with the error of the first attribute that does not build |
| Flatten.PrefixBuildFails | src/flatten.rs:437-450 | one group attribute that fails to build fails the whole list |
| Flatten.FlattenChoiceChoice | src/flatten.rs:270-294 | a nested choice is inlined exactly when the outer choice has a single item or both amounts agree; the inlined items are appended, the amounts combined, and an unnamed single-item outer choice takes a non-empty inner name |
| Flatten.FlattenChoice | src/flatten.rs:214-268 | the loop agrees with the choice's flattening function (an error exactly when it has none); the result is a choice whose elements carry the schema's version, and a choice of other than one item keeps its own amount and no name |
| Flatten.FlattenChoiceItem | src/flatten.rs:219-259 | one item of the loop agrees with the step function: a group is merged as a choice, added as its only element or as a reference to its element group, or adds nothing when empty; a nested choice is merged; an element is added |
| Flatten.InnerName | src/flatten.rs:225-233 | a named collection keeps its name; an unnamed one takes the group reference after its first three bytes, and fails exactly when byte 3 is not a character boundary |
| Flatten.InnerNameOfPrefixed | src/flatten.rs:225-233 | a reference in the "AR:" namespace loses exactly that prefix |
| Flatten.ChoicePrefixFails | src/flatten.rs:219-222 | once an item fails, the whole choice fails |
| Flatten.ChoiceOfElements | src/flatten.rs:214-268 | a choice of plain elements flattens to an unnamed choice of exactly those elements, in order, stamped with the version, with the choice's own amount |
| Flatten.FlattenGroup | src/flatten.rs:201-212 | agrees with the group's flattening function; a group without content is an error, a choice group flattens to a choice, and every element is stamped with the version |
| Flatten.WithOuterAmount | src/flatten.rs:323-386 | an element lifted out of a one-item choice combines its amount with the choice's; group references are unchanged |
| Flatten.SimplifySequence | src/flatten.rs:323-386 | a sequence whose only non-empty part is a multi-item choice becomes that choice; otherwise it is the unnamed sequence of its parts' contributions |
| Flatten.SingleChoiceInlined | src/flatten.rs:323-386 | a one-item choice inside a sequence contributes its item, with the choice's amount combined in |
| Flatten.FlattenSequence | src/flatten.rs:296-387 | the loop agrees with the sequence's flattening function (its items flattened one by one, then simplified); every element carries the version, and a sequence result is unnamed |
| Flatten.SequencePartsAt | src/flatten.rs:298-320 | the flattened items exist exactly when every item flattens, and item j's part is the flattening of item j |
| Flatten.SequenceOfElements | src/flatten.rs:296-387 | a sequence of plain elements flattens to an unnamed sequence of exactly those elements, in order, stamped with the version |
| Flatten.WithExtraAttributes | src/flatten.rs:170-193 | simple-content attributes are appended to element or character content and nothing else changes |
| Flatten.FlattenComplexType | src/flatten.rs:103-156 | a complex type without content, with a missing group or with failing attribute groups is an error; element content keeps the attributes of its groups; a choice stays a choice |
| Flatten.FlattenSimpleContent | src/flatten.rs:158-199 | simple content succeeds only on an existing base type with buildable attributes; a base or simple base type gives character content with those attributes |
| Flatten.FlattenType | src/flatten.rs:83-101 | a built-in type is character content without attributes, a simple type flattens as a simple type, and no named type is a bare element group |
| Flatten.FlattenAny | src/flatten.rs:65-81 | agrees with the name's flattening function: a group name flattens to an element group, a missing type is an error, and base and simple types flatten directly; every pattern attribute of the result names a pattern type of the schema |
| Flatten.AnyPatterns | src/flatten.rs:36-49 | every pattern attribute of a flattened type names a simple type of the schema with that pattern and length limit |
| Flatten.RecordAttributes | src/flatten.rs:36-54 | a pattern attribute stores character content under its type name unless that name is stored, an enumeration attribute queues its enumeration and nothing else is queued; stored entries are kept and every new entry is the character content of a pattern type |
| Flatten.ProcessName | src/flatten.rs:19-57 | one step of the work list: a stored name changes nothing; otherwise it fails exactly when the name does not flatten, stores the name's flattening, keeps every stored entry, queues only names that flattening refers to, and every reference of a stored type is stored or queued |
| Flatten.ReachesStep | src/flatten.rs:27-54 | a name that the flat type of a reached name refers to is reached from the root |
| Flatten.WorkListStep | src/flatten.rs:19-57 | a step of the work list keeps its invariant: the table stays faithful and covered, the root stays stored or queued, and every queued name is reached from the root |
| Flatten.WorkListFails | src/flatten.rs:19-23 | a queued name that does not flatten is a name reached from the root that does not flatten |
| Flatten.FlattenSchema | src/flatten.rs:6-62 | a schema without exactly one root element is an error; the work list always drains, since each step stores a new storable name or shortens the list; a result holds the root's type and every type referenced from the table, and each entry is the flattening of its name or the character content of a pattern attribute's type; an error means some name reached from the root type does not flatten |
| Flatten.FaithfulTableStorable | src/flatten.rs:19-58 | the work list stores only names of schema types or of groups with the group suffix, so only finitely many |
| Flatten.StoringShrinks | src/flatten.rs:22-57 | storing a name not yet stored shrinks the set of storable names still to store |
| ListMerge.FirstWithKey | src/merge.rs:66-71 | the position of the first entry with the key, or none when no entry has it |
| ListMerge.InsertAt | src/merge.rs:89-94 | the entry is inserted at the position and the others shift by one |
| ListMerge.MergeList | src/merge.rs:58-108 | the loop computes the positional merge of the incoming list into the current one |
| ListMerge.KeySet | src/merge.rs:58-108 | the keys of a list are exactly the keys of its entries |
| ListMerge.MergeKeys | src/merge.rs:58-108 | a merged list holds the keys of both lists and no others |
| ListMerge.MergeEmbeds | src/merge.rs:72-82 | every current entry survives, in order, and only grows |
| ListMerge.FreshBlock | src/merge.rs:89-94 | incoming entries with new keys are inserted in one block, in their order, at the insertion point |
| ListMerge.AfterMatch | src/merge.rs:72-94 | after a match, the following new entries are inserted right after the matched entry |
| ListMerge.MergeCovers | src/merge.rs:58-108 | every incoming entry is covered by an entry of the result |
| ListMerge.MergeTotal | src/merge.rs:111-156 | a combination that cannot fail gives a merge that cannot fail |
| ListMerge.MergeSucceeds | src/merge.rs:72-82 | when no key is an element in one list and a group reference in the other, the merge succeeds |
| Merge.CombineItems | src/merge.rs:72-82 | combining an element with a group reference of the same name fails; otherwise the key is kept |
| Merge.CombinedItemGrows | src/merge.rs:72-82 | a combined element only gains version bits |
| Merge.CombinedItemCovers | src/merge.rs:72-82 | the combined element holds the incoming element's version bits |
| Merge.CombineAttributes | src/merge.rs:111-129 | combining attributes never fails, keeps the name, and unites the version bits |
| Merge.CombineLiterals | src/merge.rs:132-156 | combining literals never fails and unites the version bits |
| Merge.ItemLaws | src/merge.rs:58-108 | item combination keeps keys, only grows entries, and covers the incoming entry |
| Merge.AttrLaws | src/merge.rs:111-129 | the same three laws for attributes, and the combination is total |
| Merge.LiteralLaws | src/merge.rs:132-156 | the same three laws for enumeration literals, and the combination is total |
| Merge.MergedCollection | src/merge.rs:58-108 | collections of different shapes keep the current one; otherwise the result holds the keys of both, keeps every current entry in order, and covers every incoming entry |
| Merge.MergeElementCollection | src/merge.rs:58-108 | the loop computes the merged collection |
| Merge.KindClashFails | src/merge.rs:72-82 | an incoming item whose first namesake has the other kind fails the merge |
| Merge.NoKindClashSucceeds | src/merge.rs:58-108 | without such a clash the merge succeeds |
| Merge.MergedAttributes | src/merge.rs:111-129 | the merged attribute list holds the names of both lists, keeps every current attribute in order, and covers every incoming one |
| Merge.MergeAttributes | src/merge.rs:111-129 | the loop computes the merged attribute list |
| Merge.MergedEnum | src/merge.rs:132-156 | enumerations with different names fail; otherwise the literals of both are kept and the versions united |
| Merge.MergeEnums | src/merge.rs:132-156 | the loop computes the merged enumeration |
| Merge.MergedType | src/merge.rs:29-55 | types of different kinds keep the current type; otherwise the result only grows the current type, and it fails exactly when its collection or enumeration fails |
| Merge.MergeElementTypes | src/merge.rs:29-55 | the method computes the merged type |
| Merge.MergeName | src/merge.rs:11-22 | one name of the loop: it is added, kept or merged, or its failure shows that the tables cannot be merged |
| Merge.TypeNames | src/merge.rs:6-9 | every name of either table, each once |
| Merge.MergeComplete | src/merge.rs:5-26 | once every name is done, the result has the names of both tables, takes one-sided types as they are, and merges shared types |
| Merge.Merge | src/merge.rs:5-26 | the merge succeeds exactly when every shared type merges; the result holds all names, keeps one-sided types, and grows shared ones |
| Merge.Reversed | src/main.rs:248 | the versions are visited from the last to the first |
| Merge.MergeFoldNames | src/main.rs:244-253 | merging a list of tables into a base gives the names of the base and of every table |
| Merge.MergeVersions | src/main.rs:244-253 | no schema at all is an error; otherwise the last schema is the base and the others are merged into it, newest first |
| Merge.MergeVersionsNames | src/main.rs:244-253 | the merged table names every type of every version |
| AutosarTypes.ElementCollectionItem.Name | src/main.rs:342-348 | an element is named by its name and a group reference by the group |
| AutosarTypes.ElementCollection.Items | src/main.rs:333-339 | both kinds of collection expose their sub-elements |
| AutosarTypes.ElementDataType.GroupRefOf | src/main.rs:300-306 | a group reference exists exactly for types with element content |
| AutosarTypes.ElementDataType.AttributesOf | src/main.rs:308-314 | every variant exposes its attributes |
| AutosarTypes.ElementDataType.XsdTypenamesOf | src/main.rs:316-322 | only pure element content records its XSD type names |
| AutosarTypes.ElementDataType.BasetypeOf | src/main.rs:324-330 | a base type exists exactly for types with character content |
| AutosarTypes.NewTypes | src/main.rs:352-388 | a new table has no element or group types and exactly the five built-in XSD character types |
| AutosarTypes.NewTypesSane | src/main.rs:352-388 | a table without element or group types passes the sanity check |
| AutosarTypes.GroupFindings | src/main.rs:264-272 | a group element is reported exactly when its type is missing |
| AutosarTypes.RefFindings | src/main.rs:273-278 | an element type is reported exactly when its group is missing |
| AutosarTypes.AttrFindings | src/main.rs:279-286 | an attribute is reported exactly when its character type is missing |
| AutosarTypes.SanityFindings | src/main.rs:263-288 | nothing is reported exactly when every reference of the table resolves |
| AutosarTypes.VersionBit | src/main.rs:232 | each schema file's version is a single bit |
| AutosarTypes.VersionBitsDisjoint | src/main.rs:227-232 | different schema files have disjoint version bits |
| Dedup.DedupKeyCmp | src/dedup.rs:196-201 | names are ordered by byte length first and then alphabetically; equal only when identical |
| Dedup.DedupOrderFacts | src/dedup.rs:196-201 | that order is a strict total order |
| Dedup.SortedKeys | src/dedup.rs:44-49 | the names of a table, each once, in that order |
| Dedup.FindReplacements | src/dedup.rs:41-64 | each duplicate type is replaced by the first of its twins in that order, and only duplicates are replaced |
| Dedup.CanonicalTargetsSurvive | src/dedup.rs:41-64 | every replacement points to a type that is kept, and to a smaller name |
| Dedup.CanonicalLeavesNoDuplicates | src/dedup.rs:41-64 | after removing the replaced types, no two kept types are equal |
| Dedup.EmptyTableNoDuplicates | src/dedup.rs:34-37 | no replacement means the table had no duplicates |
| Dedup.RemovalKeepsTargets | src/dedup.rs:26-32 | removing the replaced types keeps every target, leaves a non-empty table non-empty, and shrinks the table when anything was replaced |
| Dedup.ReplacedIffTwin | src/dedup.rs:50-62 | a name is replaced exactly when an equal type sorts before it |
| Dedup.FirstIsCanonical | src/dedup.rs:50-62 | a name is replaced by the first of its twins |
| Dedup.RemoveKeys | src/dedup.rs:10-12 | the table without the replaced names |
| Dedup.Subst | src/dedup.rs:117-145 | a replaced name becomes its replacement and every other name stays |
| Dedup.RewriteAttributes | src/dedup.rs:117-145 | each attribute's type is substituted and nothing else changes |
| Dedup.ChartypeRewriteEffect | src/dedup.rs:117-145 | after the rewrite no attribute or base type names a replaced character type, and only those names changed |
| Dedup.GroupItemRewriteEffect | src/dedup.rs:147-176 | group items keep their kind and order; only their type and group names are substituted |
| Dedup.GroupRefRewriteEffect | src/dedup.rs:178-194 | only the group reference of an element type is substituted |
| Dedup.EmptyGroupRefRewrite | src/dedup.rs:178-194 | no replacements change no element type |
| Dedup.EmptyItemsRewrite | src/dedup.rs:147-176 | no replacements change no group |
| Dedup.ReplaceElementChartypes | src/dedup.rs:117-145 | the loop rewrites every element type's character type references |
| Dedup.ReplaceGroupitemTypes | src/dedup.rs:147-176 | the loop rewrites every group's items |
| Dedup.ReplaceElementGrouptypes | src/dedup.rs:178-194 | the loop rewrites every element type's group reference |
| Dedup.FindChartypeReplacements | src/dedup.rs:41-64 | the replacement table of the character types |
| Dedup.FindGroupReplacements | src/dedup.rs:66-90 | the replacement table of the groups |
| Dedup.FindElemtypeReplacements | src/dedup.rs:92-115 | the replacement table of the element types |
| Dedup.CharPhaseResolves | src/dedup.rs:5-12 | the character phase keeps every reference that resolved before |
| Dedup.RoundResolves | src/dedup.rs:15-33 | a round keeps every reference that resolved before and leaves the character types alone |
| Dedup.RoundShrinks | src/dedup.rs:15-33 | a round removes exactly the replaced names, keeps the tables non-empty, and shrinks them when anything was replaced |
| Dedup.QuietRoundIsIdentity | src/dedup.rs:34-37 | a round without replacements changes nothing |
| Dedup.CharPhaseKept | src/dedup.rs:5-12 | the character phase keeps a character type exactly when no earlier name has the same definition, and keeps its definition |
| Dedup.CharPhaseTwinKept | src/dedup.rs:5-12 | every character type the phase removes has a kept twin with the same definition |
| Dedup.CharPhaseFinal | src/dedup.rs:5-12 | the kept character types: exactly those without an earlier twin, unchanged, non-empty, no two equal, and covering every removed definition |
| Dedup.RoundIsCanonical | src/dedup.rs:15-33 | a round through the canonical tables of its input merges only equal groups and equal element types |
| Dedup.TraceExtend | src/dedup.rs:14-38 | appending a canonical round to the record of the loop keeps it a record of canonical rounds |
| Dedup.DedupLoopStart | src/dedup.rs:5-14 | the loop starts after the character phase, with non-empty tables and every resolving reference still resolving |
| Dedup.DedupLoopStep | src/dedup.rs:15-37 | a round keeps the loop state and shrinks the tables unless it replaced nothing |
| Dedup.DedupCharacterTypes | src/dedup.rs:5-12 | the character phase replaces exactly the character types that have an equal, earlier twin, each by the first such twin, and leaves no two equal character types |
| Dedup.DedupRound | src/dedup.rs:15-33 | one round replaces exactly the groups and element types that have an equal, earlier twin, each by the first such twin; when nothing was replaced the tables had no duplicates and the round changes nothing |
| Dedup.DedupTypes | src/dedup.rs:4-39 | the kept character types are exactly those without an earlier twin, with their definitions, and every removed one has a kept twin; every later state is a round that merges only equal groups and element types of the state before; the result only removes names, has no duplicates in any table, and keeps every reference that resolved |
| GeneratorTypes.MergedType.Collection | src/generator/element_types.rs:51-53 | exactly the non-character types have a collection |
| GeneratorTypes.MergedType.Attributes | src/generator/attributes.rs:16-19 | an element group has no attributes; the other types expose theirs |
| GeneratorTypes.MergedType.Basetype | src/generator/element_types.rs:57-61 | character and mixed content have a base type |
| GeneratorTypes.MergedType.XsdTypenames | src/generator/element_types.rs:70 | only pure element content records its XSD type names |
| GeneratorTypes.MergedType.Items | src/generator/subelements.rs:28-32 | character content has no items; the others have their collection's items |
| Compaction.FindOrAppend | src/generator/subelements.rs:44-58 | the run occurs at the returned position of the new table, no earlier position of the old table holds it, and the table is either unchanged or has the run appended at its old end |
| Compaction.CompactedReuses | src/generator/subelements.rs:44-53 | a run that occurs in the table is reused at its first occurrence and the table is unchanged |
| Compaction.CompactedAppends | src/generator/subelements.rs:54-58 | a run that does not occur in the table is appended at its old end |
| Compaction.CmpLargerFirst | src/generator/subelements.rs:108-127 | larger counts first, then names alphabetically; equal only for the same entry |
| Compaction.SortLargerFirst | src/generator/subelements.rs:20-22 | every name once, ordered by that comparison |
| Compaction.LastIndexMap | src/generator/subelements.rs:14-18 | each element maps to its last position in the list |
| Compaction.FirstIndex | src/generator/subelements.rs:69-72 | the first position of a name, and none exactly when it is absent |
| Compaction.SortedNameRank | src/generator/subelements.rs:23-24 | in a sorted listing, a name's position is the number of smaller names |
| Compaction.SortedListingUnique | src/generator/identifier_enums.rs:41-55 | a set has only one sorted listing |
| Subelements.CmpSubelements | src/generator/subelements.rs:108-127 | types with more items come first, then names alphabetically |
| Subelements.MapItem | src/generator/subelements.rs:63-74 | an element refers to its definition's index and a group reference to its group's alphabetical position; either fails when the lookup fails |
| Subelements.MapItems | src/generator/subelements.rs:61-76 | the list is mapped item by item, and it fails exactly when one item fails |
| Subelements.GroupRefRank | src/generator/subelements.rs:68-74 | a group reference refers to the group's rank among all type names |
| Subelements.StoreVersions | src/generator/subelements.rs:35-58 | the item versions are reused at their first occurrence in the versions array or appended to it, and occur at the recorded position |
| Subelements.StoreEntries | src/generator/subelements.rs:76-87 | the item references are reused at their first occurrence or appended, and each entry at the recorded position refers to its item |
| Subelements.StoreItemRefs | src/generator/subelements.rs:61-88 | the item references occur at the recorded position and refer to the items; an unresolvable item is an error |
| Subelements.StoreType | src/generator/subelements.rs:27-97 | one type of the loop keeps every earlier entry and adds this type's |
| Subelements.TablesComplete | src/generator/subelements.rs:5-106 | every type has an entry: zero for no items; otherwise its versions and references occur at its positions |
| Subelements.BuildInfo | src/generator/subelements.rs:5-106 | the tables build exactly when every item resolves, and then every type's runs are where its entry says |
| Attributes.CmpAttributes | src/generator/attributes.rs:83-102 | types with more attributes come first, then names alphabetically |
| Attributes.StrippedFacts | src/generator/attributes.rs:42-43 | stripping clears only the version of each attribute |
| Attributes.StrippedIgnoresVersions | src/generator/attributes.rs:40-43 | lists that differ only in versions strip to the same list, so they share a run |
| Attributes.StrippedRoundTrip | src/generator/attributes.rs:22-43 | the stripped list and the version list together give back the attributes |
| Attributes.StripVersions | src/generator/attributes.rs:42-43 | the loop clears every version |
| Attributes.StoreType | src/generator/attributes.rs:15-74 | one type of the loop keeps every earlier entry and adds this type's; for a type with attributes, its version run and its version-stripped attribute run are each reused at their first occurrence or appended |
| Attributes.BuildInfo | src/generator/attributes.rs:4-81 | the versions array only grows, and every type's stripped attributes and versions occur where its entry says |
| Attributes.TablesComplete | src/generator/attributes.rs:4-81 | every type has an entry: (0,0) and 0 for no attributes; otherwise its range spans its attributes and holds them |
| ElementTypes.CalcElementMode | src/generator/element_types.rs:180-199 | an element choice of any amount is a bag, another choice a choice, a sequence a sequence; character and mixed content have their own modes |
| ElementTypes.ModeOfElementContent | src/generator/element_types.rs:180-199 | the three element modes are exactly the types with a collection and no base type |
| ElementTypes.AddElementNames | src/generator/element_types.rs:165-174 | each element's name is recorded under its type |
| ElementTypes.BuildElementnamesOfTypeList | src/generator/element_types.rs:152-178 | "AUTOSAR" is recorded under "AR:AUTOSAR"; otherwise a name is recorded under a type exactly when some element of that name has that type |
| ElementTypes.FirstDest | src/generator/element_types.rs:130-133 | the position of the first "DEST" attribute, and none exactly when there is none |
| ElementTypes.RefAttributeTypesAreLiterals | src/generator/element_types.rs:122-150 | every reference name is a literal of some enumeration |
| ElementTypes.RefAttributeTypesComplete | src/generator/element_types.rs:122-150 | every literal of the enumeration typing a first "DEST" attribute is a reference name |
| ElementTypes.RefTypenames | src/generator/element_types.rs:70 | the recorded XSD type names, or none for other content |
| ElementTypes.RefNameCountRemove | src/generator/element_types.rs:71-78 | dropping one name lowers the count of its reference name by one and leaves every other count alone |
| ElementTypes.RefNamesCounted | src/generator/element_types.rs:71-78 | the collected reference names of a duplicate-free list of the names hold each reference name as often as there are names with that reference name |
| ElementTypes.SortedRefNames | src/generator/element_types.rs:71-79 | one sorted reference name per name, covering every name, each reference name as often as there are names with that reference name |
| ElementTypes.StoreRefRun | src/generator/element_types.rs:81-96 | the run is (0,0) and the table unchanged for no names; otherwise it holds one entry per name, sorted, covering every name with the multiplicity of the collected list, reused at its first occurrence in the table or appended |
| ElementTypes.SpecFor | src/generator/element_types.rs:47-105 | a type's entry fails exactly when a lookup the source unwraps fails; otherwise the entry has the type's mode, index ranges, character-type position and reference run |
| ElementTypes.SpecsFor | src/generator/element_types.rs:47-106 | the loop builds the entries of the listed types in order |
| ElementTypes.BuildElementSpecs | src/generator/element_types.rs:6-119 | the table builds exactly when no lookup fails, and then has one entry per type in alphabetical order |
| ElementTypes.SpecsComplete | src/generator/element_types.rs:47-106 | a table built for the sorted listing is correct for any sorted listing |
| ElementTypes.CharacterDataRank | src/generator/element_types.rs:26-30 | a type's character-data index is its base type's rank among the character type names |
| ElementDefinitions.CmpElements | src/generator/element_definitions.rs:19-27 | elements compare by name, type, docstring, ordering, splittability and restriction; equal only when all agree |
| ElementDefinitions.ElemLePreorder | src/generator/element_definitions.rs:19-27 | that comparison is a total preorder |
| ElementDefinitions.BuildElementsInfo | src/generator/element_definitions.rs:6-43 | the fixed AUTOSAR element comes first, followed by every distinct element of every group, once each, sorted |
| ElementDefinitions.BuildDocstringsInfo | src/generator/element_definitions.rs:45-63 | every docstring is numbered by its alphabetical rank; the numbers are distinct and fill 0..n |
| ElementDefinitions.NumberingFacts | src/generator/element_definitions.rs:54-62 | numbering a sorted listing by position numbers each docstring by its rank |
| ElementDefinitions.DocstringOrder | src/generator/element_definitions.rs:125-127 | every docstring once, in ascending order of number |
| ElementDefinitions.DocstringOrderIsNumbering | src/generator/element_definitions.rs:125-139 | listed that way, the docstring at position i has number i |
| ElementDefinitions.RestrictStdToText | src/generator/element_definitions.rs:117-123 | "not set" and "both" read as not restricted; each platform reads as itself |
| IdentifierEnums.AddElementNames | src/generator/identifier_enums.rs:14-23 | one group's element names are added to the set |
| IdentifierEnums.CollectElementNames | src/generator/identifier_enums.rs:12-24 | "AUTOSAR" and the name of every element of every group |
| IdentifierEnums.AddAttributeNames | src/generator/identifier_enums.rs:26-30 | one type's attribute names are added to the set |
| IdentifierEnums.CollectAttributeNames | src/generator/identifier_enums.rs:26-30 | the name of every attribute of every element type |
| IdentifierEnums.AddEnumItems | src/generator/identifier_enums.rs:33-39 | one enumeration's literals are added to the set |
| IdentifierEnums.CollectEnumItems | src/generator/identifier_enums.rs:33-39 | every literal of every enumeration type |
| IdentifierEnums.NameLists | src/generator/identifier_enums.rs:7-55 | the three name sets listed in ascending order, each name once, so that a name's position in its listing equals its rank; "AUTOSAR" is an element name |
| IdentifierEnums.EnumWidth | src/generator/identifier_enums.rs:102 | the width is the longest name's byte length; an empty list is an error, as the source unwraps the maximum |
| IdentifierEnums.ElementNamesHaveWidth | src/generator/identifier_enums.rs:12 | the element enumeration always has a width of at least 7 |
| PerfectHash.Hash | src/generator/perfect_hash.rs:160-164 | the hash is a 64-bit word |
| PerfectHash.HashSnoc | src/generator/perfect_hash.rs:160-164 | one more byte multiplies by the parameter and adds the byte, wrapping at 2^64 |
| PerfectHash.HashFromConcat | src/generator/perfect_hash.rs:160-164 | hashing a concatenation continues from the hash of the first part |
| PerfectHash.Slot | src/generator/perfect_hash.rs:80-81 | a key's slot lies within the table |
| PerfectHash.SortedKeys | src/generator/perfect_hash.rs:98-99 | the keys, sorted, as a permutation |
| PerfectHash.TargetIds | src/generator/perfect_hash.rs:101-105 | each key's id is its position in the sorted keys |
| PerfectHash.RankBijection | src/generator/perfect_hash.rs:98-105 | distinct keys get distinct ids, and every id below the key count belongs to one key |
| PerfectHash.BuildBuckets | src/generator/perfect_hash.rs:79-91 | the buckets fail exactly when two keys share both slots; otherwise each bucket holds the keys of its slot |
| PerfectHash.Complement | src/generator/perfect_hash.rs:130-140 | the missing table value makes the two values sum to the id, modulo the key count |
| PerfectHash.AssignKey | src/generator/perfect_hash.rs:127-144 | a key whose two slots are both taken fails; otherwise the free slots are set so that the key's two values sum to its id |
| PerfectHash.CollisionIsCycle | src/generator/perfect_hash.rs:84-90 | two different keys sharing both slots form a cycle of the key graph (two keys on one slot in each table) |
| PerfectHash.ChainIsCycle | src/generator/perfect_hash.rs:115-153 | a closed chain of distinct keys, alternately sharing a first-table and a second-table slot, is a cycle: its keys outnumber the slots they occupy |
| PerfectHash.PeelKey | src/generator/perfect_hash.rs:120-144 | processing a key fails exactly when both of its slots are already taken; otherwise the key is solved, every key solved before stays solved, and no other slot changes |
| PerfectHash.FreeSlotFresh | src/generator/perfect_hash.rs:129-144 | a key with a free slot, added to keys that are all solved, occupies a slot none of them occupies |
| PerfectHash.SpreadAdd | src/generator/perfect_hash.rs:129-144 | adding a key whose slot no earlier key occupies keeps the processed keys a forest |
| PerfectHash.StuckIsCycle | src/generator/perfect_hash.rs:127-128 | a key whose two slots are both taken by keys of the current run closes a cycle with that run |
| PerfectHash.PeelingStep | src/generator/perfect_hash.rs:115-153 | one successful round of the inner loop keeps the peeling invariant (forest, sealed runs, tables solving the processed keys) and processes one more key |
| PerfectHash.PeelStep | src/generator/perfect_hash.rs:115-153 | one round of the inner loop: on success the peeling invariant holds for the new state and one more key is processed; on failure the key graph has a cycle |
| PerfectHash.PeelComponent | src/generator/perfect_hash.rs:114-154 | the inner loop from one key: on success that key is processed, the processed keys still form a forest, and no unprocessed key shares a slot with a processed one; on failure the key graph has a cycle |
| PerfectHash.PeelFinish | src/generator/perfect_hash.rs:110-157 | once every key is processed the tables solve all keys and the key graph has no cycle |
| PerfectHash.Peel | src/generator/perfect_hash.rs:110-157 | the peeling fails exactly when the key graph has a cycle, whatever order the keys are taken in; on success every key's two values sum to its id |
| PerfectHash.MakePerfectHash | src/generator/perfect_hash.rs:64-158 | for a nonempty table, construction fails exactly when two keys share both slots or the key graph has a cycle; a result has two tables of the requested size in which every key's values sum to its id |
| PerfectHash.Counts | src/generator/perfect_hash.rs:48-52 | one count per slot |
| PerfectHash.CountsSum | src/generator/perfect_hash.rs:48-52 | the counts add up to the number of keys |
| PerfectHash.SquaresExceedSum | src/generator/perfect_hash.rs:54 | a sum of squares is at least the sum, equal exactly when no count exceeds one |
| PerfectHash.ScoreFacts | src/generator/perfect_hash.rs:54 | the score is never negative, and it is zero exactly when no slot holds two keys |
| PerfectHash.BucketScore | src/generator/perfect_hash.rs:47-55 | the loop computes a parameter's score |
| PerfectHash.Candidates | src/generator/perfect_hash.rs:47-56 | one scored entry per parameter from 257 to 65537 |
| PerfectHash.RankedCandidates | src/generator/perfect_hash.rs:58 | the candidates, sorted by score, as a permutation |
| PerfectHash.RankedEntry | src/generator/perfect_hash.rs:58 | each ranked entry is a parameter in range with its own score |
| PerfectHash.BestParamsFacts | src/generator/perfect_hash.rs:59-60 | the 200 best parameters are in range, distinct, and in ascending order of score |
| PerfectHash.FindBestDistribution | src/generator/perfect_hash.rs:43-62 | the best 200 parameters; an empty table for a non-empty key list is an error |
| PerfectHash.SearchPairs | src/generator/perfect_hash.rs:12-28 | the pair found is the first pair of the best list, in list order, that neither collides nor has a cycle, and tables for it exist; nothing is found only when no pair works |
| PerfectHash.FindHashParameters | src/generator/perfect_hash.rs:5-41 | one key is an error and no key finds nothing; the triple found is the first that works in the search order (sizes ascending from half the key count, then the pairs of the best list in order), and tables for it exist; nothing is found only when no size and pair works |
| TypeName.StripPrefix | src/generator.rs:36-40 | a leading "AR:" is dropped and any other name is kept |
| TypeName.CamelLength | src/generator.rs:42-53 | every character but the dashes is emitted, and no dash is |
| TypeName.DeriveTypeName | src/generator.rs:32-56 | the loop computes the derived type name |
| TypeName.Words | src/generator.rs:42-53 | a name has one more word than dashes |
| TypeName.WordsRoundTrip | src/generator.rs:42-53 | joining the words with dashes gives back the name, and no word holds a dash |
| TypeName.CamelIsCapitalizedWords | src/generator.rs:42-53 | the emitted text is the name's words, capitalised and concatenated |
| TypeName.DerivedNameFacts | src/generator.rs:32-56 | the type name is "Ar" followed by the capitalised words, has no dash, and is two longer than the name without its dashes |
| TypeName.PrefixIgnored | src/generator.rs:36-40 | a name and its "AR:" form give the same type name |
| Order.StrCmp | src/merge.rs:9 | the comparison of Rust strings: equal only for the same string, and consistent both ways |
| Order.StrOrderFacts | src/merge.rs:9 | string order is a strict total order |
| Order.SortBy | src/generator/perfect_hash.rs:58 | sorting gives a sorted permutation of the input |
| Order.SortedStrings | src/generator/identifier_enums.rs:45 | a set's strings, in ascending order, each once |
| Order.SetToSeq | src/generator/identifier_enums.rs:41-44 | a set's members, each once, in some order |
| Order.CharsInBytes | src/xsd.rs:1037 | a byte position is a character boundary exactly when some character prefix has that byte length, and then it counts that prefix's characters |
| Order.ByteSlice | src/xsd.rs:1037 | a byte slice succeeds exactly when both ends are character boundaries in order, and is then the characters between them |

## Left out

- Reading the schema files: the XML event loop of the schema reader
  (`parse_schema`, `parse_element` and the others) and `Xsd::load` are not
  modelled. The model starts from the reader's syntax tree (`Xsd.Xsd`) and
  covers only its pure helpers.
- Printing, writing files and the text that the `generate` functions emit
  (`subelements::generate`, `attributes::generate`,
  `element_definitions` entry text, `generate_enum` text) are not modelled.
  The model stops at the tables and indices those texts are built from.
- `name_to_identifier` is a parameter (`ident`) of `ElementTypes`; its
  spelling rules are not modelled.
- The perfect-hash indices that `generate_enum` writes next to each name,
  and its hash-sorted string table, are not modelled. The model stops at
  the sorted name lists and `PerfectHash`.
- Hash maps and sets are iterated in an unspecified order: the model
  picks any order. Outputs that depend on that order (the position of a
  reused run) are stated for every order.
- Flatten.FlattenSchema, Flatten.FlattenGroup and the other flattener
  methods take a `fuel` bound:
  - it bounds the recursion through group references and through the base
    types of simple content; the work list itself needs no bound;
  - an input that the source would flatten forever (a cyclic group) ends
    in an error here.
- The source's snapshots of the type model disagree.
  - `merge.rs` and `flatten.rs` work on an older `DataType` shape
    (`FlatTypes`). `main.rs` declares the newer `AutosarDataTypes` shape
    (`AutosarTypes`), which `dedup.rs` uses.
  - So the model proves each stage on its own shape and does not compose
    `Merge.MergeVersions` with `Dedup.DedupTypes`.
  - `MergedElementDataType`, the generator's view, is not part of the
    source shown. `GeneratorTypes` is reconstructed from how the generator
    files use it. `src/generator.rs` is likewise an older snapshot, of
    which only `derive_type_name` is modelled.
- Dedup.DedupTypes: for groups and element types the contract states,
  round by round, that only twins of that round's input are merged. It does
  not state against the input which groups and element types survive,
  because each round rewrites their definitions before the next compares
  them.
- Dedup.DedupTypes, Dedup.FindReplacements and the three `Find*`
  methods require non-empty tables. The source computes `len() - 1` on an
  unsigned length there, which underflows and panics on an empty table.
- Xsd.ComplexTypeName requires a name or an enclosing name. The source
  reaches `todo!()` otherwise.
- PerfectHash.MakePerfectHash and PerfectHash.FindHashParameters require
  at most 65535 keys. The source stores ids as `u16` and uses
  `u16::MAX` as the "unassigned" mark.
- PerfectHash.HasCycle is stated by counting: some set of keys occupies
  no more slots in the two tables together than it has keys. A collision
  and a closed chain of keys are both proved to be such a set. The converse,
  that every such set contains a closed chain, is not proved.
- Flatten.FlattenSchema: its error condition is stated in one direction
  only. A reached name that does not flatten may never be processed: when
  a pattern attribute's character type is already stored under that name,
  the work list skips it.
- Flatten.ProcessName and Flatten.FlattenSchema: a name that is both a
  pattern attribute's type and a type of its own is stored as whichever
  the work list reaches first; the contract states that each entry is one
  of the two.
- The sanity check prints its findings. The model returns them as a set
  (AutosarTypes.SanityFindings).
- `src/generator/character_types.rs` and `src/generator/xsd_versions.rs`
  are not part of this model; they only provide context.
