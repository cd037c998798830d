# OData entity-set join engine — a Dafny model

This project models the client side of a SAPUI5 application that combines
the rows of several OData V2 entity sets into one table. The model covers:

- **The metadata index.** It looks up entity sets, entity types, associations
  and navigation properties in a parsed `$metadata` document
  (`_getEntitySetProperties`, `_findEntityType`, `_findAssociation`,
  `_getNavigationProperties`, `_findNavigationProperty`, `getEntityType`,
  `getProperty`).
- **The relationship checks.** These decide whether two entity sets are
  related. There are three variants: a navigation-property search, a
  direct one-way navigation test, and a shared property name.
- **Join planning.** Secondary entity sets are split into a `$expand`
  list and forced joins (`loadCombinedData`, `loadCombinedDataV2`).
- **The row joins.** These are the keyed join `_joinData` /
  `_getJoinedData`, the positional pairing, `_addColumnsToMainData` and
  `_mergeAndAddExpandData`.
- **The column descriptors.** These are `_createColumnMetadata` and
  `_convertColumnMetadata`, including the name de-duplication, and the
  key-predicate URI builders.
- **The form rules of the base controller.** These are the search
  filters, the create/update dialog fields and controls, input validation,
  and the delete notice.
- **The sample controller.** It discovers `$expand` properties and
  chooses the table binding.

How JavaScript is represented:

- JavaScript values are the `Js.Value` datatype, with `===` as
  `StrictEquals` and truthiness as `Truthy`.
- A thrown exception is the `Failure` case of `Result`.
- A row is a `map<string, Value>`, and object spread is map union.
- Arrays that the source mutates in place are fields of the classes
  `RowJoin.RowArray` and `RowJoin.ColumnList`.
- Some arrays of the metadata document may be absent: a schema's
  `entityType`, `association` and `entityContainer`, a container's
  `entitySet` and a type's `navigationProperty`. These are `Option`
  values. Where the source reads one of them without a `|| []` fallback,
  the model throws the `TypeError` that JavaScript would.
- The other arrays are always present in the model: `dataServices.schema`,
  a type's `key.propertyRef` and its `property`. They are plain sequences
  (see "Left out").

## Model

| member | source | states |
|---|---|---|
| MetadataIndex.MarkKeys | webapp/controller/Backup.js:336-342 | each property of the type, in order, flagged as a key exactly when its name is among the key references |
| MetadataIndex.EntitySetProperties | webapp/controller/Backup.js:312-349 | succeeds exactly when a set has the name and some entity type is named by the last dot-segment of the first such set's type. "Set not found", carrying the requested name, exactly when no set has the name; "type not found", carrying that segment, exactly when the set exists and no type has it. On success the name is that segment, and the properties are those of the first type with that name, with their key flags |
| MetadataIndex.KeyedTypeProperties | webapp/controller/Backup.js:328-348 | "type not found" exactly when no entity type has the name; otherwise that name and the properties of the first type with it, with their key flags |
| MetadataIndex.Summarize | webapp/controller/HyperView.controller.js:241-254 | one summary per property, in order, keeping name, type and key flag |
| MetadataIndex.GuardedEntitySetProperties | webapp/controller/HyperView.controller.js:215-255 | a falsy metadata argument and a non-object argument each give their own error. For a document, the errors are only a TypeError, set-not-found for the requested name and type-not-found, each exactly under the conditions of `DocumentEntitySetProperties`; success names the last segment of the first matching set's type and projects the first type with that name |
| MetadataIndex.TypeSummary | webapp/controller/HyperView.controller.js:232-254 | a TypeError exactly when a schema without `entityType` is reached before a type named by the last segment; type-not-found, carrying the qualified name, exactly when all schemas declare `entityType` and no type has that name; otherwise the summary of the first such type |
| MetadataIndex.DocumentEntitySetProperties | webapp/controller/HyperView.controller.js:221-254 | the errors are only a TypeError, set-not-found for the requested name and type-not-found. Set-not-found exactly when no set has the name. For the first set with the name, a TypeError exactly when a schema without `entityType` is reached before a type named by the last segment of its type, and type-not-found, carrying the qualified type, exactly when all schemas declare `entityType` and none has that name. On success, the name is that segment and the summary projects the first type with that name |
| MetadataIndex.GuardedAgreesWithUnguarded | webapp/controller/HyperView.controller.js:215-255 | when every schema declares its entity types, the guarded look-up succeeds exactly when the unguarded one does, and returns its summary |
| MetadataIndex.StrictSearchThrows | webapp/controller/Backup.js:429-432 | a search over `schema.flatMap(s => s.entityType)` (or any other array field) throws exactly when a schema lacking the array comes before every schema holding a match |
| MetadataIndex.FindEntityType | webapp/controller/Backup.js:429-438 | a TypeError exactly when a schema without `entityType` is reached before a type with the name; not-found exactly when the types are all declared and none has the name; otherwise the first declared type with that name |
| MetadataIndex.FindEntityTypeDeclared | webapp/controller/Backup.js:429-438 | when every schema declares its types, the strict search agrees with a plain first-match search |
| MetadataIndex.FindAssociation | webapp/controller/Backup.js:402-411 | a TypeError exactly when a schema without `association` is reached before a match; not-found exactly when all are declared and none has the name; otherwise the first association named by the last segment of the relationship |
| MetadataIndex.EntityTypeFromAssociation | webapp/controller/Backup.js:390-399 | fails exactly when the association look-up fails; the result is the end opposite the `fromRole`. For well-formed roles it is the end named by `toRole` |
| MetadataIndex.NavigationProperties | webapp/controller/Backup.js:414-426 | succeeds exactly when the type is found and declares navigation properties; maps them one to one, with a direct target exactly when `type` is truthy; the type look-up's error is passed on, and a type without navigation properties throws a TypeError |
| MetadataIndex.FindNavIn | webapp/controller/Backup.js:371-379 | a found property is the first leading to the target, all earlier ones leading elsewhere; none found exactly when every property leads elsewhere; a failure comes from the first association look-up that throws before any match |
| MetadataIndex.FindNavigationProperty | webapp/controller/Backup.js:371-379 | the search runs over the navigation properties of the first type; when listing them fails, its error is passed on |
| MetadataIndex.LookupInContainersIsFind | webapp/controller/Backup.js:50-68 | when every container declares its sets, the container-by-container search equals a first-match search over all their sets |
| MetadataIndex.LookupInSchemasIsFind | webapp/controller/Backup.js:50-68 | the same for the schema-by-schema search: `getEntityType` finds the same set as `_getEntitySetProperties` |
| MetadataIndex.GetEntityType | webapp/controller/BaseController.js:44-62 | the nested loops return the attached type, the qualified name or null for the first set with the name; a container without `entitySet` throws |
| MetadataIndex.LastNamed | webapp/controller/Backup.js:69-81 | nothing exactly when no property has the name; otherwise the last property with it |
| MetadataIndex.GetProperty | webapp/controller/BaseController.js:63-75 | the loop returns the last property with the key; a found property belongs to the resolved type |
| MetadataIndex.LastNamedUnique | webapp/controller/Backup.js:69-81 | with distinct property names the last match is the first match |
| Relationship.NavigationRelationship | webapp/controller/Backup.js:352-362 | errors of either set look-up propagate, the first set's first; otherwise the navigation search from the first type to the second |
| Relationship.DirectNavigationProperties | webapp/controller/BaseController.js:369-387 | succeeds exactly when the type is found and every navigation property states a `type`; each mapped property carries the last segment of that type; a failed type look-up passes its error on |
| Relationship.IsRelatedOneWay | webapp/controller/BaseController.js:346-366 | the first set's look-up error, then the second's, is passed on. With both sets found, it succeeds exactly when listing the first type's navigation properties does, and passes on that error, including the unknown-type error. True exactly when a navigation property of the first set's type states the second set's type as its target |
| Relationship.DirectNavigationAgrees | webapp/controller/BaseController.js:369-387 | when every navigation property states its target, both ways of listing navigation properties coincide |
| Relationship.FindNavInDirect | webapp/controller/Backup.js:371-379 | with direct targets only, the search never throws, and finds a property exactly when one targets the type |
| Relationship.OneWayAgreesWithNavigationSearch | webapp/controller/BaseController.js:346-366 | with direct targets, the one-way test and the navigation search of Backup.js give the same answer |
| Relationship.SharesPropertyName | webapp/controller/HyperView.controller.js:135-152 | a missing document throws; otherwise the first set's look-up error, then the second's, is passed on; succeeds exactly when both look-ups do; true exactly when some property name occurs in both sets |
| Relationship.SharesPropertyNameSymmetric | webapp/controller/HyperView.controller.js:135-152 | swapping the two sets changes neither the outcome nor the answer |
| Columns.CreateColumnMetadata | webapp/controller/Backup.js:634-644 | one descriptor per property, in order, with its name, key flag, set and model |
| Columns.ColumnsFollowEntityType | webapp/controller/Backup.js:634-644 | over the entity type's properties, a descriptor is a key exactly when its name is a key reference |
| Columns.NoNavigationColumns | webapp/controller/Backup.js:692-725 | when no relationship name is a schema namespace, navigation properties add no columns |
| Columns.EmitNames | webapp/controller/Backup.js:672-721 | each column takes its own name unless an earlier column took it, and then the fallback prefixed by its type |
| Columns.EmitCopies | webapp/controller/Backup.js:672-721 | each column keeps its candidate's key flag, set and type, and the model |
| Columns.FallbackCanRepeat | webapp/controller/Backup.js:676-678 | three candidates with one name give a repeated fallback name: the fallback is not checked again |
| Columns.NameColumns | webapp/controller/Backup.js:672-721 | the loop with its set of recorded names emits exactly the named columns |
| Columns.ConvertColumnMetadata | webapp/controller/Backup.js:653-732 | fails, with a TypeError, exactly when the traversal meets an absent array; otherwise the named columns of every set of every container of every schema |
| Columns.CandidatesErrors | webapp/controller/Backup.js:653-732 | the only error the traversal raises is a TypeError |
| Columns.ModelForEntitySet | webapp/controller/Backup.js:824-827 | null exactly when no column belongs to the set; otherwise the model of the first column that does |
| Columns.CreateUriFromJsonModel | webapp/controller/Backup.js:830-844 | never throws; the path is `/Set(...)`, and `/Set()` with no key columns for the set. When no key name or value holds a comma, the part in parentheses splits at commas into one `K='v'` per key column of the set, in column order |
| Columns.CreateUriFromMetadata | webapp/controller/Backup.js:847-854 | empty for a keyless type, `K='v'` for one key. When no key name or value holds a comma, the predicate splits at commas into one `K='v'` per key reference, in key order |
| Columns.UriBuildersAgree | webapp/controller/Backup.js:830-854 | when the key columns list the type's keys in order, both builders give the same URI |
| Columns.KeyPredicateSplits | webapp/controller/Backup.js:830-844 | a key predicate splits at commas back into its `K='v'` parts when no name or value holds a comma |
| RowJoin.RowArray.constructor | webapp/controller/Backup.js:441-464 | the array holds the given rows |
| RowJoin.JoinFromAppends | webapp/controller/Backup.js:441-464 | the join array keeps its rows and gains one row per main row: the main row overlaid by the first match in the array as it stood then |
| RowJoin.JoinFromFailure | webapp/controller/Backup.js:446-452 | with the key check, the join throws exactly when some main key is falsy, after the rows of the main rows before the first such key; without a throw, one row per main row |
| RowJoin.JoinData | webapp/controller/Backup.js:441-464 | the join array becomes the self-feeding join of the main rows; the call returns that array, or the missing-key error |
| RowJoin.JoinSelfFeedHarmless | webapp/controller/BaseController.js:390-408 | when main rows do not carry the join property and have defined keys, appended rows never win a search: the result is the original rows followed by the intended join |
| RowJoin.JoinSelfFeedCounterexample | webapp/controller/Backup.js:455-460 | with main and join property equal, the second main row joins to the first row appended, not to its own data |
| RowJoin.PairByIndex | webapp/controller/Backup.js:484-491 | one row per row of the first list; from the second list's row of the same index fields are added and overwritten, absent ones leave the first row as is |
| RowJoin.GetJoinedData | webapp/controller/Backup.js:482-503 | with both join properties truthy, the self-feeding join, with the second array mutated; otherwise pairing by index, leaving the second array alone |
| RowJoin.CombineWithIndex | webapp/controller/HyperView.controller.js:179-190 | one row per first row, with a fresh `__metadata` array, an index `id` unless either row carries one, and every other field as in the pairing |
| RowJoin.CombineIsPairing | webapp/controller/HyperView.controller.js:179-190 | each combined row is `{id: i, ...pair, __metadata: []}` |
| RowJoin.AddColumnsRow | webapp/controller/Backup.js:790-812 | main fields stay; with a matching joined row its other fields are added; otherwise every sub-column is added blank |
| RowJoin.AddColumnsToMainData | webapp/controller/Backup.js:776-821 | each main row is replaced in place by its widened row; the sub-set's descriptors are appended to the metadata |
| RowJoin.ColumnList.constructor | webapp/controller/Backup.js:734-774 | the list holds the given descriptors |
| RowJoin.AppendNewColumnsSpec | webapp/controller/Backup.js:746-750 | the old descriptors stay first, distinct names stay distinct, every incoming name becomes present, and no other descriptor appears |
| RowJoin.ObjectFields | webapp/controller/Backup.js:758-763 | exactly the object-valued fields of the expanded row |
| RowJoin.MergeExpandRow | webapp/controller/Backup.js:753-767 | a row without an expanded row of the same `ID` is unchanged; otherwise it gains or overwrites that row's object-valued fields and keeps the rest |
| RowJoin.MergeAndAddExpandData | webapp/controller/Backup.js:734-774 | every main row is merged in place; the metadata list gains the new descriptors whose names are not present yet |
| JoinPlanning.PartitionOptions | webapp/controller/Backup.js:559-573 | the loop computes the partition specified by `PartitionOf` |
| JoinPlanning.PartitionFailurePersists | webapp/controller/Backup.js:559-573 | once a check throws, later secondaries do not change the outcome |
| JoinPlanning.PartitionSucceeds | webapp/controller/Backup.js:559-573 | the partition succeeds exactly when every secondary's check does |
| JoinPlanning.PartitionFirstError | webapp/controller/Backup.js:559-573 | a failure is the error of the first check that throws |
| JoinPlanning.PartitionOrder | webapp/controller/Backup.js:559-573 | the expand list is the related secondaries in order, and the join list the unrelated ones in order |
| JoinPlanning.PartitionTags | webapp/controller/Backup.js:559-573 | every expand entry carries the name of the navigation property its check found; every secondary of another service is joined |
| JoinPlanning.ExpandQueryLists | webapp/controller/Backup.js:576-578 | the `$expand` string reads back to the tagged names in order |
| JoinPlanning.LoadCombinedDataV2 | webapp/controller/HyperView.controller.js:48-132 | no options, nothing issued; otherwise the expand names, join conditions and requests the loop accumulates over the secondaries |
| JoinPlanning.IssueForcedJoins | webapp/controller/HyperView.controller.js:121-126 | one forced-join request per condition is appended, in order, each called with the main option and the condition |
| JoinPlanning.ExpandNamesSpec | webapp/controller/HyperView.controller.js:65-98 | every secondary of the main service is listed for expand, by set name, in order (the unawaited check is always truthy) |
| JoinPlanning.JoinConditionsSpec | webapp/controller/HyperView.controller.js:81-98 | every secondary of another service gets one join condition, in order |
| JoinPlanning.RequestsRepeat | webapp/controller/HyperView.controller.js:100-126 | an expand read issued in one iteration is issued again in the next |
| JoinPlanning.OtherServicesOnly | webapp/controller/HyperView.controller.js:65-98 | when every secondary is on another service, nothing is expanded and there is one condition per secondary |
| JoinPlanning.ForcedJoinsRepeat | webapp/controller/HyperView.controller.js:81-126 | when every secondary is on another service, every request is a forced join, and the loop issues 1 + 2 + ... + n of them for n secondaries |
| FormRules.FilterFor | webapp/controller/BaseController.js:82-110 | no filter for an unknown property or a falsy value; `Contains` for strings, a day range for `DateTimeOffset`, a number otherwise; a non-text date throws |
| FormRules.DayBoundsKeepDate | webapp/controller/BaseController.js:93-94 | both bounds of the day range fall on the date the value names |
| FormRules.CreateFilters | webapp/controller/BaseController.js:77-113 | the loop computes the filters specified by `FiltersOf` |
| FormRules.FiltersPersist | webapp/controller/BaseController.js:77-113 | once an entry throws, later entries do not change the outcome |
| FormRules.FiltersOfAppend | webapp/controller/BaseController.js:77-113 | the filters of concatenated entries are the concatenated filters |
| FormRules.FiltersFromEntries | webapp/controller/BaseController.js:77-113 | at most one filter per entry, each for a known property with a truthy value |
| FormRules.InputType | webapp/controller/BaseController.js:198-215 | number, checkbox and date inputs exactly for their types; text for every other type |
| FormRules.KeyColumnFieldsOrder | webapp/controller/BaseController.js:144-157 | the key-column fields are the key columns' fields in reverse order |
| FormRules.OtherColumnFieldsOrder | webapp/controller/BaseController.js:144-157 | the other fields are the non-key columns' fields in column order |
| FormRules.MissingKeyFieldsOrder | webapp/controller/BaseController.js:159-171 | the added key fields are the keys no column shows, in reverse order |
| FormRules.ColumnPass | webapp/controller/BaseController.js:140-157 | succeeds exactly when every column names a property of the type; the key-column fields then precede the others |
| FormRules.MissingKeyPass | webapp/controller/BaseController.js:159-171 | succeeds exactly when every uncovered key is a property; the key fields are put before the given fields |
| FormRules.BuildFormFields | webapp/controller/BaseController.js:140-171 | the passes compute the fields specified by `FormFieldsOf` |
| FormRules.KeysFirst | webapp/controller/BaseController.js:140-171 | no key field follows a non-key field |
| FormRules.UpdateLocksKeys | webapp/controller/BaseController.js:140-193 | on update no field is required, and exactly the non-key fields are editable |
| FormRules.RegisterCoversKeys | webapp/controller/BaseController.js:159-193 | on create every key of the type has a required field |
| FormRules.ControlFor | webapp/controller/BaseController.js:174-195 | a date picker exactly for date types; otherwise an input of `getInputType`; enabled when editable; required exactly for keys on create |
| FormRules.ValueProblem | webapp/controller/BaseController.js:232-260 | the number, boolean and date rules each fire exactly for their types and bad values |
| FormRules.ValidateInputs | webapp/controller/BaseController.js:216-263 | the loop computes the outcome specified by `ValidationOf` |
| FormRules.OutcomeValid | webapp/controller/BaseController.js:216-263 | valid exactly when every check passes |
| FormRules.OutcomeInvalid | webapp/controller/BaseController.js:216-263 | an invalid outcome names the first failing input and its problem |
| FormRules.ValidExactlyWhenAllPass | webapp/controller/BaseController.js:216-263 | the dialog validates exactly when every input passes its check |
| FormRules.InvalidNamesFirstFailure | webapp/controller/BaseController.js:216-263 | the reported caption and problem are those of the first failing input |
| FormRules.ValidationThrowsOnlyForTypeName | webapp/controller/BaseController.js:224-226 | validation throws only when the entity type is a bare qualified name |
| FormRules.UntypedInputsNeedOnlyText | webapp/controller/BaseController.js:226-232 | without an entity type the dialog validates exactly when every value is non-blank |
| FormRules.DeleteNotice | webapp/controller/BaseController.js:276-285 | success when all deletes succeeded, warning for a mix, error when all failed, nothing when neither count is positive |
| FormRules.DeleteNoticeForCounts | webapp/controller/BaseController.js:276-285 | for counts, no notice exactly when nothing was deleted and nothing failed |
| ExpandDiscovery.TypeExpandProperties | webapp/controller/samples/SampleController.js:39-55 | an empty type name gives nothing; a first schema without `entityType` throws; otherwise the list is the navigation-property names of the first type named by the second segment, and empty when that type has none |
| ExpandDiscovery.GetExpandProperties | webapp/controller/samples/SampleController.js:26-58 | the search loop and the push loop compute `ExpandPropertiesOf` |
| ExpandDiscovery.FirstNamedSetDecides | webapp/controller/samples/SampleController.js:32-37 | the first set with the name decides the list |
| ExpandDiscovery.NoNamedSetNoExpand | webapp/controller/samples/SampleController.js:32-39 | without a set of that name the list is empty and nothing throws |
| ExpandDiscovery.ExpandNamesComeFromFirstSchema | webapp/controller/samples/SampleController.js:26-58 | a non-empty list names, in order, the navigation properties of a type of the first schema reached through a set of that name |
| ExpandDiscovery.DottedNamespaceMissesType | webapp/controller/samples/SampleController.js:45-47 | for a namespace containing a dot the type is missed and the list is empty |
| ExpandDiscovery.PlainNamespaceFindsType | webapp/controller/samples/SampleController.js:45-47 | for a one-segment namespace the type is found and its navigation property listed |
| ExpandDiscovery.BindingFor | webapp/controller/samples/SampleController.js:61-73 | the table binds `/Orders`, with an `$expand` exactly when names were found |
| ExpandDiscovery.InitialBinding | webapp/controller/samples/SampleController.js:7-23 | `onInit` fails exactly when the discovery throws, and otherwise binds for the names found |
| ExpandDiscovery.ExpandParameterListsNames | webapp/controller/samples/SampleController.js:63 | the `$expand` parameter reads back to the names, in order |

## Behaviours of the code worth knowing

- **Keyed join collisions.** `_joinData` in both Backup.js and
  BaseController.js spreads the main row first and the match second, so on
  a field that both rows carry the joined side wins. It also pushes the
  merged rows onto the join array it was given and returns that array.
  The model does both (`RowJoin.JoinData`). Only `_addColumnsToMainData`
  keeps main fields (`RowJoin.AddColumnsRow`).
- **Keyed join on its own output.** The appended rows are searched by
  later main rows, so the input array grows with every run, and running
  the join again does not give the same result. A later match can also
  hit an appended row instead of the original data
  (`RowJoin.JoinSelfFeedCounterexample`). `RowJoin.JoinSelfFeedHarmless`
  gives the conditions under which the intended result still comes out.
- **Column-name de-duplication.** A repeated column name is replaced by
  the name prefixed with its entity type. The prefixed name is not checked
  again, so it can repeat (`Columns.FallbackCanRepeat`).
  `_addColumnsToMainData` appends descriptors without any check.
- **Positional pairing and the date filter.** The positional pairing
  leaves fields that the second row lacks absent. The date filter spans
  the whole day named by the text before `T`.

## Left out

- Metadata loading, `read` calls and their callbacks, `await` and
  `metadataLoaded()`. The model takes the loaded metadata document and the
  rows read as inputs. In `loadCombinedDataV2` the requests are recorded
  as `Request` values rather than issued.
- The Backup.js expand branch after the read. It refers to an undefined
  `sModelName` and throws before any row is produced.
- The forced joins of `loadCombinedDataV2`. Each is recorded as a
  `ForcedJoin(main, condition)` request, the two arguments of the call.
  The inherited `_performForcedJoin` of BaseController.js reads only its
  first argument, the main option, and reads `mainModel` from it. An
  option has no such field, so the read fails and the error is caught
  inside `_performForcedJoin`: in V2 no forced join produces rows. The
  model records the call and does not model this failure.
- Absent `dataServices.schema`, `key.propertyRef` or `property` arrays.
  The source reads them without a fallback, so a document lacking one
  throws a `TypeError` (Backup.js:336-339 and 654-660,
  HyperView.controller.js:221 and 241-245). The model always has them, so
  it does not capture these errors.
- UI controls, `MessageBox`, message toasts and table rebinding. Only the
  decisions behind them are modelled (the control kind, the notice, the
  binding).
- `Number`, `isNaN` and `Date.parse`. They are function parameters, so no
  numeric parsing or date arithmetic is modelled.
- The order of `Object.entries` and of JSON property enumeration. Both are
  taken as given sequences.
- FormRules.ValidateInputs: the pairing of labels with inputs is taken as
  a sequence of `DialogInput` records. A content area with an odd number
  of controls is not modelled.
- Row aliasing. Rows are values, so two array slots that share one object
  are not told apart. Arrays created in place, such as the `__metadata: []`
  of the positional combination, are distinct `Obj` references.
- Floating-point numbers. `Value.Num` holds an integer.
- Formatter.js and Backup2.js. These are outside the modelled core.
- The fan-out of create, update and delete requests to the model. Only the
  delete notice for the resulting counts is modelled.
- `_hasNavigationToEntityType`. It is not reached from the modelled
  operations.
