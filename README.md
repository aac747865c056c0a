# Unreal-Flecs core, modelled in Dafny

This project models the core of the Unreal-Flecs plugin, which embeds the
Flecs entity-component system in Unreal Engine. It also models the part of
the Flecs meta addon the plugin relies on to describe component types.
Every operation is stated in Dafny's terms, and the properties its source
promises are proved about it.

What the modules cover:

- **Flecs meta addon** (`meta_*.dfy`).
  - Primitive and composite type kinds.
  - The layout of struct members: offsets, alignment and size.
  - Enum and bitmask constants, with the value each receives and their uniqueness.
  - Arrays, units, and the per-kind comparison of values.
- **Ids** (`flecs_id.dfy`, `network_id.dfy`).
  - Packing and unpacking of the 64-bit entity ids and pairs.
  - Network ids and their `INDEX_NONE` convention.
- **World** (`world_registration.dfy`, `world_info_settings.dfy`, `world_settings_asset.dfy`, `module_object.dfy`).
  - Registering script structs and enums as components, and the registration objects made for eligible classes.
  - Checking whether a module is imported.
  - The world settings asset's validation.
  - Module hard and soft dependencies.
- **Ticking** (`tick_types.dfy`, `ticking_group.dfy`, `default_phases.dfy`, `phase_tree.dfy`, `game_loop.dfy`, `ticker.dfy`, `physics_history.dfy`).
  - The default pipeline phases and the game-loop phase tree.
  - The fixed-rate ticker's accumulator.
  - The physics history window.
- **Entities** (`entity_record.dfy`, `entity_record_legacy.dfy`, `component_handle.dfy`, `component_properties.dfy`).
  - Entity records, in the current and the legacy form, applied to an entity.
  - Component handles and component properties.
- **Collections** (`collection_*.dfy`, `component_collection.dfy`).
  - Collection items and builders, and the calls they make on an entity.
- **Queries** (`query_*.dfy`).
  - Query inputs, terms and definitions.
  - The query builder.
- **Networking** (`networking.dfy`).
  - The networking actor component's bookkeeping.

State the source changes in place is a Dafny `class` whose methods state
their whole new state. Pure computations are functions, and lemmas state
their properties. Calls into Flecs and Unreal that the plugin only
forwards are modelled as a log of calls (`CollectionCalls.Call`,
`QueryInputs.BuilderCall`) or as a world value passed in as a parameter.

## Model

| member | source | states |
|---|---|---|
| MetaCompare.CompareWide | Source/FlecsLibrary/Private/addons/meta/meta.c:125-135 | the u32/u64/uptr/i32/i64/iptr/entity/id comparator returns -1, 0 or 1, and 0, negative, positive exactly when a is equal to, below, above b |
| MetaCompare.EqualsWide | Source/FlecsLibrary/Private/addons/meta/meta.c:137-144 | each wide equals hook holds exactly when the operands are equal |
| MetaCompare.CompareNarrow | Source/FlecsLibrary/Private/addons/meta/meta.c:30-38 | the bool/char/byte/u8/u16/i8/i16 comparator subtracts promoted operands without overflow; its sign orders the operands and it is 0 exactly on equality |
| MetaCompare.EqualsNarrow | Source/FlecsLibrary/Private/addons/meta/meta.c:40-47 | each narrow equals hook holds exactly when the operands are equal |
| MetaCompare.CompareWideAntisymmetric | Source/FlecsLibrary/Private/addons/meta/meta.c:339-349 | swapping the operands negates the wide comparator |
| MetaCompare.CompareWideTransitive | Source/FlecsLibrary/Private/addons/meta/meta.c:360-370 | the wide comparator's "not greater" is transitive, so it is a total order |
| MetaCompare.CompareString | Source/FlecsLibrary/Private/addons/meta/meta.c:381-398 | identical pointers give 0, a NULL left operand -1, a NULL right operand 1, otherwise strcmp of the texts |
| MetaCompare.StrCmpZeroIff | Source/FlecsLibrary/Private/addons/meta/meta.c:397 | strcmp is 0 exactly on equal texts |
| MetaCompare.StrCmpAntisymmetric | Source/FlecsLibrary/Private/addons/meta/meta.c:397 | strcmp is antisymmetric |
| MetaCompare.EqualsStringIff | Source/FlecsLibrary/Private/addons/meta/meta.c:400-406 | two strings are equal exactly when both are NULL or both are non-NULL with the same text |
| MetaCompare.CompareStringAntisymmetric | Source/FlecsLibrary/Private/addons/meta/meta.c:381-398 | swapping the operands negates the string comparator |
| MetaTypes.KindNumber | Source/FlecsLibrary/Private/addons/meta/meta.c:681 | the stored kind number is below 7 and is 0 exactly for the primitive kind, the same number as "not registered yet" |
| MetaTypes.KindName | Source/FlecsLibrary/Private/addons/meta/meta.c:650-664 | every kind has a non-empty display name |
| MetaTypes.InitType | Source/FlecsLibrary/Private/addons/meta/meta.c:666-747 | registration keeps the type entity well formed (a non-primitive kind implies a component record) |
| MetaTypes.InitTypeKindMismatch | Source/FlecsLibrary/Private/addons/meta/meta.c:705-713 | a type registered before with another non-primitive kind is refused with -1 and left unchanged |
| MetaTypes.InitTypeRuntime | Source/FlecsLibrary/Private/addons/meta/meta.c:681-744 | a runtime type gets exactly the computed size and alignment and the requested kind |
| MetaTypes.InitTypeExisting | Source/FlecsLibrary/Private/addons/meta/meta.c:721-741 | an existing type fails exactly when the computed size or alignment exceeds the real one; otherwise it keeps its component record and is partial exactly when the sizes differ |
| MetaTypes.InitTypeSuccessCovers | Source/FlecsLibrary/Private/addons/meta/meta.c:715-746 | after success the type has the requested kind and a component record at least as large and as aligned as computed |
| MetaTypes.InitTypeIdempotent | Source/FlecsLibrary/Private/addons/meta/meta.c:705-746 | registering a non-primitive type again with the same kind, size and alignment succeeds and changes nothing |
| MetaTypes.PrimitiveSecondRegistrationTurnsExisting | Source/FlecsLibrary/Private/addons/meta/meta.c:681-684 | a runtime primitive type re-enters the first-registration branch on its second registration and is then taken for an existing type |
| MetaStruct.TypeOf | Source/FlecsLibrary/Private/addons/meta/meta.c:689 | an entity with no type or component record reads as unregistered with no component |
| MetaStruct.Align | Source/FlecsLibrary/Private/addons/meta/meta.c:908-980 | ECS_ALIGN rounds up to a multiple of the alignment, by less than one alignment |
| MetaStruct.AlignIsLeast | Source/FlecsLibrary/Private/addons/meta/meta.c:908-980 | the rounded value is the least multiple of the alignment not below the input |
| MetaStruct.SetStructMember | Source/FlecsLibrary/Private/addons/meta/meta.c:752-784 | the member gets the entity, name, type, unit and offset; a count of 0 is stored as 1; missing ranges are zeroed; the computed size is kept |
| MetaStruct.IndexOf | Source/FlecsLibrary/Private/addons/meta/meta.c:852-860 | the search finds the first element for the member entity, or the end when there is none |
| MetaStruct.FindMember | Source/FlecsLibrary/Private/addons/meta/meta.c:854-860 | the search loop returns exactly that index |
| MetaStruct.IndexOfUnique | Source/FlecsLibrary/Private/addons/meta/meta.c:854-860 | any index with no earlier match that matches (or is the end) is the one found |
| MetaStruct.UpsertMember | Source/FlecsLibrary/Private/addons/meta/meta.c:851-873 | an existing element for the member entity is rewritten in place and the others kept; a new member is appended after all the others |
| MetaStruct.UpsertExistingInPlace | Source/FlecsLibrary/Private/addons/meta/meta.c:854-860 | re-adding a listed member keeps the vector length and the other elements |
| MetaStruct.UpsertNewAppends | Source/FlecsLibrary/Private/addons/meta/meta.c:862-873 | an unlisted member is appended at the end with its name |
| MetaStruct.MaxAlign | Source/FlecsLibrary/Private/addons/meta/meta.c:922-924 | the struct alignment is at least every member's alignment |
| MetaStruct.SyncOffset | Source/FlecsLibrary/Private/addons/meta/meta.c:912-918 | synchronising an offset writes exactly that member's EcsMember offset, creating a record if needed, and leaves the others alone |
| MetaStruct.LayoutPrefix | Source/FlecsLibrary/Private/addons/meta/meta.c:881-925 | after k iterations the later members are untouched, and the layout is still ok exactly when the first k members have usable component records |
| MetaStruct.LayoutPrefixPlaced | Source/FlecsLibrary/Private/addons/meta/meta.c:881-925 | every member placed so far sits at the running size rounded up to its alignment |
| MetaStruct.LayoutStepPlaced | Source/FlecsLibrary/Private/addons/meta/meta.c:907-924 | one iteration extends a correct placement of k-1 members to k members |
| MetaStruct.LayoutFailedStays | Source/FlecsLibrary/Private/addons/meta/meta.c:890-905 | once a member fails, the loop has returned and nothing further changes |
| MetaStruct.LayoutOffsetsAligned | Source/FlecsLibrary/Private/addons/meta/meta.c:908-910 | every member offset of a successful layout is aligned to its type's alignment |
| MetaStruct.LayoutNoOverlap | Source/FlecsLibrary/Private/addons/meta/meta.c:907-920 | consecutive members of a successful layout do not overlap |
| MetaStruct.LayoutOffsetsTight | Source/FlecsLibrary/Private/addons/meta/meta.c:908 | each member sits at the lowest aligned offset after the member before it |
| MetaStruct.ResolveUnit | Source/FlecsLibrary/Private/addons/meta/meta.c:823-846 | a set unit must be a unit and match a unit-typed member; with no unit, a unit-typed member takes its unit from its base or from its own type |
| MetaStruct.Finish | Source/FlecsLibrary/Private/addons/meta/meta.c:969-998 | a zero size or alignment is refused with nothing written; otherwise the struct is registered through flecs_init_type |
| MetaStruct.ResolvedDecl | Source/FlecsLibrary/Private/addons/meta/meta.c:841-843 | the unit step changes only the member's unit |
| MetaStruct.UpdatedMembers | Source/FlecsLibrary/Private/addons/meta/meta.c:862-873 | after the update step the member vector is non-empty |
| MetaStruct.ImplicitTail | Source/FlecsLibrary/Private/addons/meta/meta.c:881-998 | the implicit-offset path keeps the world invariant |
| MetaStruct.ExplicitTail | Source/FlecsLibrary/Private/addons/meta/meta.c:926-967 | the explicit-offset path keeps the world invariant |
| MetaStruct.AddMemberToStruct | Source/FlecsLibrary/Private/addons/meta/meta.c:786-1001 | the whole operation keeps the world invariant, and a member refused by the name, type or unit checks changes nothing |
| MetaStruct.AddMemberRejects | Source/FlecsLibrary/Private/addons/meta/meta.c:799-835 | a member without a name, without a type, whose type is not a type, or with a wrong unit returns -1 and writes nothing |
| MetaStruct.LayoutComplete | Source/FlecsLibrary/Private/addons/meta/meta.c:881-925 | a successful layout is well laid out, its size is the end of the last member, and its alignment is the largest member alignment and positive |
| MetaStruct.AddMemberImplicitLayout | Source/FlecsLibrary/Private/addons/meta/meta.c:878-985 | with implicit offsets a successful addition leaves the members well laid out and the struct registered with the end of the last member rounded up to the largest member alignment |
| MetaStruct.FinishOk | Source/FlecsLibrary/Private/addons/meta/meta.c:979-987 | a successful tail registers a struct type whose record covers the rounded size and the alignment, exactly for a runtime struct |
| MetaStruct.MaxAlignSameTypes | Source/FlecsLibrary/Private/addons/meta/meta.c:922-924 | the struct alignment depends only on the member types |
| MetaStruct.MemberOnSet | Source/FlecsLibrary/Private/addons/meta/meta.c:1699-1705 | a member count of 0 becomes 1 and nothing else changes |
| MetaStruct.ComputeLayout | Source/FlecsLibrary/Private/addons/meta/meta.c:881-925 | the layout loop computes exactly the layout specification |
| MetaStruct.PlaceMember | Source/FlecsLibrary/Private/addons/meta/meta.c:907-924 | one iteration sizes the member as type size times count and places it at the running size rounded up to the type's alignment |
| MetaStruct.MetaWorld.AddMember | Source/FlecsLibrary/Private/addons/meta/meta.c:786-1001 | the in-place operation leaves status and state exactly as the specification gives them, including the members already visited on a midway error |
| MetaStruct.MetaWorld.ImplicitLayoutStep | Source/FlecsLibrary/Private/addons/meta/meta.c:881-998 | the in-place implicit path matches its specification |
| MetaStruct.MetaWorld.ExplicitLayoutStep | Source/FlecsLibrary/Private/addons/meta/meta.c:926-998 | the in-place explicit path matches its specification |
| MetaConstants.MapOf | Source/FlecsLibrary/Private/addons/meta/meta.c:1143-1166 | the map a constant vector describes holds each constant under its own value |
| MetaConstants.FirstWith | Source/FlecsLibrary/Private/addons/meta/meta.c:1053-1057 | the vector search finds the first element for the constant entity, or the end |
| MetaConstants.RemoveAt | Source/FlecsLibrary/Private/addons/meta/meta.c:1058-1063 | removing element i shifts every later element one place left and keeps the earlier ones |
| MetaConstants.WithoutConstant | Source/FlecsLibrary/Private/addons/meta/meta.c:1043-1048 | the map loses exactly the entries of the constant entity |
| MetaConstants.ShiftOut | Source/FlecsLibrary/Private/addons/meta/meta.c:1058-1063 | the shift loop plus remove-last computes exactly that removal |
| MetaConstants.MapOfFrom | Source/FlecsLibrary/Private/addons/meta/meta.c:1143-1166 | every map entry comes from the vector |
| MetaConstants.MapOfAt | Source/FlecsLibrary/Private/addons/meta/meta.c:1143-1166 | with distinct values each vector constant is the map entry under its value |
| MetaConstants.MapOfAppend | Source/FlecsLibrary/Private/addons/meta/meta.c:1143-1166 | appending a constant to the vector adds it to the map under its value |
| MetaConstants.RemoveAtDistinct | Source/FlecsLibrary/Private/addons/meta/meta.c:1058-1063 | the shift keeps the values distinct |
| MetaConstants.MapOfWithout | Source/FlecsLibrary/Private/addons/meta/meta.c:1043-1065 | when the vector holds no constant for the entity, removal leaves the map as it was |
| MetaConstants.RemoveAtEntries | Source/FlecsLibrary/Private/addons/meta/meta.c:1043-1065 | every entry of the shortened vector's map is an entry of the map without the entity |
| MetaConstants.RemoveAtKeys | Source/FlecsLibrary/Private/addons/meta/meta.c:1043-1065 | every entry of the map without the entity is in the shortened vector's map |
| MetaConstants.MapOfRemoveFirst | Source/FlecsLibrary/Private/addons/meta/meta.c:1043-1065 | map and vector stay in step: removing the entity's first vector element describes the map without its entries |
| MetaConstants.FirstWithUnique | Source/FlecsLibrary/Private/addons/meta/meta.c:1053-1057 | any index with no earlier match that matches (or is the end) is the one found |
| MetaConstants.FindConstant | Source/FlecsLibrary/Private/addons/meta/meta.c:1052-1057 | the search loop returns exactly the first index for the entity |
| MetaConstants.RemoveFirstClears | Source/FlecsLibrary/Private/addons/meta/meta.c:1043-1065 | after the removal no constant for the entity is left and the values stay distinct |
| MetaConstants.ShiftOutFirst | Source/FlecsLibrary/Private/addons/meta/meta.c:1050-1063 | the search then shift removes exactly the first element for the entity, if any |
| MetaConstants.FindValue | Source/FlecsLibrary/Private/addons/meta/meta.c:1106-1141 | the conflict loop, visiting the keys in any order, finds a conflict exactly when the value is in the map |
| MetaConstants.EntryIsFirst | Source/FlecsLibrary/Private/addons/meta/meta.c:1046-1057 | the map entry for an entity sits at the first vector index holding it |
| MetaConstants.RemovingStep | Source/FlecsLibrary/Private/addons/meta/meta.c:1044-1065 | one visit of the removal loop keeps its invariant |
| MetaConstants.RemovingDone | Source/FlecsLibrary/Private/addons/meta/meta.c:1042-1065 | when every key has been visited, exactly the entity's entries are gone from map and vector |
| MetaConstants.RemoveEntries | Source/FlecsLibrary/Private/addons/meta/meta.c:1042-1065 | the removal loop, in any key order, removes the entity's map entries and its first vector element and keeps the two in step |
| MetaEnum.NextAfter | Source/FlecsLibrary/Private/addons/meta/meta.c:1135-1139 | the automatic value is non-negative, above every existing value, and one above one of them unless it is 0 |
| MetaEnum.NextAfterUnique | Source/FlecsLibrary/Private/addons/meta/meta.c:1107-1141 | any value with those properties is the automatic value, so the result does not depend on map order |
| MetaEnum.NextAfterUnused | Source/FlecsLibrary/Private/addons/meta/meta.c:1135-1139 | the automatic value is not yet used |
| MetaEnum.ScanStep | Source/FlecsLibrary/Private/addons/meta/meta.c:1108-1141 | one visit of the scan keeps what it has established |
| MetaEnum.ScanConstants | Source/FlecsLibrary/Private/addons/meta/meta.c:1106-1141 | in any key order, an explicit value is kept and refused exactly when already used (aborting for unsigned types); otherwise the value is one above the largest, or 0 |
| MetaEnum.UnderlyingOf | Source/FlecsLibrary/Private/addons/meta/meta.c:1010-1023 | the underlying type is the stored one, else the pair's second, else i32 |
| MetaEnum.RemovalKeepsTables | Source/FlecsLibrary/Private/addons/meta/meta.c:1042-1065 | removing the entity's entries keeps map and vector consistent and leaves no entry for it |
| MetaEnum.InsertKeepsTables | Source/FlecsLibrary/Private/addons/meta/meta.c:1143-1166 | inserting a constant with an unused value and entity keeps map and vector consistent |
| MetaEnum.EnumAddKeepsTables | Source/FlecsLibrary/Private/addons/meta/meta.c:1003-1195 | every outcome keeps the map and the ordered list consistent |
| MetaEnum.EnumAutoNumbering | Source/FlecsLibrary/Private/addons/meta/meta.c:1106-1191 | a constant without an explicit value is numbered one above the largest other value (0 if none) and appended after the others, which keep their order |
| MetaEnum.EnumExplicitConflict | Source/FlecsLibrary/Private/addons/meta/meta.c:1042-1141 | an explicit value is refused exactly when another constant already has it; the constant's own earlier value is no conflict; on success it is appended |
| MetaEnum.EnumNeedsPrimitive | Source/FlecsLibrary/Private/addons/meta/meta.c:1028-1034 | a non-primitive underlying type fails with the constants untouched and only the underlying type recorded |
| MetaEnum.EnumComponent.AddConstant | Source/FlecsLibrary/Private/addons/meta/meta.c:1003-1195 | the in-place operation yields exactly the specified result and state, and keeps the tables consistent |
| MetaEnum.EnumComponent.Place | Source/FlecsLibrary/Private/addons/meta/meta.c:1067-1191 | value choice and insertion match their specification |
| MetaBitmask.Pow2 | Source/FlecsLibrary/Private/addons/meta/meta.c:1245 | a shifted bit is at least 1 |
| MetaBitmask.Pow2Monotone | Source/FlecsLibrary/Private/addons/meta/meta.c:1245 | higher bit positions give larger values |
| MetaBitmask.Pow2Fits | Source/FlecsLibrary/Private/addons/meta/meta.c:1231-1245 | a bit below position 32 fits the u32 value |
| MetaBitmask.TagValue | Source/FlecsLibrary/Private/addons/meta/meta.c:1244-1246 | a tag constant gets 1 shifted by the number of constants, defined exactly below 32 |
| MetaBitmask.ReAddDuplicatesAsWritten | Source/FlecsLibrary/Private/addons/meta/meta.c:1206-1228 | as written, re-adding the only constant (entity 100, value 1) leaves entity 100 twice in the ordered list; the intended removal leaves it once |
| MetaBitmask.RemovalKeepsTables | Source/FlecsLibrary/Private/addons/meta/meta.c:1206-1228 | the intended removal keeps map and ordered list consistent and leaves no entry for the entity |
| MetaBitmask.AppendKeepsTables | Source/FlecsLibrary/Private/addons/meta/meta.c:1261-1274 | recording a constant with an unused value and entity keeps the tables consistent |
| MetaBitmask.PlaceKeepsTables | Source/FlecsLibrary/Private/addons/meta/meta.c:1230-1284 | placing a constant absent from the tables keeps them consistent |
| MetaBitmask.BitmaskAddKeepsTables | Source/FlecsLibrary/Private/addons/meta/meta.c:1197-1285 | every outcome of the (intended) operation keeps the tables consistent with unsigned 32-bit values |
| MetaBitmask.BitmaskTagValue | Source/FlecsLibrary/Private/addons/meta/meta.c:1244-1274 | a tag constant gets the bit at the number of other constants, is refused exactly when that value is taken, is undefined from 32 others on, and on success is appended |
| MetaBitmask.BitmaskPairValue | Source/FlecsLibrary/Private/addons/meta/meta.c:1232-1259 | a pair constant must name u32 as its second; with it the value is the pair's, refused exactly when another constant has it |
| MetaBitmask.ValueInUse | Source/FlecsLibrary/Private/addons/meta/meta.c:1248-1259 | a value is in the map without the entity exactly when another constant has it |
| MetaBitmask.BitmaskComponent.AddConstant | Source/FlecsLibrary/Private/addons/meta/meta.c:1197-1285 | (corrected reading) the in-place operation yields exactly the specified result and state and keeps the tables consistent |
| MetaBitmask.BitmaskComponent.Place | Source/FlecsLibrary/Private/addons/meta/meta.c:1230-1284 | value choice, conflict check and insertion match their specification |
| MetaArray.SetArray | Source/FlecsLibrary/Private/addons/meta/meta.c:1473-1494 | setting an array keeps the type entity well formed |
| MetaArray.SetArrayRejects | Source/FlecsLibrary/Private/addons/meta/meta.c:1478-1486 | an array with no element type or a count of 0 is refused and nothing changes |
| MetaArray.SetArraySize | Source/FlecsLibrary/Private/addons/meta/meta.c:1488-1493 | a registered array type is at least element size times count with the element alignment, and a runtime array gets exactly that |
| MetaUnits.Derived | Source/FlecsLibrary/Private/addons/meta/meta.c:1607-1639 | the derived symbol is prefix symbol, base symbol, then "/" and the over symbol; an empty one counts as none |
| MetaUnits.UnitValidate | Source/FlecsLibrary/Private/addons/meta/meta.c:1546-1666 | a validated unit has valid references and keeps its base, over and prefix |
| MetaUnits.UnitValidateRefs | Source/FlecsLibrary/Private/addons/meta/meta.c:1559-1591 | over or prefix without base, or a base, over or prefix of the wrong kind, is invalid |
| MetaUnits.UnitValidateSymbol | Source/FlecsLibrary/Private/addons/meta/meta.c:1607-1655 | a given symbol that differs from the derived one fails exactly when a prefix or over symbol contributed; the derived symbol is adopted only when none is given and a prefix or over exists |
| MetaUnits.UnitValidateTranslation | Source/FlecsLibrary/Private/addons/meta/meta.c:1593-1604 | a prefix supplies the translation when none is given, and a given one must equal the prefix's |
| MetaUnits.UnitValidateIdempotent | Source/FlecsLibrary/Private/addons/meta/meta.c:1546-1666 | validating a validated unit again accepts it unchanged |
| FlecsIds.FlecsId.GetFirst | Source/UnrealFlecs/Entities/FlecsId.h:106-110 | the first element of a pair is the 28 bits above the low word |
| FlecsIds.FlecsId.GetSecond | Source/UnrealFlecs/Entities/FlecsId.h:112-116 | the second element of a pair is the low 32 bits |
| FlecsIds.FlecsId.GetRelation | Source/UnrealFlecs/Entities/FlecsId.h:118-121 | GetRelation is GetFirst |
| FlecsIds.FlecsId.GetTarget | Source/UnrealFlecs/Entities/FlecsId.h:123-126 | GetTarget is GetSecond |
| FlecsIds.FlecsId.GetIndex | Source/UnrealFlecs/Entities/FlecsId.h:138-142 | the index of a non-pair id is its low 32 bits (`Id & ECS_ENTITY_MASK`), below 2^32 |
| FlecsIds.FlecsId.GetGeneration | Source/UnrealFlecs/Entities/FlecsId.h:144-148 | the generation of a non-pair id is bits 32..47 of the id, below 2^16 |
| FlecsIds.IndexGenerationRecompose | Source/UnrealFlecs/Entities/FlecsId.h:138-148 | the generation and the index together give back the low 48 bits of an entity id, and the whole id when it has no flag bits |
| FlecsIds.EntityIdRoundTrip | Source/UnrealFlecs/Entities/FlecsId.h:138-148 | an entity id built from an in-range generation and index gives both back |
| FlecsIds.MakePair | Source/UnrealFlecs/Entities/FlecsId.h:28-31 | a made pair carries the pair flag in the top bit |
| FlecsIds.NullInvalid | Source/UnrealFlecs/Entities/FlecsId.h:36-57 | the null id is invalid and every other id is valid |
| FlecsIds.OrderIsTotal | Source/UnrealFlecs/Entities/FlecsId.h:59-87 | the comparison operators follow the unsigned order on the id, a strict total order with <= as < or == |
| FlecsIds.MakePairRoundTrip | Source/UnrealFlecs/Entities/FlecsId.h:28-116 | a pair made from in-range elements is a valid pair and gives both elements back |
| FlecsIds.HasTargetChecksFirstAsWritten | Source/UnrealFlecs/Entities/FlecsId.h:100-104 | as written HasTarget tests the relationship: on the pair (1, 2) it rejects target 2 and accepts 1 |
| FlecsIds.HasTargetOfPair | Source/UnrealFlecs/Entities/FlecsId.h:94-104 | the corrected HasTarget holds exactly for the pair's second element, and HasRelation exactly for its first |
| FlecsIds.Decimal | Source/UnrealFlecs/Entities/FlecsId.h:171 | %llu writes a non-empty run of decimal digits |
| FlecsIds.LeadingDigits | Source/UnrealFlecs/Entities/FlecsId.h:159 | the parser reads the longest run of digits at the start of the text |
| FlecsIds.Find | Source/UnrealFlecs/Entities/FlecsId.h:159 | the key is found, ignoring case, at its first occurrence that starts the text or follows a character that is no letter or digit; or not at all |
| FlecsIds.ExportText | Source/UnrealFlecs/Entities/FlecsId.h:168-173 | the export starts with "FlecsId=" |
| FlecsIds.ImportValue | Source/UnrealFlecs/Entities/FlecsId.h:155-166 | import reads a value exactly when the key occurs |
| FlecsIds.IdCell.ImportTextItem | Source/UnrealFlecs/Entities/FlecsId.h:155-166 | on finding the key the id is overwritten with the parsed value and true returned; otherwise the id is unchanged and false returned |
| FlecsIds.ImportReadsAfterKey | Source/UnrealFlecs/Entities/FlecsId.h:155-166 | a buffer starting with any letter-case variant of "FlecsId=" imports the value that follows |
| FlecsIds.KeyNeedsWordStart | Source/UnrealFlecs/Entities/FlecsId.h:155-166 | a key glued to the end of a word is not a match |
| FlecsIds.ParseWraps | Source/UnrealFlecs/Entities/FlecsId.h:155-166 | decimal text wraps around at 64 bits, and a leading minus gives the two's-complement bits of the negated value |
| FlecsIds.DigitsValueOfDecimal | Source/UnrealFlecs/Entities/FlecsId.h:159-171 | reading the decimal digits gives back the number |
| FlecsIds.ExportImportRoundTrip | Source/UnrealFlecs/Entities/FlecsId.h:155-173 | importing an exported id restores the same id |
| FlecsIds.ImportWithoutKey | Source/UnrealFlecs/Entities/FlecsId.h:159-165 | a buffer without the key is refused whatever else it holds |
| TickingGroups.ToEngine | Source/UnrealFlecs/Pipelines/FlecsTickingGroup.cpp:17-33 | each of the four Flecs groups with an engine namesake maps to a convertible engine group; any other value (EndPhysics, a flag combination) fails the assertion and answers TG_PrePhysics |
| TickingGroups.ToFlecs | Source/UnrealFlecs/Pipelines/FlecsTickingGroup.cpp:35-53 | a convertible engine group maps to a Flecs group with an engine namesake |
| TickingGroups.ConversionRoundTrips | Source/UnrealFlecs/Pipelines/FlecsTickingGroup.cpp:17-53 | the two conversions are inverse on the four shared groups, both ways round |
| TickingGroups.ConvertibleGroups | Source/UnrealFlecs/Pipelines/FlecsTickingGroup.cpp:9-15 | exactly TG_PrePhysics, TG_DuringPhysics, TG_PostPhysics and TG_PostUpdateWork are convertible, and EndPhysics has no engine namesake |
| DefaultPhases.Ordinal | Source/UnrealFlecs/Pipelines/FlecsDefaultPhases.h:13-26 | the nine enumerators have byte values 0 to 8, OnStart last |
| DefaultPhases.FromOrdinal | Source/UnrealFlecs/Pipelines/FlecsDefaultPhases.h:13-26 | exactly the bytes below 9 name an enumerator, whose value is that byte |
| DefaultPhases.ConvertToFlecsId | Source/UnrealFlecs/Pipelines/FlecsDefaultPhases.h:28-54 | a byte converts to a phase exactly when it names an enumerator; any other byte gives the null id |
| DefaultPhases.ConvertInjective | Source/UnrealFlecs/Pipelines/FlecsDefaultPhases.h:28-49 | every enumerator maps to its namesake phase, and different enumerators to different phases |
| DefaultPhases.OrdinalRoundTrip | Source/UnrealFlecs/Pipelines/FlecsDefaultPhases.h:13-26 | reading back an enumerator's byte value gives the enumerator |
| TickingGroups.IsConvertible | Source/UnrealFlecs/Pipelines/FlecsTickingGroup.cpp:9-15 | exactly the four engine groups with a Flecs namesake are convertible, as ConvertibleGroups states, and the conversion is inverse on them (ConversionRoundTrips) |
| DefaultGameLoop.EntityCompare | Source/UnrealFlecs/Pipelines/FlecsDefaultGameLoop.cpp:15-22 | the entity comparator returns -1, 0 or 1, 0 exactly on equal ids and negative exactly when the first is smaller |
| DefaultGameLoop.PriorityCompare | Source/UnrealFlecs/Pipelines/FlecsDefaultGameLoop.cpp:26-43 | lower priority values sort first and equal priorities fall back to the entity comparator; 0 exactly for the same system |
| DefaultGameLoop.PriorityCompareTotalOrder | Source/UnrealFlecs/Pipelines/FlecsDefaultGameLoop.cpp:26-43 | the priority comparator is antisymmetric and transitive, a total order for pipeline sorting |
| DefaultGameLoop.ProgressRunsOwnPipeline | Source/UnrealFlecs/Pipelines/FlecsDefaultGameLoop.cpp:84-116 | a known tick type makes exactly one call (the main loop progresses the world, each other tick type runs its own pipeline with the delta, no two share a pipeline), an unknown tag none |
| DefaultGameLoop.GetTickTypeTags | Source/UnrealFlecs/Pipelines/FlecsDefaultGameLoop.cpp:123-126 | exactly the five known tick types, distinct, main loop first |
| DefaultGameLoop.GameLoop.IsMainLoop | Source/UnrealFlecs/Pipelines/FlecsDefaultGameLoop.cpp:118-121 | the default loop always drives the main loop |
| DefaultGameLoop.GameLoop.Progress | Source/UnrealFlecs/Pipelines/FlecsDefaultGameLoop.cpp:84-116 | the calls made are exactly those of the tick type; the main loop returns the world's result, other known types true, an unknown tag false |
| Ticker.TickerPriorityCompare | Source/UnrealFlecs/Ticker/FlecsTickerModule.cpp:21-42 | the ticker's comparator is the same total order as the default game loop's |
| Ticker.TickerModule.InitializeInterval | Source/UnrealFlecs/Ticker/FlecsTickerModule.cpp:82 | the interval becomes one over the ticker rate, and is positive |
| Ticker.TickerModule.ProgressModule | Source/UnrealFlecs/Ticker/FlecsTickerModule.cpp:93-113 | dt is added, then the pipeline runs once per whole interval (floor of total over interval times), TickId rises by that count, each run gets the interval, and the accumulator ends below one interval and non-negative when the total was |
| Ticker.TakenIsProduct | Source/UnrealFlecs/Ticker/FlecsTickerModule.cpp:105 | n runs consume n intervals |
| Ticker.TakenNonNegative | Source/UnrealFlecs/Ticker/FlecsTickerModule.cpp:105 | the consumed amount is non-negative, and at least one interval after a run |
| Ticker.RunsRemain | Source/UnrealFlecs/Ticker/FlecsTickerModule.cpp:101 | while a whole interval is left, fewer runs than the count have been made |
| Ticker.RunsDone | Source/UnrealFlecs/Ticker/FlecsTickerModule.cpp:101-112 | once less than an interval is left, exactly the count of runs has been made |
| WorldInfoSettings.GetTickFunctionSettingsDefault | Source/UnrealFlecs/Worlds/Settings/FlecsWorldInfoSettings.cpp:18-73 | the defaults every tick type shares: its own tag, enabled at start, allowed on a dedicated server, zero interval |
| WorldInfoSettings.DefaultSettingsRules | Source/UnrealFlecs/Worlds/Settings/FlecsWorldInfoSettings.cpp:18-73 | only the main loop ticks while paused; only PrePhysics has a prerequisite, the main loop; the per-type tick groups; an unknown tag falls back to the PrePhysics settings under its own tag |
| WorldInfoSettings.DefaultGroupsConvertible | Source/UnrealFlecs/Worlds/Settings/FlecsWorldInfoSettings.cpp:28-70 | every default tick group converts to a Flecs ticking group, and so does every end group except PostUpdateWork's TG_LastDemotable |
| WorldInfoSettings.CreateTickFunctionInstance | Source/UnrealFlecs/Worlds/Settings/FlecsWorldInfoSettings.cpp:75-98 | the instance copies the scheduling fields of the settings and can always tick |
| WorldInfoSettings.CreateTickFunctionForgetsOnlyNameAndPrerequisites | Source/UnrealFlecs/Worlds/Settings/FlecsWorldInfoSettings.cpp:75-98 | settings that differ only in name and prerequisites give the same tick function |
| WorldInfoSettings.DefaultWorldTickFunctions | Source/UnrealFlecs/Worlds/Settings/FlecsWorldInfoSettings.cpp:100-122 | the default world settings hold five tick functions |
| WorldInfoSettings.DefaultWorldMatchesGameLoop | Source/UnrealFlecs/Worlds/Settings/FlecsWorldInfoSettings.cpp:100-122 | those five are the defaults of the game loop's tick types, in the game loop's order |
| PhysicsHistory.Recorded | Source/UnrealFlecs/Physics/FlecsPhysicsModule.cpp:114-123 | one recording step ends with the new entry, grows the history only while it is below the limit, and keeps a history that fitted within the limit |
| PhysicsHistory.RecordedKeepsOrder | Source/UnrealFlecs/Physics/FlecsPhysicsModule.cpp:114-123 | the old entries kept are the newest ones, in their old order |
| PhysicsHistory.RecordedKeepsWindow | Source/UnrealFlecs/Physics/FlecsPhysicsModule.cpp:114-123 | recording onto the window of the newest entries gives the window of the longer sequence |
| PhysicsHistory.RecordAll | Source/UnrealFlecs/Physics/FlecsPhysicsModule.cpp:114-123 | a history that starts within the limit never exceeds it |
| PhysicsHistory.RecordAllIsWindow | Source/UnrealFlecs/Physics/FlecsPhysicsModule.cpp:114-123 | after any number of recordings the history is exactly the newest MaxFrameHistory entries of everything recorded, oldest first |
| PhysicsHistory.PhysicsModule.OnPostAdvance | Source/UnrealFlecs/Physics/FlecsPhysicsModule.cpp:90-126 | nothing is recorded unless the world is valid and has a physics scene; otherwise the entry (TickId, current frame) is recorded by the step above |
| WorldSettingsAsset.InvalidLoopErrorsEmpty | Source/UnrealFlecs/Worlds/Settings/FlecsWorldSettingsAsset.cpp:59-69 | the game-loop scan reports nothing exactly when every game loop is non-null |
| WorldSettingsAsset.SetErrorsEmpty | Source/UnrealFlecs/Worlds/Settings/FlecsWorldSettingsAsset.cpp:78-107 | a module-set scan reports nothing exactly when every set is non-null |
| WorldSettingsAsset.ClassesOfMembers | Source/UnrealFlecs/Worlds/Settings/FlecsWorldSettingsAsset.cpp:118-149 | the classes seen by the duplicate scan are exactly the classes of the non-null modules |
| WorldSettingsAsset.DuplicateErrorsEmpty | Source/UnrealFlecs/Worlds/Settings/FlecsWorldSettingsAsset.cpp:118-152 | the duplicate check reports nothing exactly when no two non-null modules share a class; null modules are skipped |
| WorldSettingsAsset.DuplicateStep | Source/UnrealFlecs/Worlds/Settings/FlecsWorldSettingsAsset.cpp:118-152 | appending a module creates a duplicate exactly when it is non-null and an earlier non-null module already has its class |
| WorldSettingsAsset.MissingErrorsEmpty | Source/UnrealFlecs/Worlds/Settings/FlecsWorldSettingsAsset.cpp:177-207 | one module's dependency scan reports nothing exactly when each hard dependency is met by some non-null gathered module of that class |
| WorldSettingsAsset.HardDependencyErrorsEmpty | Source/UnrealFlecs/Worlds/Settings/FlecsWorldSettingsAsset.cpp:154-211 | the hard-dependency check reports nothing exactly when every module is non-null and all its hard dependencies are met |
| WorldSettingsAsset.ValidationVerdict | Source/UnrealFlecs/Worlds/Settings/FlecsWorldSettingsAsset.cpp:34-116 | the asset reports nothing exactly when there is a game loop, no null game loop, no null module set or editor module set, no repeated module class and every gathered module is non-null with its hard dependencies met |
| WorldSettingsAsset.NullGameLoopReportedTwice | Source/UnrealFlecs/Worlds/Settings/FlecsWorldSettingsAsset.cpp:59-171 | a null game loop is reported once as a game loop and again as a gathered module |
| WorldSettingsAsset.CheckForDuplicateModules | Source/UnrealFlecs/Worlds/Settings/FlecsWorldSettingsAsset.cpp:118-152 | the loop reports exactly the repeats of the duplicate specification, and is Invalid exactly when it reported one |
| WorldSettingsAsset.FindProvider | Source/UnrealFlecs/Worlds/Settings/FlecsWorldSettingsAsset.cpp:179-193 | the inner search finds a dependency exactly when some non-null module is of that class |
| WorldSettingsAsset.CheckModuleDependencies | Source/UnrealFlecs/Worlds/Settings/FlecsWorldSettingsAsset.cpp:175-207 | one error per unmet hard dependency of the module, in order |
| WorldSettingsAsset.CheckForHardDependencies | Source/UnrealFlecs/Worlds/Settings/FlecsWorldSettingsAsset.cpp:154-211 | the loop reports exactly the null modules and the unmet dependencies, and is Invalid exactly when it reported one |
| WorldSettingsAsset.GatherModuleSets | Source/UnrealFlecs/Worlds/Settings/FlecsWorldSettingsAsset.cpp:78-107 | the modules of the non-null sets are appended in order, and each null set is reported |
| WorldSettingsAsset.CheckGameLoops | Source/UnrealFlecs/Worlds/Settings/FlecsWorldSettingsAsset.cpp:48-70 | an empty game-loop list is reported once, otherwise each null entry |
| WorldSettingsAsset.IsDataValid | Source/UnrealFlecs/Worlds/Settings/FlecsWorldSettingsAsset.cpp:34-116 | every error of the specification is reported in order, and the verdict is Invalid exactly when the base said so or an error was reported |
| PhaseTree.NodeErrorsEmpty | Source/UnrealFlecs/Pipelines/FlecsGameLoopPhaseTree.cpp:51-82 | a node reports nothing exactly when its tag and every child below it are valid |
| PhaseTree.ChildErrorsEmpty | Source/UnrealFlecs/Pipelines/FlecsGameLoopPhaseTree.cpp:62-79 | the child scan reports nothing exactly when every remaining child is present and valid throughout |
| PhaseTree.NodeIsDataValid | Source/UnrealFlecs/Pipelines/FlecsGameLoopPhaseTree.cpp:51-82 | the recursive validation reports the specified errors (an invalid tag stops before the children; an empty child slot does not stop the scan) and is Invalid exactly when there are any |
| PhaseTree.DependsOn | Source/UnrealFlecs/Pipelines/FlecsGameLoopPhaseTree.cpp:32-35 | a phase depends on its parent exactly when the parent id is valid |
| PhaseTree.Created | Source/UnrealFlecs/Pipelines/FlecsGameLoopPhaseTree.cpp:21-47 | the first entity created is the node's own, with the node's tag and the parent dependency |
| PhaseTree.CreatedInOrder | Source/UnrealFlecs/Pipelines/FlecsGameLoopPhaseTree.cpp:21-47 | the created phases take consecutive ids; the root depends on a valid parent; every phase below the root depends on a phase created before it in the same subtree |
| PhaseTree.ChildInOrder | Source/UnrealFlecs/Pipelines/FlecsGameLoopPhaseTree.cpp:39-46 | one child's subtree takes consecutive ids and every phase in it depends on the node or on a phase created before it |
| PhaseTree.ChildrenInOrder | Source/UnrealFlecs/Pipelines/FlecsGameLoopPhaseTree.cpp:39-46 | the children's subtrees take consecutive ids and hang under the node or phases created after it |
| PhaseTree.PhaseWorld.CreatePhaseEntity | Source/UnrealFlecs/Pipelines/FlecsGameLoopPhaseTree.cpp:27-35 | one phase entity appended, with the next id and the parent dependency |
| PhaseTree.PhaseWorld.CreatePhasesRecursively | Source/UnrealFlecs/Pipelines/FlecsGameLoopPhaseTree.cpp:21-47 | the node's whole subtree is appended in pre-order, as the creation specification says |
| PhaseTree.NewPhaseTree | Source/UnrealFlecs/Pipelines/FlecsGameLoopPhaseTree.cpp:86-96 | the new tree holds one empty entry for each of the eight default phases, OnLoad to OnStore, in order, and no additional phases |
| PhaseTree.RootErrorsEmpty | Source/UnrealFlecs/Pipelines/FlecsGameLoopPhaseTree.cpp:126-139 | a list of roots reports nothing exactly when every root is valid throughout |
| PhaseTree.TreeErrorsEmpty | Source/UnrealFlecs/Pipelines/FlecsGameLoopPhaseTree.cpp:120-143 | the tree reports nothing exactly when every default-phase root is valid; additional roots play no part |
| PhaseTree.TreeIsDataValid | Source/UnrealFlecs/Pipelines/FlecsGameLoopPhaseTree.cpp:120-143 | the loop reports exactly the specified errors and is Invalid exactly when there are any |
| PhaseTree.EntryParent | Source/UnrealFlecs/Pipelines/FlecsGameLoopPhaseTree.cpp:102-104 | the roots of a default-phase entry hang under the valid Flecs phase of the same name |
| PhaseTree.CreatePhasesFromTree | Source/UnrealFlecs/Pipelines/FlecsGameLoopPhaseTree.cpp:98-116 | the default-phase roots are created under their Flecs phase, then the additional roots with no parent |
| PhaseTree.CreateDefaultRoots | Source/UnrealFlecs/Pipelines/FlecsGameLoopPhaseTree.cpp:100-110 | each default-phase entry's roots are created in entry order, under the Flecs phase the entry names |
| PhaseTree.CreateRoots | Source/UnrealFlecs/Pipelines/FlecsGameLoopPhaseTree.cpp:106-115 | each root's subtree is created in turn under the given parent |
| PhaseTree.ValidTreeIsCreatable | Source/UnrealFlecs/Pipelines/FlecsGameLoopPhaseTree.cpp:98-143 | a tree that validates meets creation's checks on its default-phase roots |
| Networking.InsertByKeySorted | Source/UnrealFlecs/Networking/FlecsNetworkingActorComponent.h:174-180 | inserting into a list sorted by network id keeps it sorted |
| Networking.InsertByKeyCounts | Source/UnrealFlecs/Networking/FlecsNetworkingActorComponent.h:174-180 | inserting adds exactly the one element and keeps every other as often as before |
| Networking.InsertByKeyAbove | Source/UnrealFlecs/Networking/FlecsNetworkingActorComponent.h:174-180 | inserting puts no key below the smaller of the new key and the list's first key |
| Networking.SortByKey | Source/UnrealFlecs/Networking/FlecsNetworkingActorComponent.h:174-180 | the re-sort yields a list sorted by network id holding the same elements as often as before |
| Networking.RemoveAllCounts | Source/UnrealFlecs/Networking/FlecsNetworkingActorComponent.h:141 | TArray::Remove drops every copy of the element and keeps every other element as often as before |
| Networking.DefaultEntityInfo | Source/UnrealFlecs/Networking/FlecsNetworkingActorComponent.h:17-29 | a default entity info has no network id, the default world name and an empty entity name |
| Networking.InfoNetSerialize | Source/UnrealFlecs/Networking/FlecsNetworkingActorComponent.h:31-39 | serialising entity info always reports success; saving keeps the info and loading yields what was read |
| Networking.NetworkingActorComponent.AddNetworkOwnedEntity | Source/UnrealFlecs/Networking/FlecsNetworkingActorComponent.h:128-136 | a set id is appended without de-duplication and the list ends sorted by network id, one element longer; the owned ids are the old ones plus this one |
| Networking.NetworkingActorComponent.RemoveNetworkOwnedEntity | Source/UnrealFlecs/Networking/FlecsNetworkingActorComponent.h:138-145 | every copy of the id goes, every other id stays as often as before, and the list ends sorted; the owned ids are the old ones less this one |
| Networking.NetworkingActorComponent.ClearNetworkOwnedEntities | Source/UnrealFlecs/Networking/FlecsNetworkingActorComponent.h:153-159 | the list is emptied |
| Networking.NetworkingActorComponent.GetNetworkOwnedEntities | Source/UnrealFlecs/Networking/FlecsNetworkingActorComponent.h:161-165 | the set holds exactly the ids in the list |
| Networking.AddedIsOwned | Source/UnrealFlecs/Networking/FlecsNetworkingActorComponent.h:128-151 | after an addition the component owns the added id |
| Networking.RemovedIsNotOwned | Source/UnrealFlecs/Networking/FlecsNetworkingActorComponent.h:138-151 | after a removal it owns exactly the other ids it owned before |
| NetworkIds.NetworkIdComponent.GetNetworkId | Source/UnrealFlecs/Networking/FlecsNetworkIdComponent.h:23-26 | the stored id, or INDEX_NONE as an unsigned 32-bit value when unset |
| NetworkIds.NetworkIdComponent.SetNetworkId | Source/UnrealFlecs/Networking/FlecsNetworkIdComponent.h:28-31 | the id is set and reads back as the given value |
| NetworkIds.NetworkIdComponent.Reset | Source/UnrealFlecs/Networking/FlecsNetworkIdComponent.h:38-41 | the id is unset |
| NetworkIds.FromNetworkId | Source/UnrealFlecs/Networking/FlecsNetworkIdComponent.h:21 | the component built from a value holds that value |
| NetworkIds.DefaultIsUnset | Source/UnrealFlecs/Networking/FlecsNetworkIdComponent.h:20-56 | a default component is unset, reads INDEX_NONE and equals no raw value |
| NetworkIds.ComponentEquality | Source/UnrealFlecs/Networking/FlecsNetworkIdComponent.h:43-51 | two components are equal exactly when both are unset or both hold the same value; != is the negation |
| NetworkIds.ValueEquality | Source/UnrealFlecs/Networking/FlecsNetworkIdComponent.h:53-61 | a component equals a raw value exactly when it is set to that value |
| NetworkIds.SetResetRoundTrip | Source/UnrealFlecs/Networking/FlecsNetworkIdComponent.h:28-41 | reset after set gives an unset id; set after reset or after another set gives exactly the new value |
| NetworkIds.GetterConflatesIndexNone | Source/UnrealFlecs/Networking/FlecsNetworkIdComponent.h:23-26 | the getter cannot tell an unset id from an id set to INDEX_NONE, though the components differ |
| NetworkIds.NetSerialize | Source/UnrealFlecs/Networking/FlecsNetworkIdComponent.h:71-78 | serialising always reports success; saving keeps the component and loading replaces the optional id with the one read |
| NetworkIds.NetSerializeRoundTrip | Source/UnrealFlecs/Networking/FlecsNetworkIdComponent.h:71-78 | a receiver that loads what a sender saved ends up equal to the sender, whatever it held |
| ComponentProperties.MakeProperties | Source/UnrealFlecs/Properties/FlecsComponentProperties.h:50-55 | the stored entry carries the given name, struct, size and alignment, and the given registration function or the empty one for a null pointer |
| ComponentProperties.Registry.RegisterComponentProperties | Source/UnrealFlecs/Properties/FlecsComponentProperties.h:43-58 | the entry under the name is written or overwritten, other names keep theirs, the name is then contained and no other name's containment changes, and a bound delegate is told of the new entry |
| ComponentProperties.Registry.GetComponentProperties | Source/UnrealFlecs/Properties/FlecsComponentProperties.h:65-70 | a non-empty registered name yields a stored entry |
| ComponentProperties.RegisteredIsFound | Source/UnrealFlecs/Properties/FlecsComponentProperties.h:43-63 | after registration the name is present with the given fields, and every other name is present exactly as before with its entry |
| ComponentProperties.LastRegistrationWins | Source/UnrealFlecs/Properties/FlecsComponentProperties.h:50-55 | registering a name twice keeps only the second registration |
| ComponentProperties.Registry.ContainsComponentProperties | Source/UnrealFlecs/Properties/FlecsComponentProperties.h:60-63 | a name is contained exactly when it has a stored entry; RegisterComponentProperties makes its name contained and leaves every other name as it was |
| Networking.NetworkingActorComponent.HasNetworkOwnedEntity | Source/UnrealFlecs/Networking/FlecsNetworkingActorComponent.h:148-151 | an id is owned exactly when it is in the owned list; AddNetworkOwnedEntity adds exactly the given id to the owned ones and RemoveNetworkOwnedEntity takes exactly that id away |
| ModuleObject.GuardReportsValidClassAsWritten | Source/UnrealFlecs/Modules/FlecsModuleObject.cpp:26-40 | as written, the assertion reports a valid class, which is then accepted, and stays silent on the invalid class it refuses |
| ModuleObject.GuardReportsOnlyRefusals | Source/UnrealFlecs/Modules/FlecsModuleObject.cpp:26-40 | corrected, the guard reports exactly the calls it refuses, on every class the opposite of the code as written |
| ModuleObject.AddUnique | Source/UnrealFlecs/Modules/FlecsModuleObject.cpp:31 | the class is in the result, the members are the old ones plus the class, and it is appended only when absent |
| ModuleObject.AddUniqueKeepsDistinct | Source/UnrealFlecs/Modules/FlecsModuleObject.cpp:31 | adding uniquely keeps a duplicate-free list duplicate-free |
| ModuleObject.ModuleObjectState.AddHardDependency | Source/UnrealFlecs/Modules/FlecsModuleObject.cpp:19-32 | an invalid class changes nothing; a valid one becomes a hard dependency unless already one; the list stays duplicate-free; no world call is made |
| ModuleObject.ModuleObjectState.RegisterSoftDependency | Source/UnrealFlecs/Modules/FlecsModuleObject.cpp:34-43 | an invalid class never reaches the world; a valid one is passed on with the module and the callback; the hard dependencies are untouched |
| ModuleObject.ModuleObjectState.GetHardDependentModuleClasses | Source/UnrealFlecs/Modules/FlecsModuleObject.cpp:19-48 | the returned list holds exactly the classes HasHardDependency answers true for |
| DataValidation.Combine | Source/UnrealFlecs/Worlds/Settings/FlecsWorldSettingsAsset.cpp:109-113 | combining validation results: Invalid exactly when either is, not validated exactly when both are not |
| ModuleObject.ModuleObjectState.HasHardDependency | Source/UnrealFlecs/Modules/FlecsModuleObject.cpp:19-22 | the class is a hard dependency; AddHardDependency makes exactly a valid class one, and GetHardDependentModuleClasses returns exactly the classes it holds for |
| EntityRecords.SlotEqualsIsEquivalence | Source/UnrealFlecs/Public/Entities/FlecsEntityRecord.h:140-164 | pair-slot equality is reflexive, symmetric and transitive |
| EntityRecords.MadeSlotsEqual | Source/UnrealFlecs/Public/Entities/FlecsEntityRecord.h:63-158 | slots made from values are equal exactly when made from the same kind of value and the same value |
| EntityRecords.SlotEqualsIgnoresOtherFields | Source/UnrealFlecs/Public/Entities/FlecsEntityRecord.h:140-158 | fields a slot's node type does not select play no part in its equality |
| EntityRecords.PairEqualsIgnoresValueType | Source/UnrealFlecs/Public/Entities/FlecsEntityRecord.h:196-204 | pairs that differ only in which side carries the value compare equal, though they differ |
| EntityRecords.TypeInfoEqualsIsEquivalence | Source/UnrealFlecs/Public/Entities/FlecsEntityRecord.h:268-301 | descriptor equality is an equivalence and != is its negation |
| EntityRecords.StructDescriptorComparesPair | Source/UnrealFlecs/Public/Entities/FlecsEntityRecord.h:272-274 | a struct descriptor also compares its pair field, so a stale pair makes two descriptors of the same struct differ |
| EntityRecords.StructComponent | Source/UnrealFlecs/Public/Entities/FlecsEntityRecord.h:643-660 | the struct overload builds a struct descriptor holding the struct |
| EntityRecords.EntityComponent | Source/UnrealFlecs/Public/Entities/FlecsEntityRecord.h:699-706 | the entity overload builds an entity descriptor holding the id |
| EntityRecords.TagComponent | Source/UnrealFlecs/Public/Entities/FlecsEntityRecord.h:709-726 | the gameplay-tag overload builds a tag descriptor holding the tag |
| EntityRecords.EnumComponent | Source/UnrealFlecs/Public/Entities/FlecsEntityRecord.h:729-748 | the enum overload builds an enum descriptor holding the selector |
| EntityRecords.PairComponent | Source/UnrealFlecs/Public/Entities/FlecsEntityRecord.h:767-785 | the pair overload builds a pair descriptor holding the pair |
| EntityRecords.ComponentDescriptorsEqual | Source/UnrealFlecs/Public/Entities/FlecsEntityRecord.h:268-296 | descriptors built by the same overload are equal exactly when their values are |
| EntityRecords.RecordEqualsReflexive | Source/UnrealFlecs/Public/Entities/FlecsEntityRecord.h:356-360 | every record equals itself, sub-entities included |
| EntityRecords.RecordEqualsSymmetric | Source/UnrealFlecs/Public/Entities/FlecsEntityRecord.h:356-360 | record equality is symmetric |
| EntityRecords.EntityRecord.Value | Source/UnrealFlecs/Public/Entities/FlecsEntityRecord.h:619-622 | the value compared by == is exactly the components, sub-entities and fragments |
| EntityRecords.EntityRecord.AddComponent | Source/UnrealFlecs/Public/Entities/FlecsEntityRecord.h:629-785 | every overload appends its descriptor and changes nothing else |
| EntityRecords.EntityRecord.AddSubEntity | Source/UnrealFlecs/Public/Entities/FlecsEntityRecord.h:787-792 | the sub-record is appended with its flag and its index, the old count, is returned; the count then rises by one and GetSubEntity at that index gives the sub-record back |
| EntityRecords.EntityRecord.RemoveSubEntity | Source/UnrealFlecs/Public/Entities/FlecsEntityRecord.h:794-798 | only the sub-record at the valid index is removed, the rest keep their order |
| EntityRecords.EntityRecord.RemoveAllSubEntities | Source/UnrealFlecs/Public/Entities/FlecsEntityRecord.h:800-803 | all sub-records go, nothing else changes |
| EntityRecords.EntityRecord.GetSubEntityCount | Source/UnrealFlecs/Public/Entities/FlecsEntityRecord.h:805-813 | the count is the number of sub-records, positive exactly when HasSubEntities holds |
| EntityRecords.EntityRecord.GetSubEntity | Source/UnrealFlecs/Public/Entities/FlecsEntityRecord.h:815-826 | a valid index yields the sub-record stored at that index |
| EntityRecords.EntityRecord.GetFragmentCount | Source/UnrealFlecs/Public/Entities/FlecsEntityRecord.h:935-943 | the count is the number of fragments, positive exactly when HasFragments holds |
| EntityRecords.EntityRecord.AddFragment | Source/UnrealFlecs/Public/Entities/FlecsEntityRecord.h:829-883 | a fragment whose type is present is refused with INDEX_NONE and nothing changes; otherwise it is appended, its index returned and the fragment count rises by one; at most one fragment per type is kept |
| EntityRecords.EntityRecord.GetOrAddFragment | Source/UnrealFlecs/Public/Entities/FlecsEntityRecord.h:885-917 | the result is the first fragment of the type; when there was none, one with the given value is appended; at most one fragment per type is kept |
| EntityRecords.EntityRecord.SubEntityScope | Source/UnrealFlecs/Public/Entities/FlecsEntityRecord.h:590-598 | the builder's SubEntity appends an empty sub-record with the flag and edits that child |
| EntityRecords.GetOrAddKeepsOne | Source/UnrealFlecs/Public/Entities/FlecsEntityRecord.h:885-917 | getting or adding keeps the fragment list unique and leaves exactly one fragment of the type |
| EntityRecords.RemoveUndoesAdd | Source/UnrealFlecs/Public/Entities/FlecsEntityRecord.h:787-798 | removing at the index AddSubEntity returned gives back the list |
| EntityRecords.EntityRecord.HasSubEntities | Source/UnrealFlecs/Public/Entities/FlecsEntityRecord.h:805-808 | the record has a sub-record; GetSubEntityCount states this holds exactly when the count is positive |
| EntityRecords.EntityRecord.HasFragment | Source/UnrealFlecs/Public/Entities/FlecsEntityRecord.h:919-926 | some fragment has that type; AddFragment refuses exactly such a type and makes it hold afterwards |
| EntityRecords.EntityRecord.HasFragments | Source/UnrealFlecs/Public/Entities/FlecsEntityRecord.h:935-938 | the record has a fragment; GetFragmentCount states this holds exactly when the count is positive |
| ComponentHandle.WithBindingContext | Source/UnrealFlecs/Public/Entities/FlecsComponentHandle.h:464-476 | the hooks always end with a binding context: the existing one kept, or a fresh empty one installed |
| ComponentHandle.WithEventHook | Source/UnrealFlecs/Public/Entities/FlecsComponentHandle.h:196-298 | setting an OnAdd, OnRemove, OnSet or OnReplace hook needs an empty slot; it fills the slot and puts the callback in the binding context; lifecycle hooks, the other slots and their callbacks are untouched |
| ComponentHandle.EventHookAtMostOnce | Source/UnrealFlecs/Public/Entities/FlecsComponentHandle.h:202-288 | once an On hook is set, its slot is no longer empty, so setting it again fails the check |
| ComponentHandle.EventHooksCommute | Source/UnrealFlecs/Public/Entities/FlecsComponentHandle.h:196-298 | setting two different On hooks gives the same hooks in either order; the second reuses the first one's context |
| ComponentHandle.ComponentRecord.SetComponentData | Source/UnrealFlecs/Public/Entities/FlecsComponentHandle.h:92-96 | the component data is replaced and the hooks are kept |
| ComponentHandle.ComponentRecord.SetComponentLayout | Source/UnrealFlecs/Public/Entities/FlecsComponentHandle.h:98-104 | positive size and alignment only; they become the component data |
| ComponentHandle.ComponentRecord.ModifyHooks | Source/UnrealFlecs/Public/Entities/FlecsComponentHandle.h:111-116 | the hooks are read, edited and written back; the data is kept |
| ComponentHandle.ComponentRecord.SetConstructor | Source/UnrealFlecs/Public/Entities/FlecsComponentHandle.h:123-131 | only the constructor hook changes |
| ComponentHandle.ComponentRecord.SetDestructor | Source/UnrealFlecs/Public/Entities/FlecsComponentHandle.h:133-141 | only the destructor hook changes |
| ComponentHandle.ComponentRecord.SetCopy | Source/UnrealFlecs/Public/Entities/FlecsComponentHandle.h:143-151 | only the copy hook changes |
| ComponentHandle.ComponentRecord.SetMove | Source/UnrealFlecs/Public/Entities/FlecsComponentHandle.h:153-161 | only the move hook changes |
| ComponentHandle.ComponentRecord.SetCompare | Source/UnrealFlecs/Public/Entities/FlecsComponentHandle.h:163-171 | only the compare hook changes |
| ComponentHandle.ComponentRecord.SetEquals | Source/UnrealFlecs/Public/Entities/FlecsComponentHandle.h:173-181 | only the equals hook changes |
| ComponentHandle.ComponentRecord.OnEvent | Source/UnrealFlecs/Public/Entities/FlecsComponentHandle.h:196-298 | an On hook is set through the hook edit above, only when its slot is empty |
| ComponentHandle.ComponentRecord.GetSize | Source/UnrealFlecs/Public/Entities/FlecsComponentHandle.h:300-304 | the stored size, checked to be positive |
| ComponentHandle.ComponentRecord.GetAlignment | Source/UnrealFlecs/Public/Entities/FlecsComponentHandle.h:306-310 | the stored alignment, checked to be positive |
| LegacyEntityRecords.PairOps | Source/UnrealFlecs/Entities/FlecsEntityRecord.h:115-195 | pair application: a struct second slot is added then set with its value; two struct slots set the pair from the first slot only when the first side carries the value, otherwise nothing; any other second slot adds the plain pair |
| LegacyEntityRecords.ComponentOps | Source/UnrealFlecs/Entities/FlecsEntityRecord.h:297-326 | corrected, each descriptor kind acts on its own field only: enum constant, entity id, struct value, tag, or the pair calls above |
| LegacyEntityRecords.EnumAddsNullIdAsWritten | Source/UnrealFlecs/Entities/FlecsEntityRecord.h:306-314 | as written, an enum descriptor falls through and also adds its unset entity field, the null id |
| LegacyEntityRecords.FallThroughOnlyAffectsEnums | Source/UnrealFlecs/Entities/FlecsEntityRecord.h:297-326 | the code as written and the corrected reading agree on every kind but enums, which get exactly one extra id add |
| LegacyEntityRecords.CollectionsOpsInOrder | Source/UnrealFlecs/Entities/FlecsEntityRecord.h:328-331 | each collection is added once, in list order |
| LegacyEntityRecords.EqualityIgnoresCollectionsAndSubEntities | Source/UnrealFlecs/Entities/FlecsEntityRecord.h:278-364 | record equality compares components only; sub-entity equality ignores collections |
| LegacyEntityRecords.ComponentsOpsNeverRename | Source/UnrealFlecs/Entities/FlecsEntityRecord.h:297-326 | applying components never sets a name |
| LegacyEntityRecords.ContentOpsNeverRename | Source/UnrealFlecs/Entities/FlecsEntityRecord.h:297-331 | applying components and collections never sets a name |
| LegacyEntityRecords.OneSubEntityNeverRenames | Source/UnrealFlecs/Entities/FlecsEntityRecord.h:288-295 | a child is created under the sub-entity's name, so the sub-entity's own naming step never fires |
| LegacyEntityRecords.SubEntitiesNeverRename | Source/UnrealFlecs/Entities/FlecsEntityRecord.h:481-488 | the sub-entity loop never sets a name |
| LegacyEntityRecords.RecordOpsNeverRename | Source/UnrealFlecs/Entities/FlecsEntityRecord.h:441-491 | applying a record never renames any entity |
| LegacyEntityRecords.LegacyWorld.ApplyComponent | Source/UnrealFlecs/Entities/FlecsEntityRecord.h:297-326 | one descriptor's calls are appended to the trace as the corrected reading says |
| LegacyEntityRecords.LegacyWorld.ApplyComponents | Source/UnrealFlecs/Entities/FlecsEntityRecord.h:297-326 | the component loop makes each descriptor's calls in list order |
| LegacyEntityRecords.LegacyWorld.ApplyCollections | Source/UnrealFlecs/Entities/FlecsEntityRecord.h:328-331 | the collection loop adds each collection in list order |
| LegacyEntityRecords.LegacyWorld.ApplyComponentsAndCollections | Source/UnrealFlecs/Entities/FlecsEntityRecord.h:297-331 | the components' calls, then the collections' |
| LegacyEntityRecords.LegacyWorld.ApplySubEntity | Source/UnrealFlecs/Entities/FlecsEntityRecord.h:288-333 | a valid entity is named only when unnamed and the name is non-empty, then receives the components and collections |
| LegacyEntityRecords.LegacyWorld.CreateNamedEntity | Source/UnrealFlecs/Entities/FlecsEntityRecord.h:483-484 | a fresh entity, the next id, named when the name is non-empty |
| LegacyEntityRecords.LegacyWorld.ApplyOneSubEntity | Source/UnrealFlecs/Entities/FlecsEntityRecord.h:481-488 | one pass creates the named child, makes it a child of the entity, applies the sub-record and uses exactly one new id |
| LegacyEntityRecords.LegacyWorld.ApplySubEntities | Source/UnrealFlecs/Entities/FlecsEntityRecord.h:481-488 | one new child per sub-entity, in order, using exactly one id each |
| LegacyEntityRecords.LegacyWorld.ApplyNextSubEntity | Source/UnrealFlecs/Entities/FlecsEntityRecord.h:481-488 | one pass extends the trace by the next sub-entity's calls |
| LegacyEntityRecords.LegacyWorld.ApplyRecord | Source/UnrealFlecs/Entities/FlecsEntityRecord.h:441-491 | (corrected reading) the record's components and collections, then its sub-entities, and one new id per sub-entity |
| LegacyEntityRecords.SubEntitiesOpsStep | Source/UnrealFlecs/Entities/FlecsEntityRecord.h:481-488 | the sub-entity calls grow by one sub-entity's calls per loop pass |
| LegacyEntityRecords.LegacyEntityRecord.Value | Source/UnrealFlecs/Entities/FlecsEntityRecord.h:360-364 | the value of the record is its components, collections and sub-entities |
| LegacyEntityRecords.LegacyEntityRecord.AddComponent | Source/UnrealFlecs/Entities/FlecsEntityRecord.h:369-401 | each overload appends one descriptor and changes nothing else |
| LegacyEntityRecords.LegacyEntityRecord.AddSubEntity | Source/UnrealFlecs/Entities/FlecsEntityRecord.h:403-406 | the sub-entity is appended and its index returned; the count then rises by one and GetSubEntity at that index gives it back |
| LegacyEntityRecords.LegacyEntityRecord.RemoveSubEntity | Source/UnrealFlecs/Entities/FlecsEntityRecord.h:408-412 | only the element at the valid index goes |
| LegacyEntityRecords.LegacyEntityRecord.RemoveAllSubEntities | Source/UnrealFlecs/Entities/FlecsEntityRecord.h:414-417 | every sub-entity goes, nothing else changes |
| LegacyEntityRecords.LegacyEntityRecord.GetSubEntityCount | Source/UnrealFlecs/Entities/FlecsEntityRecord.h:419-427 | the count is the number of sub-entities, zero exactly when there are none |
| LegacyEntityRecords.LegacyEntityRecord.GetSubEntity | Source/UnrealFlecs/Entities/FlecsEntityRecord.h:429-439 | a valid index yields the sub-entity stored at that index |
| LegacyEntityRecords.StructTypeOf | Source/UnrealFlecs/Entities/FlecsEntityRecord.h:151-153 | the type `GetScriptStruct` gives, the null type for an empty instanced struct; StructSecondPassesContents shows what it passes on |
| LegacyEntityRecords.MemoryOf | Source/UnrealFlecs/Entities/FlecsEntityRecord.h:151-153 | the bytes `GetMemory` gives, none for an empty instanced struct; StructSecondPassesContents shows what it passes on |
| LegacyEntityRecords.StructSecondPassesContents | Source/UnrealFlecs/Entities/FlecsEntityRecord.h:149-155 | an entity first with a struct second adds the pair and sets it with the slot's own struct type and bytes, or with the null type and no bytes when the instanced struct is empty |
| CollectionCalls.SymbolWorld.Lookup | Source/UnrealFlecs/Collections/FlecsCollectionItemBuilder.cpp:28-52 | a symbol lookup yields the entity registered under the name, or the null id when there is none |
| CollectionCalls.CheckGate | Source/UnrealFlecs/Collections/FlecsCollectionItemBuilder.cpp:26-47 | the gate loops let the items through exactly when the entity has every required component and none of the excluded ones |
| CollectionCalls.RemoveWhere | Source/UnrealFlecs/Collections/FlecsCollectionItemBuilder.h:137-143 | TArray::RemoveAll never lengthens the list |
| CollectionCalls.RemoveWhereContents | Source/UnrealFlecs/Collections/FlecsCollectionItemBuilder.h:137-143 | an element survives the removal exactly when it was there and is not matched |
| CollectionCalls.RemoveWhereConcat | Source/UnrealFlecs/Collections/FlecsCollectionItemBuilder.h:137-143 | the removal keeps the survivors' order: removing from two halves is removing from each |
| CollectionCalls.RemoveWhereNothing | Source/UnrealFlecs/Collections/FlecsCollectionItemBuilder.h:137-143 | nothing is removed when nothing matches |
| CollectionItemBuilders.HashIgnoresData | Source/UnrealFlecs/Collections/FlecsCollectionItemBuilder.h:16-19 | items of the same component name hash alike whatever their bytes |
| CollectionItemBuilders.ItemCall | Source/UnrealFlecs/Collections/FlecsCollectionItemBuilder.cpp:49-63 | an item with no bytes adds the looked-up component, one with bytes sets it with those bytes |
| CollectionItemBuilders.ItemsCallsOnePerItem | Source/UnrealFlecs/Collections/FlecsCollectionItemBuilder.cpp:49-63 | exactly one call per item, the i-th call for the i-th item, all on the same entity |
| CollectionItemBuilders.ApplyTargets | Source/UnrealFlecs/Collections/FlecsCollectionItemBuilder.cpp:9-64 | with the flag set a child is created and parented first, and a fresh child stops at any requirement; then either nothing or one call per item in list order, on the child with the flag and on the entity itself otherwise |
| CollectionItemBuilders.CollectionItemBuilder.AddComponent | Source/UnrealFlecs/Collections/FlecsCollectionItemBuilder.h:44-74 | every overload appends one item, holding the bytes when a value is given, and changes nothing else |
| CollectionItemBuilders.CollectionItemBuilder.Clear | Source/UnrealFlecs/Collections/FlecsCollectionItemBuilder.h:132-135 | only the items go |
| CollectionItemBuilders.CollectionItemBuilder.RemoveComponent | Source/UnrealFlecs/Collections/FlecsCollectionItemBuilder.h:137-154 | every item of that name goes, every other item stays in order, nothing else changes |
| CollectionItemBuilders.CollectionItemBuilder.AddComponentRequirement | Source/UnrealFlecs/Collections/FlecsCollectionItemBuilder.h:156-159 | the name joins the requirement set, nothing else changes |
| CollectionItemBuilders.CollectionItemBuilder.AddComponentExclusion | Source/UnrealFlecs/Collections/FlecsCollectionItemBuilder.h:161-164 | the name joins the exclusion set, nothing else changes |
| CollectionItemBuilders.CollectionItemBuilder.ClearComponentRequirementsAndExclusions | Source/UnrealFlecs/Collections/FlecsCollectionItemBuilder.h:166-180 | both sets are emptied, the items and the flag stay |
| CollectionItemBuilders.CollectionItemBuilder.ClearAll | Source/UnrealFlecs/Collections/FlecsCollectionItemBuilder.h:182-186 | items, requirements and exclusions go; the new-entity flag stays |
| CollectionItemBuilders.CollectionItemBuilder.RemoveComponentRequirement | Source/UnrealFlecs/Collections/FlecsCollectionItemBuilder.h:188-191 | only that name leaves the requirement set |
| CollectionItemBuilders.CollectionItemBuilder.RemoveComponentExclusion | Source/UnrealFlecs/Collections/FlecsCollectionItemBuilder.h:193-196 | only that name leaves the exclusion set |
| CollectionItemBuilders.CollectionItemBuilder.SetNewEntity | Source/UnrealFlecs/Collections/FlecsCollectionItemBuilder.h:198-206 | IsNewEntity then answers the flag given; nothing else changes |
| CollectionItemBuilders.CollectionItemBuilder.ApplyToEntity | Source/UnrealFlecs/Collections/FlecsCollectionItemBuilder.cpp:9-64 | on a valid entity the calls are the optional child, then, if the gate passes, one call per item, as ApplyTargets describes |
| CollectionItemBuilders.CollectionItemBuilder.IsNewEntity | Source/UnrealFlecs/Collections/FlecsCollectionItemBuilder.h:203-206 | the new-entity flag; SetNewEntity makes it answer the flag given, and ApplyToEntity creates a child exactly when it holds |
| CollectionBuilders.ItemHash | Source/UnrealFlecs/Collections/FlecsCollectionBuilder.h:19-28 | an item hashes as its first name alone when there is no second, otherwise as the combination of both names |
| CollectionBuilders.HashIgnoresData | Source/UnrealFlecs/Collections/FlecsCollectionBuilder.h:19-28 | items naming the same components hash alike whatever their bytes |
| CollectionBuilders.NewBuilder | Source/UnrealFlecs/Collections/FlecsCollectionBuilder.h:51-55 | a new builder has no items, requirements or exclusions and the given slot flag |
| CollectionBuilders.ValidateData | Source/UnrealFlecs/Collections/FlecsCollectionBuilder.cpp:103-111 | the check inspects nothing and accepts every builder |
| CollectionBuilders.FirstData | Source/UnrealFlecs/Collections/FlecsCollectionBuilder.h:96-131 | the bytes of the first item with that component name |
| CollectionBuilders.PairDataCall | Source/UnrealFlecs/Collections/FlecsCollectionBuilder.cpp:70-92 | corrected: a first that is not a tag takes the value; otherwise a second that is not a tag takes it; two tags set nothing |
| CollectionBuilders.ItemCall | Source/UnrealFlecs/Collections/FlecsCollectionBuilder.cpp:42-99 | corrected: an item with a second name acts on the pair of looked-up ids, any other on its first id; empty bytes add, bytes set |
| CollectionBuilders.ItemsCallsConcat | Source/UnrealFlecs/Collections/FlecsCollectionBuilder.cpp:42-100 | items act in list order: applying a concatenation is applying each part in turn |
| CollectionBuilders.DatalessItemsCalls | Source/UnrealFlecs/Collections/FlecsCollectionBuilder.cpp:57-67 | items without bytes make exactly one call each, in order: a plain add, or a pair add when a second is named |
| CollectionBuilders.ItemsCallsTarget | Source/UnrealFlecs/Collections/FlecsCollectionBuilder.cpp:42-100 | every call targets the entity applied to, at most one per item, and no entity is created or re-parented |
| CollectionBuilders.AddedItemsBecomePairsAsWritten | Source/UnrealFlecs/Collections/FlecsCollectionBuilder.cpp:44-66 | as written, every item the builder's own AddComponent makes is added as a pair with the id looked up for the empty name, instead of a plain add |
| CollectionBuilders.PairFlagInvertedAsWritten | Source/UnrealFlecs/Collections/FlecsCollectionBuilder.cpp:44-66 | as written, the pair (Likes, Apples) is added as plain Likes and plain Position as the pair (Position, 0) |
| CollectionBuilders.TagSecondInvertedAsWritten | Source/UnrealFlecs/Collections/FlecsCollectionBuilder.cpp:83-92 | as written, a tag first with a data second sets nothing, while two tags get data set on the second |
| CollectionBuilders.PairDataReadingsDiffer | Source/UnrealFlecs/Collections/FlecsCollectionBuilder.cpp:76-92 | the code as written and the corrected reading of the data-pair branch agree exactly when the first is not a tag |
| CollectionBuilders.CollectionBuilder.AddComponent | Source/UnrealFlecs/Collections/FlecsCollectionBuilder.h:60-94 | every overload appends one item named after the component with no second name, holding the bytes when a value is given; HasComponent then holds for exactly the old names and this one |
| CollectionBuilders.CollectionBuilder.GetComponent | Source/UnrealFlecs/Collections/FlecsCollectionBuilder.h:96-131 | the bytes of the first item of that name, as FindByPredicate returns it; such an item must exist |
| CollectionBuilders.CollectionBuilder.Clear | Source/UnrealFlecs/Collections/FlecsCollectionBuilder.h:153-156 | the items go, the requirements and exclusions stay |
| CollectionBuilders.CollectionBuilder.RemoveComponent | Source/UnrealFlecs/Collections/FlecsCollectionBuilder.h:158-176 | every item of that name goes, the others stay in order, nothing else changes; HasComponent turns false for the name and keeps its answer for every other name |
| CollectionBuilders.CollectionBuilder.AddComponentRequirement | Source/UnrealFlecs/Collections/FlecsCollectionBuilder.h:178-181 | the name joins the requirements, nothing else changes |
| CollectionBuilders.CollectionBuilder.AddComponentExclusion | Source/UnrealFlecs/Collections/FlecsCollectionBuilder.h:183-186 | the name joins the exclusions, nothing else changes |
| CollectionBuilders.CollectionBuilder.ClearComponentRequirements | Source/UnrealFlecs/Collections/FlecsCollectionBuilder.h:188-191 | only the requirements are emptied |
| CollectionBuilders.CollectionBuilder.ClearComponentExclusions | Source/UnrealFlecs/Collections/FlecsCollectionBuilder.h:193-196 | only the exclusions are emptied |
| CollectionBuilders.CollectionBuilder.ClearComponentRequirementsAndExclusions | Source/UnrealFlecs/Collections/FlecsCollectionBuilder.h:198-202 | both sets are emptied, the items stay |
| CollectionBuilders.CollectionBuilder.ClearAll | Source/UnrealFlecs/Collections/FlecsCollectionBuilder.h:204-208 | the builder returns to a new builder with the same slot flag |
| CollectionBuilders.CollectionBuilder.RemoveComponentRequirement | Source/UnrealFlecs/Collections/FlecsCollectionBuilder.h:210-213 | only that name leaves the requirements |
| CollectionBuilders.CollectionBuilder.RemoveComponentExclusion | Source/UnrealFlecs/Collections/FlecsCollectionBuilder.h:215-218 | only that name leaves the exclusions |
| CollectionBuilders.CollectionBuilder.ApplyToEntity | Source/UnrealFlecs/Collections/FlecsCollectionBuilder.cpp:9-101 | on a valid entity: the gate loops, then one call per item in list order, by the corrected reading |
| CollectionBuilders.ClosedGateAppliesNothing | Source/UnrealFlecs/Collections/FlecsCollectionBuilder.cpp:14-40 | a missing requirement or a present exclusion makes no call at all; an open gate applies every item |
| ComponentCollections.ApplyTrait | Source/UnrealFlecs/Collections/FlecsComponentCollection.h:21-46 | a trait's edit never changes the builder's slot flag |
| ComponentCollections.BuildAll | Source/UnrealFlecs/Collections/FlecsComponentCollection.h:21-46 | building never removes a builder |
| ComponentCollections.BuildAllShape | Source/UnrealFlecs/Collections/FlecsComponentCollection.h:21-46 | existing builders keep their place and slot flag, only the base one is edited; one builder is appended per non-plain trait, in order, a slot builder exactly for slot traits |
| ComponentCollections.PlainTraitsKeepOneBuilder | Source/UnrealFlecs/Collections/FlecsComponentCollection.h:27-30 | plain traits never add a builder |
| ComponentCollections.ComponentCollection.Build | Source/UnrealFlecs/Collections/FlecsComponentCollection.h:21-46 | the builders after Build are those the specification gives, the base builder first |
| ComponentCollections.ComponentCollection.ValidateData | Source/UnrealFlecs/Collections/FlecsComponentCollection.h:48-59 | true exactly when every builder passes its check |
| ComponentCollections.ComponentCollection.GetCollectionItems | Source/UnrealFlecs/Collections/FlecsComponentCollection.h:61-64 | the collection's builders; Build states them as the builders the traits produce from the old ones |
| CollectionBuilders.CollectionBuilder.HasComponent | Source/UnrealFlecs/Collections/FlecsCollectionBuilder.h:133-139 | some item has that component name; AddComponent makes exactly its name present, RemoveComponent makes its name absent and keeps every other name's answer, and GetComponent needs it |
| QueryInputs.IdOutput | Source/UnrealFlecs/Private/Queries/Generator/FlecsQueryGeneratorInputType.cpp:9-53 | only inputs returning an id produce one; a raw id is passed through; Wildcard and Any give the built-in ids |
| QueryInputs.StringOutput | Source/UnrealFlecs/Private/Queries/Generator/FlecsQueryGeneratorInputType.cpp:25-28 | a string is produced exactly by the inputs returning one, and the string input gives its text unchanged |
| QueryInputs.OutputsFollowReturnType | Source/UnrealFlecs/Public/Queries/Generator/FlecsQueryGeneratorInputType.h:27-204 | custom-builder inputs produce neither output, id inputs no string, and id inputs other than struct, enum and enum constant always produce their id |
| QueryInputs.BuiltinsIgnoreWorld | Source/UnrealFlecs/Public/Queries/Generator/FlecsQueryGeneratorInputType.h:143-169 | Wildcard and Any give the same id whatever the world |
| QueryInputs.Strlen | Source/UnrealFlecs/Private/Queries/Generator/FlecsQueryGeneratorInputType.cpp:112-122 | the length of a C string: the characters before the first NUL, which is at that position when there is one |
| QueryInputs.OwnedCopyShape | Source/UnrealFlecs/Private/Queries/Generator/FlecsQueryGeneratorInputType.cpp:112-122 | the owned copy is the text up to its first NUL plus one terminator, so its length is that prefix's length plus one |
| QueryInputs.OwnedCopyText | Source/UnrealFlecs/Private/Queries/Generator/FlecsQueryGeneratorInputType.cpp:112-122 | reading the owned copy back as a C string gives the text up to its first NUL |
| QueryInputs.OwnedCopyWhole | Source/UnrealFlecs/Private/Queries/Generator/FlecsQueryGeneratorInputType.cpp:112-122 | a text without NUL is copied whole with one terminator and reads back unchanged |
| QueryInputs.StrlenOfTerminated | Source/UnrealFlecs/Private/Queries/Generator/FlecsQueryGeneratorInputType.cpp:112-122 | appending a terminator does not move the first NUL |
| QueryInputs.StrlenNoNul | Source/UnrealFlecs/Private/Queries/Generator/FlecsQueryGeneratorInputType.cpp:112-122 | a text with no NUL is measured whole |
| QueryInputs.StrlenPrefix | Source/UnrealFlecs/Private/Queries/Generator/FlecsQueryGeneratorInputType.cpp:112-122 | a copy's text up to its terminator is the prefix it was cut at |
| QueryInputs.PairArg | Source/UnrealFlecs/Private/Queries/Generator/FlecsQueryGeneratorInputType.cpp:106-160 | an id half passes its id, a string half an owned copy of its string, a custom half nothing |
| QueryInputs.PairCall | Source/UnrealFlecs/Private/Queries/Generator/FlecsQueryGeneratorInputType.cpp:55-161 | a pair with a custom-builder half is refused; otherwise the result is one with(first, second) call |
| QueryInputs.PairArgumentKinds | Source/UnrealFlecs/Private/Queries/Generator/FlecsQueryGeneratorInputType.cpp:55-161 | each argument of the pair's call is an id exactly where that half returns an id and a string exactly where it returns a string, carrying the half's id or an owned copy of its string |
| QueryInputs.PairCallMade | Source/UnrealFlecs/Private/Queries/Generator/FlecsQueryGeneratorInputType.cpp:58-160 | two non-custom halves whose outputs exist always make the one call |
| QueryInputs.CustomOutput | Source/UnrealFlecs/Private/Queries/Generator/FlecsQueryGeneratorInputType.cpp:55-167 | only custom-builder inputs produce a call; the name component makes its with_name_component call and a pair its with call |
| QueryTerms.TermCall | Source/UnrealFlecs/Private/Queries/FlecsQueryTerm.cpp:10-44 | a term's call is with(id) exactly for id inputs, with(expression) exactly for string inputs and the input's own call exactly for custom inputs |
| QueryTerms.TermCallArguments | Source/UnrealFlecs/Private/Queries/FlecsQueryTerm.cpp:15-39 | an id term passes the input's id; a string term a terminated copy whose text is the input's string; a custom term the input's own call |
| QueryTerms.QueryBuilderLog.ApplyTerm | Source/UnrealFlecs/Private/Queries/FlecsQueryTerm.cpp:10-44 | exactly the term's call is made when its checks pass, and nothing otherwise |
| QueryDefinitions.NewTerm | Source/UnrealFlecs/Public/Queries/FlecsQueryDefinition.h:74-87 | a new term expression has only its input set |
| QueryDefinitions.QueryDefinition.AddQueryTerm | Source/UnrealFlecs/Public/Queries/FlecsQueryDefinition.h:19-23 | one term appended, nothing else changes; the term count rises by one, the last term is the new one, and exactly the new last index becomes valid |
| QueryDefinitions.QueryDefinition.AddAdditionalExpression | Source/UnrealFlecs/Public/Queries/FlecsQueryDefinition.h:25-30 | one expression appended to the others, nothing else changes |
| QueryDefinitions.QueryDefinition.GetNumTerms | Source/UnrealFlecs/Public/Queries/FlecsQueryDefinition.h:32-35 | the number of terms |
| QueryDefinitions.QueryDefinition.GetLastTermIndex | Source/UnrealFlecs/Public/Queries/FlecsQueryDefinition.h:42-46 | with at least one term, the greatest valid index |
| QueryDefinitions.QueryDefinition.GetTermAt | Source/UnrealFlecs/Public/Queries/FlecsQueryDefinition.h:48-58 | a valid index yields the term stored at that index |
| QueryDefinitions.QueryDefinition.GetLastTerm | Source/UnrealFlecs/Public/Queries/FlecsQueryDefinition.h:60-70 | the term at the last index |
| QueryDefinitions.QueryDefinition.IsValidTermIndex | Source/UnrealFlecs/Public/Queries/FlecsQueryDefinition.h:37-40 | an index is valid exactly when a term is stored there; AddQueryTerm makes exactly the new last index valid, and GetTermAt needs it |
| QueryBuilders.SetOper | Source/UnrealFlecs/Public/Queries/FlecsQueryBuilderBase.h:93-99 | the operator edit gives the term under the cursor the operator and changes nothing else |
| QueryBuilders.SetOperIdempotent | Source/UnrealFlecs/Public/Queries/FlecsQueryBuilderBase.h:93-129 | setting the same operator twice is setting it once |
| QueryBuilders.AddInOut | Source/UnrealFlecs/Public/Queries/FlecsQueryBuilderBase.h:135-145 | the in/out edit appends one child to the term under the cursor and changes nothing else |
| QueryBuilders.MakePair | Source/UnrealFlecs/Public/Queries/FlecsQueryBuilderBase.h:360-446 | the Second edit makes the term's input the pair of its old input and the new one; operator, children and every other term stay |
| QueryBuilders.WithoutTermsAsWritten | Source/UnrealFlecs/Public/Queries/FlecsQueryBuilderBase.h:272-335 | as written, Without succeeds exactly when the cursor is on a term |
| QueryBuilders.WithoutAsWrittenNegatesPrevious | Source/UnrealFlecs/Public/Queries/FlecsQueryBuilderBase.h:272-335 | as written, Without negates the term under the cursor, appends the new term un-negated, and cannot start a definition |
| QueryBuilders.WithoutNegatesNewTerm | Source/UnrealFlecs/Public/Queries/FlecsQueryBuilderBase.h:272-358 | corrected, Without keeps every earlier term and appends one negated term for the input; the template overload's extra Not changes nothing |
| QueryBuilders.WithoutExampleAsWritten | Source/UnrealFlecs/Public/Queries/FlecsQueryBuilderBase.h:272-335 | as written, "with A, without X" builds "not A, X" and a lone "without X" fails its check, where "A, not X" and "not X" are meant |
| QueryBuilders.QueryBuilder.AddTerm | Source/UnrealFlecs/Public/Queries/FlecsQueryBuilderBase.h:49-54 | one term appended and the cursor moved onto it; the settings stay |
| QueryBuilders.QueryBuilder.TermAt | Source/UnrealFlecs/Public/Queries/FlecsQueryBuilderBase.h:56-61 | the check is on the old cursor, then the cursor moves to the index given |
| QueryBuilders.QueryBuilder.Cache | Source/UnrealFlecs/Public/Queries/FlecsQueryBuilderBase.h:65-69 | only the cache kind changes |
| QueryBuilders.QueryBuilder.DetectChanges | Source/UnrealFlecs/Public/Queries/FlecsQueryBuilderBase.h:71-75 | only the change-detection switch changes |
| QueryBuilders.QueryBuilder.Flags | Source/UnrealFlecs/Public/Queries/FlecsQueryBuilderBase.h:77-87 | only the flags change |
| QueryBuilders.QueryBuilder.Oper | Source/UnrealFlecs/Public/Queries/FlecsQueryBuilderBase.h:93-99 | on a valid cursor, only that term's operator changes |
| QueryBuilders.QueryBuilder.And | Source/UnrealFlecs/Public/Queries/FlecsQueryBuilderBase.h:101-104 | the term under the cursor gets And |
| QueryBuilders.QueryBuilder.Or | Source/UnrealFlecs/Public/Queries/FlecsQueryBuilderBase.h:106-109 | the term under the cursor gets Or |
| QueryBuilders.QueryBuilder.Not | Source/UnrealFlecs/Public/Queries/FlecsQueryBuilderBase.h:111-114 | the term under the cursor gets Not |
| QueryBuilders.QueryBuilder.Optional | Source/UnrealFlecs/Public/Queries/FlecsQueryBuilderBase.h:116-119 | the term under the cursor gets Optional |
| QueryBuilders.QueryBuilder.AndFrom | Source/UnrealFlecs/Public/Queries/FlecsQueryBuilderBase.h:121-124 | the term under the cursor gets AndFrom |
| QueryBuilders.QueryBuilder.OrFrom | Source/UnrealFlecs/Public/Queries/FlecsQueryBuilderBase.h:126-129 | the term under the cursor gets OrFrom |
| QueryBuilders.QueryBuilder.InOutExpression | Source/UnrealFlecs/Public/Queries/FlecsQueryBuilderBase.h:135-145 | on a valid cursor, one in/out child is appended to that term |
| QueryBuilders.QueryBuilder.In | Source/UnrealFlecs/Public/Queries/FlecsQueryBuilderBase.h:147-150 | an unstaged read child |
| QueryBuilders.QueryBuilder.Out | Source/UnrealFlecs/Public/Queries/FlecsQueryBuilderBase.h:152-155 | an unstaged write child |
| QueryBuilders.QueryBuilder.InOut | Source/UnrealFlecs/Public/Queries/FlecsQueryBuilderBase.h:157-160 | an unstaged read/write child |
| QueryBuilders.QueryBuilder.ReadStaged | Source/UnrealFlecs/Public/Queries/FlecsQueryBuilderBase.h:162-165 | a staged read child |
| QueryBuilders.QueryBuilder.WriteStaged | Source/UnrealFlecs/Public/Queries/FlecsQueryBuilderBase.h:167-170 | a staged write child |
| QueryBuilders.QueryBuilder.ReadWriteStaged | Source/UnrealFlecs/Public/Queries/FlecsQueryBuilderBase.h:172-175 | a staged read/write child |
| QueryBuilders.QueryBuilder.FilterTerm | Source/UnrealFlecs/Public/Queries/FlecsQueryBuilderBase.h:177-180 | an unstaged filter child |
| QueryBuilders.QueryBuilder.InOutNoneTerm | Source/UnrealFlecs/Public/Queries/FlecsQueryBuilderBase.h:182-185 | an unstaged none child |
| QueryBuilders.QueryBuilder.With | Source/UnrealFlecs/Public/Queries/FlecsQueryBuilderBase.h:191-249 | one fresh term for the input, with the cursor on it |
| QueryBuilders.QueryBuilder.WithoutAsWritten | Source/UnrealFlecs/Public/Queries/FlecsQueryBuilderBase.h:272-335 | as written: the term under the cursor negated, then the new term appended with the cursor on it |
| QueryBuilders.QueryBuilder.WithoutTypedAsWritten | Source/UnrealFlecs/Public/Queries/FlecsQueryBuilderBase.h:337-358 | as written, the template overload negates both the new term and the one under the old cursor, and leaves the cursor on the new term |
| QueryBuilders.QueryBuilder.Without | Source/UnrealFlecs/Public/Queries/FlecsQueryBuilderBase.h:272-335 | corrected: the new term appended negated, the cursor on it, earlier terms untouched |
| QueryBuilders.QueryBuilder.WithoutTyped | Source/UnrealFlecs/Public/Queries/FlecsQueryBuilderBase.h:337-358 | the template overload over the corrected Without gives the same terms, with the cursor on the new term |
| QueryBuilders.QueryBuilder.Second | Source/UnrealFlecs/Public/Queries/FlecsQueryBuilderBase.h:360-446 | on a valid cursor, that term's input becomes a pair with the new input second |
| QueryBuilders.QueryBuilder.WithPair | Source/UnrealFlecs/Public/Queries/FlecsQueryBuilderBase.h:469-475 | exactly one new term, the pair, with the cursor on it |
| QueryBuilders.QueryBuilder.WithoutPair | Source/UnrealFlecs/Public/Queries/FlecsQueryBuilderBase.h:477-483 | one new negated pair term over the corrected Without, with the cursor on it |
| QueryBuilders.QueryBuilder.ModifyLastTerm | Source/UnrealFlecs/Public/Queries/FlecsQueryBuilderBase.h:547-552 | on a valid cursor, the modifier's result replaces that term |
| QueryBuilders.QueryBuilder.AddExpression | Source/UnrealFlecs/Public/Queries/FlecsQueryBuilderBase.h:554-559 | one expression appended to the definition's other expressions; terms, cache kind, flags and change detection untouched |
| FlecsWorlds.StructLayout | Source/UnrealFlecs/Worlds/FlecsWorld.cpp:1069-1077 | a tag (size at most one, no properties) gets zero size and alignment, any other struct its own size and minimum alignment |
| FlecsWorlds.StructHooks | Source/UnrealFlecs/Worlds/FlecsWorld.cpp:1079-1185 | hooks are installed exactly for a non-tag struct registered as a component |
| FlecsWorlds.HookRules | Source/UnrealFlecs/Worlds/FlecsWorld.cpp:1092-1183 | the constructor is left null exactly for zero-constructible structs; the destructor comes exactly with one; equality exactly with an identical-comparison; copy and move come together, missing exactly for plain old data |
| FlecsWorlds.PropertyMember | Source/UnrealFlecs/Worlds/FlecsWorld.cpp:927-1044 | a member keeps the property's name and offset; it is a struct member exactly for a struct property whose struct is registered, and then has count 1; no member exactly for unsupported kinds and unregistered structs |
| FlecsWorlds.MembersFromProperties | Source/UnrealFlecs/Worlds/FlecsWorld.cpp:915-1045 | at most one member per property, each from a property of the same name and offset, exactly one per property when all are supported |
| FlecsWorlds.WidthFor | Source/UnrealFlecs/Worlds/FlecsWorld.cpp:1274-1275 | constants are bytes exactly when the greatest value is below 255 |
| FlecsWorlds.CastTo | Source/UnrealFlecs/Worlds/FlecsWorld.cpp:1289-1298 | the byte cast stays below 256 and keeps values that fit |
| FlecsWorlds.EnumConstantsSkipMax | Source/UnrealFlecs/Worlds/FlecsWorld.cpp:1277-1299 | the constants are the entries other than the greatest value, all of one width, each with its cast value; none are lost when no entry equals the greatest; byte constants stay below 255 |
| FlecsWorlds.RegistrationsSound | Source/UnrealFlecs/Worlds/FlecsWorld.cpp:263-305 | each registration object is for an eligible class (not abstract, not deprecated, no newer version) not registered before, and made once; afterwards every eligible class is registered |
| FlecsWorlds.KnownGrows | Source/UnrealFlecs/Worlds/FlecsWorld.cpp:288-299 | the pass only adds registered classes |
| FlecsWorlds.ModuleImportedMonotone | Source/UnrealFlecs/Worlds/FlecsWorld.cpp:644-661 | allowing children only widens the test, and without children it is exact membership |
| FlecsWorlds.Dim | Source/UnrealFlecs/Worlds/FlecsWorld.cpp:829-838 | corrected, only a positive count is passed to dim, unchanged |
| FlecsWorlds.PreallocateInvertedAsWritten | Source/UnrealFlecs/Worlds/FlecsWorld.cpp:829-838 | as written, dim runs exactly for the counts the guard calls invalid: preallocating 100 does nothing and 0 is passed on |
| FlecsWorlds.RegisteredIn | Source/UnrealFlecs/Worlds/FlecsWorld.cpp:870-881 | a struct counts as registered exactly when it is mapped to an alive entity, and then to that entity |
| FlecsWorlds.RegistrationPassSound | Source/UnrealFlecs/Worlds/FlecsWorld.cpp:263-305 | the registration objects after the pass are the earlier ones plus new, distinct, eligible classes, all known afterwards |
| FlecsWorlds.FlecsWorld.RegisterMemberProperties | Source/UnrealFlecs/Worlds/FlecsWorld.cpp:915-1045 | the members are those of the property dispatch, in property order, looked up against the registered structs |
| FlecsWorlds.FlecsWorld.AddImplData | Source/UnrealFlecs/Worlds/FlecsWorld.cpp:1188-1198 | the global type data is added with the next component index only when the name has none; nothing else changes |
| FlecsWorlds.FlecsWorld.RegisterScriptStruct | Source/UnrealFlecs/Worlds/FlecsWorld.cpp:1047-1214 | an unmapped struct gets a new entity, mapped to it, with the layout and hooks when registered as a component and the members found with the struct already mapped; the type data is added when absent |
| FlecsWorlds.FlecsWorld.RegisterComponentStruct | Source/UnrealFlecs/Worlds/FlecsWorld.cpp:1405-1413 | a registered struct's entity is returned with nothing changed; otherwise one new entity, mapped to the struct, holds a component record with its layout, hooks and members, every other record is kept, and the type data is added when absent |
| FlecsWorlds.FlecsWorld.RegisterStructTwice | Source/UnrealFlecs/Worlds/FlecsWorld.cpp:1405-1413 | registering a struct twice returns the same entity, and the two calls together create at most the one entity the first needs |
| FlecsWorlds.FlecsWorld.AddEnumConstants | Source/UnrealFlecs/Worlds/FlecsWorld.cpp:1277-1299 | the loop adds the kept constants in index order |
| FlecsWorlds.FlecsWorld.RegisterComponentEnum | Source/UnrealFlecs/Worlds/FlecsWorld.cpp:1216-1326 | a registered enum's entity is returned with nothing changed; otherwise a non-flags enum takes the next id, gets a new one-byte component holding the kept constants, and the one-byte type data with the next component index is added when its name has none |
| FlecsWorlds.FlecsWorld.IsModuleImported | Source/UnrealFlecs/Worlds/FlecsWorld.cpp:644-661 | the scan answers true exactly when some imported module is the class or, when allowed, a child of it |
| FlecsWorlds.FlecsWorld.InitializeFlecsRegistrationObjects | Source/UnrealFlecs/Worlds/FlecsWorld.cpp:263-305 | every eligible class not yet registered gets one registration object, in order; entities, components, struct and enum maps, type data and imported modules are untouched |
| FlecsWorlds.FlecsWorld.HasScriptStruct | Source/UnrealFlecs/Worlds/FlecsWorld.cpp:870-881 | the struct is mapped to a live entity; RegisterComponentStruct returns that entity unchanged when it holds and makes it hold otherwise |
| FlecsWorlds.FlecsWorld.HasScriptEnum | Source/UnrealFlecs/Worlds/FlecsWorld.cpp:883-894 | the enum is mapped to a live entity; RegisterComponentEnum returns that entity unchanged when it holds and makes it hold otherwise |

## Left out

- Entity ids are handed out in creation order, starting from a counter in the world value. Flecs' id recycling and generations are not modelled. Neither is the lookup by which `CreateEntity(name)` returns an existing entity of that name.
- The iteration order of Unreal `TMap`/`TSet` and of Flecs hash maps is unspecified. Loops over them pick any remaining key, and contracts hold for every order.
- `FSubEntityScope` keeps a live reference into the parent record. It is modelled as an index into the record's sub-entity list.
- Instanced-struct data is an opaque byte sequence. Struct comparison by reflection and `sizeof` are not modelled, and copying data is a plain assignment.
- The collection trait's `Build` is an abstract virtual in the source. Traits are modelled as data that the builder records.
- The `CPPType` query input needs C++ type reflection and is not modelled.
- A term's operator is `None` until the builder sets it, standing for the source's default operator.
- UTF-8 conversion of `FString` to `char*` is not modelled. Strings stay `seq<char>`, copied up to the first NUL and terminated.
- Flecs' builtin ids (`EcsWildcard`, `EcsAny`, `EcsThis`, ...) are a parameter (`Builtins`), not fixed numbers.
- The Flecs query builder is modelled as the log of calls made on it. What Flecs does with those calls is not part of this model.
- `FFlecsQueryDefinition::Apply` and the term expressions' `Apply` hand the log to Flecs. They are modelled only as far as the calls they make.
- The template overloads `With<T>`, `Second<T>` and the like resolve a C++ type to an id. They are modelled through their id-taking counterparts.
- FlecsWorld.h is not part of this model. The default of `RegisterScriptStruct`'s `bComponent` flag is taken to be true.
- The Unreal class hierarchy is not modelled. An `FClassProperty` member is caught by the object-property branch, as in the source's order of tests.
- The ticker's time values are exact reals. Floating-point rounding of `double` accumulators is not modelled.
- `world.component(name)` returning an already-registered entity of the same name is modelled by the world's name maps only.
- The module `RegisterObject` callbacks, `NewObject`, garbage collection and every log message are left out. Only the branches they decide are modelled.
- The meta addon's struct layout (module MetaStruct) does not model `int32` overflow of offsets and sizes: sizes are unbounded integers here.
- Pointer-sized meta types (`uptr`, `iptr`) are taken to be 8 bytes, the 64-bit platforms the plugin targets.
- The component handle's `AddMember` and `AddConstant` forward to the meta addon. MetaStruct and MetaEnum model what they do there.
- ComponentProperties.Registry.GetComponentProperties: states only that the result is one of the stored entries, because naming the entry would restate the lookup. The registration lemmas state which entry a name holds.
- Networking `BeginPlay`/`EndPlay`, property replication and RPCs are engine behaviour and are left out.
- The physics solver setup (Chaos callbacks, async physics ticking) is left out. Only the history window it fills is modelled.
- CollectionBuilders.ValidateData: its loop in the source checks nothing and always succeeds, and the model says exactly that.
- Ticker.TickerModule.InitializeInterval: a ticker rate of 0 or below is not modelled. The source accepts any `int64` rate, and the editor-only `ClampMin` does not stop it. A rate of 0 divides by zero into an infinite interval, so the module never ticks.
- Ticker.TickerModule.ProgressModule: an interval of 0 or below is not modelled. That includes the 0.0 the interval holds before the module initialises. With such an interval, the run loop at Source/UnrealFlecs/Ticker/FlecsTickerModule.cpp:101 never ends.
- MetaTypes.InitType: the hook installation for an existing type at Source/FlecsLibrary/Private/addons/meta/meta.c:684-703 is not modelled. That is the default constructor installed when the type has none, and the enum compare and equals hooks copied from the underlying integer type.
- FlecsIds.ImportValue: models Unreal's `FParse::Value` as an ASCII case-insensitive match of the key at a word start, an optional `-`, and 64-bit wrap-around. The body of `FParse::Value` is not part of this model. Quoted values, quoted sections skipped by the search, the 4096-character value buffer and non-ASCII case folding are not modelled.
- FlecsIds.IdCell.ImportTextItem: reads the id through ImportValue, so the parts of `FParse::Value` listed on the line above are not modelled here either.
- FlecsWorlds.FlecsWorld: `RegisterScriptClassType` (Source/UnrealFlecs/Worlds/FlecsWorld.cpp:1328-1380) and `ImportModule` (Source/UnrealFlecs/Worlds/FlecsWorld.cpp:630) are not modelled. They hand Unreal classes and module objects to Flecs, and the model has no class reflection. Only the registration objects made for eligible classes and `IsModuleImported` are modelled.
- MetaEnum.NextAfter: the automatic value is computed over unbounded integers. The source adds one in `uint64_t` (meta.c:1122-1123), which wraps to 0 after 2^64-1, and in `int64_t` (meta.c:1136-1137), which overflows after INT64_MAX. Explicit constant values are unbounded integers too.
- MetaEnum.EnumAutoNumbering: "one above the largest other value" is proved over unbounded integers. It holds in the source only while the largest value is below the 64-bit limit of its branch. The same applies to `EnumPlace`, which chooses the value through NextAfter.
- MetaCompare.StrCmp: a text is a sequence of character codes that may contain the code 0. A C string ends at its first NUL, so the model agrees with `strcmp` on texts without a 0 code. The same holds for CompareString and EqualsString, which compare such texts.
- CollectionCalls.SymbolWorld.Lookup: an unresolved name looks up as the null id 0, and CheckGate then tests 0 against the entity's components like any other id. In Flecs, `has(0)` takes an invalid-argument path instead.

## Findings

| source | as written | input that shows it | evidently intended | confidence | as-written member | corrected member |
|---|---|---|---|---|---|---|
| Source/FlecsLibrary/Private/addons/meta/meta.c:1206-1228 | re-adding a bitmask constant removes the old entry from the ordered list by comparing `.constant` (an entity) against `c->value` | a bitmask with one constant, entity 100 of value 1, re-added as a tag | the old entry for the entity is removed, so it is listed once | high, not executed | MetaBitmask.ReAddDuplicatesAsWritten | MetaBitmask.BitmaskAddKeepsTables |
| Source/UnrealFlecs/Entities/FlecsId.h:100-104 | `HasTarget` tests the pair's relationship, as `HasRelation` does | the pair (1, 2) with target 2 | true exactly for the pair's second element | high, not executed | FlecsIds.HasTargetChecksFirstAsWritten | FlecsIds.HasTargetOfPair |
| Source/UnrealFlecs/Modules/FlecsModuleObject.cpp:26-29 | `ensureAlwaysMsgf(!IsValid(...))` reports when the class is valid, and the call goes ahead | a valid module class | the report fires only for the invalid class the guard refuses | high, not executed | ModuleObject.GuardReportsValidClassAsWritten | ModuleObject.GuardReportsOnlyRefusals |
| Source/UnrealFlecs/Entities/FlecsEntityRecord.h:306-314 | the enum case has no `break` and falls through into the entity-handle case | an enum descriptor `EMyEnum` = 2 added to entity 5 | the enum constant is added and nothing else | high, not executed | LegacyEntityRecords.EnumAddsNullIdAsWritten | LegacyEntityRecords.FallThroughOnlyAffectsEnums |
| Source/UnrealFlecs/Collections/FlecsCollectionBuilder.cpp:44 | an item is a pair when its second name is empty | the item (Likes, Apples), and the item Position with no second | a pair exactly when a second name is given | high, not executed | CollectionBuilders.PairFlagInvertedAsWritten | CollectionBuilders.ItemCall |
| Source/UnrealFlecs/Collections/FlecsCollectionBuilder.cpp:83-92 | the "both are tags" branch is taken when the second is not a tag | a tag first with the component Position second | data is set on the second when it is a component, and two tags are refused | high, not executed | CollectionBuilders.TagSecondInvertedAsWritten | CollectionBuilders.PairDataCall |
| Source/UnrealFlecs/Public/Queries/FlecsQueryBuilderBase.h:272-335 | `Without` sets `Not` on the last term before adding the new one | "with A" followed by "without X"; a lone "without X" | the new term X is negated | high, not executed | QueryBuilders.WithoutExampleAsWritten | QueryBuilders.WithoutNegatesNewTerm |
| Source/UnrealFlecs/Worlds/FlecsWorld.cpp:829-838 | `PreallocateEntities` returns early on a positive count and passes a non-positive one to `dim` | a count of 100 | a positive count is passed to `dim` and a non-positive one is refused | high, not executed | FlecsWorlds.PreallocateInvertedAsWritten | FlecsWorlds.Dim |
