// The older `FFlecsEntityRecord` (components, collections and named
// sub-entities) and how it is applied to an entity. The target entity is
// modelled by the trace of add/set calls made on it; fresh sub-entities take
// ids in creation order.
//
// In `ApplyRecordToEntity` (and the sub-entity's), the `ScriptEnum` case has
// no `break` and falls through into the `EntityHandle` case, so an enum
// descriptor also adds its unused entity-handle field, the null id. The
// model keeps that reading as `ComponentOpsAsWritten` and applies records
// with the intended `ComponentOps`.

module LegacyEntityRecords {
  import opened EntityRecords

  /** The three kinds of pair slot, as the entity calls receive them. */
  datatype PairTerm = StructTerm(structType: string) | IdTerm(id: EntityId) | TagTerm(tag: GameplayTag)

  /** A call made on an entity or the world while a record is applied. */
  datatype EntityOp =
    | SetStruct(target: EntityId, value: InstancedStruct)
    | AddEnumConstant(target: EntityId, enumClass: string, enumValue: int)
    | AddId(target: EntityId, id: EntityId)
    | AddTag(target: EntityId, tag: GameplayTag)
    | AddPair(target: EntityId, first: PairTerm, second: PairTerm)
    | SetPairFirst(target: EntityId, firstType: string, firstValue: seq<int>, second: PairTerm)
    | SetPairSecond(target: EntityId, first: PairTerm, secondType: string, secondValue: seq<int>)
    | AddCollection(target: EntityId, collection: nat)
    | SetName(target: EntityId, name: string)
    | CreateEntity(created: EntityId, name: string)
    | SetParent(child: EntityId, parent: EntityId)

  /** `GetScriptStruct()`: the struct type, or the null type (the empty name) for an empty struct. */
  function StructTypeOf(s: InstancedStruct): string
  {
    if s.Struct? then s.structType else ""
  }

  /** `GetMemory()`: the struct's value, none for an empty struct. */
  function MemoryOf(s: InstancedStruct): seq<int>
  {
    if s.Struct? then s.value else []
  }

  /** The pair term a slot stands for. */
  function Term(s: PairSlot): (r: PairTerm)
  {
    match s.pairNodeType
    case PairScriptStruct => StructTerm(StructTypeOf(s.scriptStruct))
    case PairEntityHandle => IdTerm(s.entityHandle)
    case PairGameplayTag => TagTerm(s.gameplayTag)
  }

  /**
   * `FFlecsRecordPair::AddToEntity`: two struct slots set the pair with the
   * first's value, but only when the first side carries the value; a struct
   * second slot is added and then set with its value; every other
   * combination adds the plain pair.
   */
  function PairOps(p: RecordPair, e: EntityId): (r: seq<EntityOp>)
    ensures |r| <= 2
    ensures p.first.pairNodeType != PairScriptStruct && p.second.pairNodeType == PairScriptStruct
      ==> r == [AddPair(e, Term(p.first), Term(p.second)),
                SetPairSecond(e, Term(p.first), StructTypeOf(p.second.scriptStruct), MemoryOf(p.second.scriptStruct))]
    ensures p.first.pairNodeType == PairScriptStruct && p.second.pairNodeType == PairScriptStruct
      ==> (p.pairValueType == ValueFirst <==> |r| == 1) && (p.pairValueType != ValueFirst <==> r == [])
    ensures p.second.pairNodeType != PairScriptStruct ==> r == [AddPair(e, Term(p.first), Term(p.second))]
  {
    match (p.first.pairNodeType, p.second.pairNodeType)
    case (PairScriptStruct, PairScriptStruct) =>
      if p.pairValueType == ValueFirst
      then [SetPairFirst(e, StructTypeOf(p.first.scriptStruct), MemoryOf(p.first.scriptStruct), Term(p.second))]
      else []
    case (_, PairScriptStruct) =>
      [AddPair(e, Term(p.first), Term(p.second)),
       SetPairSecond(e, Term(p.first), StructTypeOf(p.second.scriptStruct), MemoryOf(p.second.scriptStruct))]
    case (_, _) => [AddPair(e, Term(p.first), Term(p.second))]
  }

  /**
   * An entity first with a struct second passes the struct slot on through
   * `GetScriptStruct` and `GetMemory`: the slot's own type and bytes, or the
   * null type and no bytes when the instanced struct is empty.
   */
  lemma StructSecondPassesContents(p: RecordPair, e: EntityId)
    requires p.first.pairNodeType == PairEntityHandle && p.second.pairNodeType == PairScriptStruct
    ensures var f := IdTerm(p.first.entityHandle);
      p.second.scriptStruct.Struct? ==>
        PairOps(p, e) == [AddPair(e, f, StructTerm(p.second.scriptStruct.structType)),
                          SetPairSecond(e, f, p.second.scriptStruct.structType, p.second.scriptStruct.value)]
    ensures var f := IdTerm(p.first.entityHandle);
      p.second.scriptStruct.EmptyStruct? ==> PairOps(p, e) == [AddPair(e, f, StructTerm("")), SetPairSecond(e, f, "", [])]
  {
  }

  /** The calls one descriptor makes as written: the enum case falls through into the entity-handle case. */
  function ComponentOpsAsWritten(c: ComponentTypeInfo, e: EntityId): seq<EntityOp>
  {
    match c.nodeType
    case ScriptStructNode => [SetStruct(e, c.scriptStruct)]
    case ScriptEnumNode => [AddEnumConstant(e, c.scriptEnum.enumClass, c.scriptEnum.value), AddId(e, c.entityHandle)]
    case EntityHandleNode => [AddId(e, c.entityHandle)]
    case GameplayTagNode => [AddTag(e, c.gameplayTag)]
    case PairNode => PairOps(c.pair, e)
  }

  /** The calls one descriptor makes as intended: each case acts on its own field only. */
  function ComponentOps(c: ComponentTypeInfo, e: EntityId): (r: seq<EntityOp>)
    ensures c.nodeType == ScriptEnumNode ==> r == [AddEnumConstant(e, c.scriptEnum.enumClass, c.scriptEnum.value)]
    ensures c.nodeType == EntityHandleNode ==> r == [AddId(e, c.entityHandle)]
    ensures c.nodeType == ScriptStructNode ==> r == [SetStruct(e, c.scriptStruct)]
    ensures c.nodeType == GameplayTagNode ==> r == [AddTag(e, c.gameplayTag)]
    ensures c.nodeType == PairNode ==> r == PairOps(c.pair, e)
  {
    match c.nodeType
    case ScriptStructNode => [SetStruct(e, c.scriptStruct)]
    case ScriptEnumNode => [AddEnumConstant(e, c.scriptEnum.enumClass, c.scriptEnum.value)]
    case EntityHandleNode => [AddId(e, c.entityHandle)]
    case GameplayTagNode => [AddTag(e, c.gameplayTag)]
    case PairNode => PairOps(c.pair, e)
  }

  /** As written, an enum descriptor whose entity-handle field keeps its default also adds the null id to the entity. */
  lemma EnumAddsNullIdAsWritten()
    ensures var c := EnumComponent(EnumSelector("EMyEnum", 2));
      ComponentOpsAsWritten(c, 5) == [AddEnumConstant(5, "EMyEnum", 2), AddId(5, 0)]
      && AddId(5, 0) !in ComponentOps(c, 5)
  {
  }

  /** The two readings differ only for enum descriptors, by the one extra entity-handle add. */
  lemma FallThroughOnlyAffectsEnums(c: ComponentTypeInfo, e: EntityId)
    ensures c.nodeType != ScriptEnumNode ==> ComponentOpsAsWritten(c, e) == ComponentOps(c, e)
    ensures c.nodeType == ScriptEnumNode ==> ComponentOpsAsWritten(c, e) == ComponentOps(c, e) + [AddId(e, c.entityHandle)]
  {
  }

  /** The descriptors' calls, in list order. */
  function ComponentsOps(cs: seq<ComponentTypeInfo>, e: EntityId): seq<EntityOp>
  {
    if cs == [] then [] else ComponentsOps(cs[..|cs| - 1], e) + ComponentOps(cs[|cs| - 1], e)
  }

  /** The collections added, in list order. */
  function CollectionsOps(collections: seq<nat>, e: EntityId): seq<EntityOp>
  {
    if collections == [] then [] else CollectionsOps(collections[..|collections| - 1], e) + [AddCollection(e, collections[|collections| - 1])]
  }

  /** Each collection is added once, in list order. */
  lemma {:induction false} CollectionsOpsInOrder(collections: seq<nat>, e: EntityId)
    ensures |CollectionsOps(collections, e)| == |collections|
    ensures forall k :: 0 <= k < |collections| ==> CollectionsOps(collections, e)[k] == AddCollection(e, collections[k])
  {
    if collections != [] {
      CollectionsOpsInOrder(collections[..|collections| - 1], e);
    }
  }

  /** `FFlecsRecordSubEntity`. */
  datatype SubEntity = SubEntity(name: string, components: seq<ComponentTypeInfo>, collections: seq<nat>)

  /** Sub-entity `==`: name and components; collections are not compared. */
  predicate SubEntityEquals(a: SubEntity, b: SubEntity)
  {
    a.name == b.name && ComponentsEqual(a.components, b.components)
  }

  /** Component lists compare element by element with descriptor `==`. */
  predicate ComponentsEqual(a: seq<ComponentTypeInfo>, b: seq<ComponentTypeInfo>)
  {
    |a| == |b| && forall i :: 0 <= i < |a| ==> TypeInfoEquals(a[i], b[i])
  }

  /** The value of an older `FFlecsEntityRecord`. */
  datatype LegacyRecord = LegacyRecord(components: seq<ComponentTypeInfo>, collections: seq<nat>, subEntities: seq<SubEntity>)

  /** Record `==`: components only. */
  predicate LegacyRecordEquals(a: LegacyRecord, b: LegacyRecord)
  {
    ComponentsEqual(a.components, b.components)
  }

  /** Records with equal components are equal whatever their collections and sub-entities; likewise sub-entities and their collections. */
  lemma EqualityIgnoresCollectionsAndSubEntities(r: LegacyRecord, cols: seq<nat>, subs: seq<SubEntity>, s: SubEntity)
    ensures LegacyRecordEquals(r, r.(collections := cols, subEntities := subs))
    ensures SubEntityEquals(s, s.(collections := cols))
  {
    assert forall i :: 0 <= i < |r.components| ==> TypeInfoEquals(r.components[i], r.components[i]) by {
      forall i | 0 <= i < |r.components| {
        TypeInfoEqualsIsEquivalence(r.components[i], r.components[i], r.components[i]);
      }
    }
    assert forall i :: 0 <= i < |s.components| ==> TypeInfoEquals(s.components[i], s.components[i]) by {
      forall i | 0 <= i < |s.components| {
        TypeInfoEqualsIsEquivalence(s.components[i], s.components[i], s.components[i]);
      }
    }
  }

  /**
   * `FFlecsRecordSubEntity::ApplyRecordToEntity` on an entity that has a name
   * or not: the name is set only when non-empty and the entity is unnamed;
   * then the components, then the collections.
   */
  function SubEntityOps(s: SubEntity, e: EntityId, hasName: bool): seq<EntityOp>
  {
    (if s.name != "" && !hasName then [SetName(e, s.name)] else [])
      + ContentOps(s.components, s.collections, e)
  }

  /** The components' calls, then the collections'. */
  function ContentOps(cs: seq<ComponentTypeInfo>, collections: seq<nat>, e: EntityId): seq<EntityOp>
  {
    ComponentsOps(cs, e) + CollectionsOps(collections, e)
  }

  /**
   * The calls for one sub-entity of a record applied to `parent`: the world
   * creates the child under the sub-entity's name (which names it when the
   * name is non-empty), parents it, applies the sub-record and adds the
   * child's id to the parent.
   */
  function OneSubEntityOps(s: SubEntity, parent: EntityId, child: EntityId): seq<EntityOp>
  {
    [CreateEntity(child, s.name), SetParent(child, parent)]
      + SubEntityOps(s, child, s.name != "") + [AddId(parent, child)]
  }

  /** The sub-entities' calls, in list order, the `k`-th taking the id `next + k`. */
  function SubEntitiesOps(subs: seq<SubEntity>, parent: EntityId, next: nat): seq<EntityOp>
  {
    if subs == [] then []
    else SubEntitiesOps(subs[..|subs| - 1], parent, next) + OneSubEntityOps(subs[|subs| - 1], parent, next + |subs| - 1)
  }

  /** `FFlecsEntityRecord::ApplyRecordToEntity`: components, then collections, then sub-entities. */
  function RecordOps(r: LegacyRecord, e: EntityId, next: nat): seq<EntityOp>
  {
    ContentOps(r.components, r.collections, e) + SubEntitiesOps(r.subEntities, e, next)
  }

  /** Whether a call renames an entity. */
  predicate IsSetName(op: EntityOp) { op.SetName? }

  /** No call in `ops` renames an entity. */
  predicate NoRename(ops: seq<EntityOp>)
  {
    forall op :: op in ops ==> !IsSetName(op)
  }

  lemma NoRenameConcat(a: seq<EntityOp>, b: seq<EntityOp>)
    requires NoRename(a) && NoRename(b)
    ensures NoRename(a + b)
  {
    forall op | op in a + b
      ensures !IsSetName(op)
    {
      assert op in a || op in b;
    }
  }

  lemma {:induction false} ComponentsOpsNeverRename(cs: seq<ComponentTypeInfo>, e: EntityId)
    ensures NoRename(ComponentsOps(cs, e))
  {
    if cs != [] {
      ComponentsOpsNeverRename(cs[..|cs| - 1], e);
      NoRenameConcat(ComponentsOps(cs[..|cs| - 1], e), ComponentOps(cs[|cs| - 1], e));
    }
  }

  lemma ContentOpsNeverRename(cs: seq<ComponentTypeInfo>, collections: seq<nat>, e: EntityId)
    ensures NoRename(ContentOps(cs, collections, e))
  {
    ComponentsOpsNeverRename(cs, e);
    CollectionsOpsInOrder(collections, e);
    NoRenameConcat(ComponentsOps(cs, e), CollectionsOps(collections, e));
  }

  /** A sub-entity's child is created under the sub-entity's name, so its own naming step never fires. */
  lemma OneSubEntityNeverRenames(s: SubEntity, parent: EntityId, child: EntityId)
    ensures NoRename(OneSubEntityOps(s, parent, child))
  {
    ContentOpsNeverRename(s.components, s.collections, child);
    assert SubEntityOps(s, child, s.name != "") == ContentOps(s.components, s.collections, child);
    NoRenameConcat([CreateEntity(child, s.name), SetParent(child, parent)], ContentOps(s.components, s.collections, child));
    NoRenameConcat([CreateEntity(child, s.name), SetParent(child, parent)] + ContentOps(s.components, s.collections, child), [AddId(parent, child)]);
  }

  /**
   * Applying a record never renames anything: a sub-entity's child is created
   * under its name, so the sub-entity's own naming step always finds it named
   * (or the name empty).
   */
  lemma RecordOpsNeverRename(r: LegacyRecord, e: EntityId, next: nat)
    ensures forall op :: op in RecordOps(r, e, next) ==> !IsSetName(op)
  {
    ContentOpsNeverRename(r.components, r.collections, e);
    SubEntitiesNeverRename(r.subEntities, e, next);
    NoRenameConcat(ContentOps(r.components, r.collections, e), SubEntitiesOps(r.subEntities, e, next));
  }

  lemma {:induction false} SubEntitiesNeverRename(subs: seq<SubEntity>, parent: EntityId, next: nat)
    ensures NoRename(SubEntitiesOps(subs, parent, next))
  {
    if subs != [] {
      var init, last := subs[..|subs| - 1], subs[|subs| - 1];
      SubEntitiesNeverRename(init, parent, next);
      OneSubEntityNeverRenames(last, parent, next + |subs| - 1);
      NoRenameConcat(SubEntitiesOps(init, parent, next), OneSubEntityOps(last, parent, next + |subs| - 1));
    }
  }

  /** The world the record is applied in: the calls made so far, the named entities and the next fresh id. */
  class LegacyWorld {
    var trace: seq<EntityOp>
    var named: set<EntityId>
    var nextId: nat

    constructor(firstFreeId: nat)
      requires firstFreeId > 0
      ensures trace == [] && named == {} && nextId == firstFreeId
    {
      trace := [];
      named := {};
      nextId := firstFreeId;
    }

    /** One descriptor applied to `e`. */
    method ApplyComponent(c: ComponentTypeInfo, e: EntityId)
      modifies this
      ensures trace == old(trace) + ComponentOps(c, e)
      ensures named == old(named) && nextId == old(nextId)
    {
      match c.nodeType
      case ScriptStructNode =>
        trace := trace + [SetStruct(e, c.scriptStruct)];
      case ScriptEnumNode =>
        trace := trace + [AddEnumConstant(e, c.scriptEnum.enumClass, c.scriptEnum.value)];
      case EntityHandleNode =>
        trace := trace + [AddId(e, c.entityHandle)];
      case GameplayTagNode =>
        trace := trace + [AddTag(e, c.gameplayTag)];
      case PairNode =>
        trace := trace + PairOps(c.pair, e);
    }

    /** The component loop: each descriptor in list order. */
    method ApplyComponents(cs: seq<ComponentTypeInfo>, e: EntityId)
      modifies this
      ensures trace == old(trace) + ComponentsOps(cs, e)
      ensures named == old(named) && nextId == old(nextId)
    {
      var i := 0;
      while i < |cs|
        invariant 0 <= i <= |cs|
        invariant trace == old(trace) + ComponentsOps(cs[..i], e)
        invariant named == old(named) && nextId == old(nextId)
      {
        assert cs[..i + 1][..i] == cs[..i];
        ApplyComponent(cs[i], e);
        i := i + 1;
      }
      assert cs[..|cs|] == cs;
    }

    /** The collection loop: each collection added in list order. */
    method ApplyCollections(collections: seq<nat>, e: EntityId)
      modifies this
      ensures trace == old(trace) + CollectionsOps(collections, e)
      ensures named == old(named) && nextId == old(nextId)
    {
      var j := 0;
      while j < |collections|
        invariant 0 <= j <= |collections|
        invariant trace == old(trace) + CollectionsOps(collections[..j], e)
        invariant named == old(named) && nextId == old(nextId)
      {
        assert collections[..j + 1][..j] == collections[..j];
        trace := trace + [AddCollection(e, collections[j])];
        j := j + 1;
      }
      assert collections[..|collections|] == collections;
    }

    /** The component and collection loops shared by records and sub-entities. */
    method ApplyComponentsAndCollections(cs: seq<ComponentTypeInfo>, collections: seq<nat>, e: EntityId)
      modifies this
      ensures trace == old(trace) + ContentOps(cs, collections, e)
      ensures named == old(named) && nextId == old(nextId)
    {
      ApplyComponents(cs, e);
      ApplyCollections(collections, e);
      AppendAssoc(old(trace), ComponentsOps(cs, e), CollectionsOps(collections, e));
    }

    /** `FFlecsRecordSubEntity::ApplyRecordToEntity`: the entity must be valid. */
    method ApplySubEntity(s: SubEntity, e: EntityId)
      requires e != 0
      modifies this
      ensures trace == old(trace) + SubEntityOps(s, e, e in old(named))
      ensures named == old(named) + (if s.name != "" then {e} else {})
      ensures nextId == old(nextId)
    {
      if s.name != "" && e !in named {
        trace := trace + [SetName(e, s.name)];
        named := named + {e};
      }
      ApplyComponentsAndCollections(s.components, s.collections, e);
    }

    /** `world().entity(name)`: a fresh entity, named when the name is non-empty. */
    method CreateNamedEntity(name: string) returns (id: EntityId)
      modifies this
      ensures id == old(nextId) && nextId == old(nextId) + 1
      ensures trace == old(trace) + [CreateEntity(id, name)]
      ensures named == old(named) + (if name != "" then {id} else {})
    {
      id := nextId;
      nextId := nextId + 1;
      trace := trace + [CreateEntity(id, name)];
      if name != "" {
        named := named + {id};
      }
    }

    /** One pass of the sub-entity loop: create the named child, parent it, apply the sub-record, add the child. */
    method ApplyOneSubEntity(s: SubEntity, parent: EntityId)
      requires nextId > 0
      modifies this
      ensures trace == old(trace) + OneSubEntityOps(s, parent, old(nextId))
      ensures nextId == old(nextId) + 1
      ensures forall x :: x in old(named) ==> x in named
    {
      var child := CreateNamedEntity(s.name);
      trace := trace + [SetParent(child, parent)];
      assert SubEntityOps(s, child, child in named) == SubEntityOps(s, child, s.name != "");
      ApplySubEntity(s, child);
      trace := trace + [AddId(parent, child)];
    }

    /** The sub-entity loop of `ApplyRecordToEntity`: one new child per sub-entity, in order. */
    method ApplySubEntities(subs: seq<SubEntity>, e: EntityId)
      requires e != 0 && nextId > 0
      modifies this
      ensures trace == old(trace) + SubEntitiesOps(subs, e, old(nextId))
      ensures nextId == old(nextId) + |subs|
      ensures forall x :: x in old(named) ==> x in named
    {
      var k := 0;
      while k < |subs|
        invariant 0 <= k <= |subs|
        invariant nextId == old(nextId) + k
        invariant trace == old(trace) + SubEntitiesOps(subs[..k], e, old(nextId))
        invariant forall x :: x in old(named) ==> x in named
      {
        ApplyNextSubEntity(subs, k, e, old(trace), old(nextId));
        k := k + 1;
      }
      assert subs[..|subs|] == subs;
    }

    /** One pass of the sub-entity loop: the `k`-th sub-entity's calls extend the trace. */
    method ApplyNextSubEntity(subs: seq<SubEntity>, k: nat, e: EntityId, ghost start: seq<EntityOp>, ghost first: nat)
      requires k < |subs| && e != 0 && first > 0
      requires nextId == first + k && trace == start + SubEntitiesOps(subs[..k], e, first)
      modifies this
      ensures nextId == first + k + 1 && trace == start + SubEntitiesOps(subs[..k + 1], e, first)
      ensures forall x :: x in old(named) ==> x in named
    {
      ghost var done := SubEntitiesOps(subs[..k], e, first);
      ApplyOneSubEntity(subs[k], e);
      SubEntitiesOpsStep(subs, k, e, first);
      AppendAssoc(start, done, OneSubEntityOps(subs[k], e, first + k));
    }

    /** `ApplyRecordToEntity`: the components and collections, then the sub-entities. */
    method ApplyRecord(r: LegacyRecord, e: EntityId)
      requires e != 0 && nextId > 0
      modifies this
      ensures trace == old(trace) + RecordOps(r, e, old(nextId))
      ensures nextId == old(nextId) + |r.subEntities|
      ensures forall x :: x in old(named) ==> x in named
    {
      ApplyComponentsAndCollections(r.components, r.collections, e);
      ApplySubEntities(r.subEntities, e);
      AppendAssoc(old(trace), ContentOps(r.components, r.collections, e), SubEntitiesOps(r.subEntities, e, old(nextId)));
    }
  }

  lemma AppendAssoc(a: seq<EntityOp>, b: seq<EntityOp>, c: seq<EntityOp>)
    ensures (a + b) + c == a + (b + c)
  {
  }

  /** The sub-entities' calls grow by one sub-entity's calls per loop pass. */
  lemma SubEntitiesOpsStep(subs: seq<SubEntity>, k: nat, parent: EntityId, next: nat)
    requires k < |subs|
    ensures SubEntitiesOps(subs[..k + 1], parent, next)
      == SubEntitiesOps(subs[..k], parent, next) + OneSubEntityOps(subs[k], parent, next + k)
  {
    assert subs[..k + 1][..k] == subs[..k];
  }

  /** The older record's fields, changed in place by its `AddComponent` and sub-entity members. */
  class LegacyEntityRecord {
    var components: seq<ComponentTypeInfo>
    var collections: seq<nat>
    var subEntities: seq<SubEntity>

    constructor()
      ensures components == [] && collections == [] && subEntities == []
    {
      components := [];
      collections := [];
      subEntities := [];
    }

    function Value(): (r: LegacyRecord)
      reads this
      ensures r.components == components && r.collections == collections && r.subEntities == subEntities
    {
      LegacyRecord(components, collections, subEntities)
    }

    /** Every `AddComponent` overload: one descriptor appended. */
    method AddComponent(info: ComponentTypeInfo)
      modifies this
      ensures components == old(components) + [info]
      ensures collections == old(collections) && subEntities == old(subEntities)
    {
      components := components + [info];
    }

    /** `AddSubEntity`: appends and returns the new element's index. */
    method AddSubEntity(s: SubEntity) returns (index: nat)
      modifies this
      ensures index == |old(subEntities)| && subEntities == old(subEntities) + [s]
      ensures components == old(components) && collections == old(collections)
      ensures GetSubEntityCount() == old(GetSubEntityCount()) + 1 && GetSubEntity(index) == s
    {
      index := |subEntities|;
      subEntities := subEntities + [s];
    }

    /** `RemoveSubEntity`: the index must be valid; only that element goes. */
    method RemoveSubEntity(index: int)
      requires 0 <= index < |subEntities|
      modifies this
      ensures subEntities == old(subEntities)[..index] + old(subEntities)[index + 1..]
      ensures components == old(components) && collections == old(collections)
    {
      subEntities := subEntities[..index] + subEntities[index + 1..];
    }

    /** `RemoveAllSubEntities`. */
    method RemoveAllSubEntities()
      modifies this
      ensures subEntities == [] && components == old(components) && collections == old(collections)
    {
      subEntities := [];
    }

    /** `GetSubEntityCount`; `HasSubEntities` is a count above zero. */
    function GetSubEntityCount(): (r: nat)
      reads this
      ensures r == |subEntities|
      ensures r == 0 <==> subEntities == []
    {
      |subEntities|
    }

    /** `GetSubEntity`: the index must be valid. */
    function GetSubEntity(index: int): (r: SubEntity)
      reads this
      requires 0 <= index < |subEntities|
      ensures r == subEntities[index]
    {
      subEntities[index]
    }
  }
}
