// `FFlecsEntityRecord` (the public, fragment-carrying record): a list of
// component descriptors, a list of sub-entity records and a list of
// fragments kept unique by fragment type, with the equality operators of
// its slot, pair and descriptor types and the builder that fills it.

module EntityRecords {

  /** An entity id, by its raw value. */
  type EntityId = nat

  /** A gameplay tag, by its dotted name. */
  type GameplayTag = string

  /** `FInstancedStruct`: empty, or a struct type with its value; equality compares both. */
  datatype InstancedStruct = EmptyStruct | Struct(structType: string, value: seq<int>)

  /** `EFlecsPairNodeType`. */
  datatype PairNodeType = PairScriptStruct | PairEntityHandle | PairGameplayTag

  /** `FFlecsRecordPairSlot`: every field is stored; the node type says which one is meant. */
  datatype PairSlot = PairSlot(pairNodeType: PairNodeType, scriptStruct: InstancedStruct,
                               entityHandle: EntityId, gameplayTag: GameplayTag)

  const DefaultSlot := PairSlot(PairScriptStruct, EmptyStruct, 0, "")

  /** The slot `Make` overloads: one field set, the node type naming it. */
  function StructSlot(s: InstancedStruct): PairSlot { DefaultSlot.(scriptStruct := s) }
  function EntitySlot(e: EntityId): PairSlot { DefaultSlot.(pairNodeType := PairEntityHandle, entityHandle := e) }
  function TagSlot(t: GameplayTag): PairSlot { DefaultSlot.(pairNodeType := PairGameplayTag, gameplayTag := t) }

  /** Slot `==`: the same node type and the same value in the field that type selects. */
  predicate SlotEquals(a: PairSlot, b: PairSlot)
  {
    match a.pairNodeType
    case PairScriptStruct => a.pairNodeType == b.pairNodeType && a.scriptStruct == b.scriptStruct
    case PairEntityHandle => a.pairNodeType == b.pairNodeType && a.entityHandle == b.entityHandle
    case PairGameplayTag => a.pairNodeType == b.pairNodeType && a.gameplayTag == b.gameplayTag
  }

  /** Slot `==` is an equivalence relation. */
  lemma SlotEqualsIsEquivalence(a: PairSlot, b: PairSlot, c: PairSlot)
    ensures SlotEquals(a, a)
    ensures SlotEquals(a, b) ==> SlotEquals(b, a)
    ensures SlotEquals(a, b) && SlotEquals(b, c) ==> SlotEquals(a, c)
  {
  }

  /** Slots made from values compare equal exactly when they were made from the same kind of value and that value. */
  lemma MadeSlotsEqual(s1: InstancedStruct, s2: InstancedStruct, e1: EntityId, e2: EntityId, t1: GameplayTag, t2: GameplayTag)
    ensures SlotEquals(StructSlot(s1), StructSlot(s2)) <==> s1 == s2
    ensures SlotEquals(EntitySlot(e1), EntitySlot(e2)) <==> e1 == e2
    ensures SlotEquals(TagSlot(t1), TagSlot(t2)) <==> t1 == t2
    ensures !SlotEquals(StructSlot(s1), EntitySlot(e1)) && !SlotEquals(EntitySlot(e1), TagSlot(t1))
    ensures !SlotEquals(TagSlot(t1), StructSlot(s1))
  {
  }

  /** Fields the node type does not select play no part: a slot equals itself with them changed. */
  lemma SlotEqualsIgnoresOtherFields(a: PairSlot, s: InstancedStruct, e: EntityId, t: GameplayTag)
    ensures a.pairNodeType == PairScriptStruct ==> SlotEquals(a, a.(entityHandle := e, gameplayTag := t))
    ensures a.pairNodeType == PairEntityHandle ==> SlotEquals(a, a.(scriptStruct := s, gameplayTag := t))
    ensures a.pairNodeType == PairGameplayTag ==> SlotEquals(a, a.(scriptStruct := s, entityHandle := e))
  {
  }

  /** `EFlecsValuePairType`: which side of a pair carries the value. */
  datatype ValuePairType = ValueNone | ValueFirst | ValueSecond

  /** `FFlecsRecordPair`. */
  datatype RecordPair = RecordPair(first: PairSlot, second: PairSlot, pairValueType: ValuePairType)

  /** Pair `==`: both slots compare equal; the value side is not compared. */
  predicate PairEquals(a: RecordPair, b: RecordPair)
  {
    SlotEquals(a.first, b.first) && SlotEquals(a.second, b.second)
  }

  /** Pairs that differ only in which side carries the value compare equal. */
  lemma PairEqualsIgnoresValueType(p: RecordPair, v: ValuePairType)
    ensures PairEquals(p, p.(pairValueType := v))
    ensures p.pairValueType != v ==> p != p.(pairValueType := v)
  {
  }

  /** `EFlecsComponentNodeType`. */
  datatype ComponentNodeType = ScriptStructNode | EntityHandleNode | GameplayTagNode | PairNode | ScriptEnumNode

  /** `FSolidEnumSelector`: an enum class and a value of it. */
  datatype EnumSelector = EnumSelector(enumClass: string, value: int)

  /** `FFlecsComponentTypeInfo`: every field is stored; the node type says which one is meant. */
  datatype ComponentTypeInfo = ComponentTypeInfo(
    nodeType: ComponentNodeType, scriptStruct: InstancedStruct, scriptEnum: EnumSelector,
    entityHandle: EntityId, gameplayTag: GameplayTag, pair: RecordPair)

  const DefaultTypeInfo := ComponentTypeInfo(ScriptStructNode, EmptyStruct, EnumSelector("", 0), 0, "",
                                             RecordPair(DefaultSlot, DefaultSlot, ValueNone))

  /**
   * Descriptor `==`: the same node type and equal selected fields. A struct
   * descriptor also compares its (unselected) pair; an enum descriptor
   * compares the enum class and value.
   */
  predicate TypeInfoEquals(a: ComponentTypeInfo, b: ComponentTypeInfo)
  {
    match a.nodeType
    case ScriptStructNode => a.nodeType == b.nodeType && a.scriptStruct == b.scriptStruct && PairEquals(a.pair, b.pair)
    case ScriptEnumNode => a.nodeType == b.nodeType
      && a.scriptEnum.enumClass == b.scriptEnum.enumClass && a.scriptEnum.value == b.scriptEnum.value
    case EntityHandleNode => a.nodeType == b.nodeType && a.entityHandle == b.entityHandle
    case GameplayTagNode => a.nodeType == b.nodeType && a.gameplayTag == b.gameplayTag
    case PairNode => a.nodeType == b.nodeType && PairEquals(a.pair, b.pair)
  }

  /** Descriptor `!=`: the negation of `==`. */
  predicate TypeInfoNotEquals(a: ComponentTypeInfo, b: ComponentTypeInfo)
  {
    !TypeInfoEquals(a, b)
  }

  /** Descriptor `==` is an equivalence relation, and `!=` holds exactly when `==` does not. */
  lemma TypeInfoEqualsIsEquivalence(a: ComponentTypeInfo, b: ComponentTypeInfo, c: ComponentTypeInfo)
    ensures TypeInfoEquals(a, a)
    ensures TypeInfoEquals(a, b) ==> TypeInfoEquals(b, a)
    ensures TypeInfoEquals(a, b) && TypeInfoEquals(b, c) ==> TypeInfoEquals(a, c)
    ensures TypeInfoNotEquals(a, b) <==> !TypeInfoEquals(a, b)
  {
  }

  /** A struct descriptor's stale pair field makes it differ from one with the same struct. */
  lemma StructDescriptorComparesPair()
    ensures var a := DefaultTypeInfo.(scriptStruct := Struct("FHealth", [100]));
      !TypeInfoEquals(a, a.(pair := RecordPair(EntitySlot(7), DefaultSlot, ValueNone)))
  {
  }

  /** The descriptors the `AddComponent` overloads append: one per kind of value. */
  function StructComponent(s: InstancedStruct): (r: ComponentTypeInfo)
    ensures r.nodeType == ScriptStructNode && r.scriptStruct == s
  {
    DefaultTypeInfo.(scriptStruct := s)
  }

  function EntityComponent(e: EntityId): (r: ComponentTypeInfo)
    ensures r.nodeType == EntityHandleNode && r.entityHandle == e
  {
    DefaultTypeInfo.(nodeType := EntityHandleNode, entityHandle := e)
  }

  function TagComponent(t: GameplayTag): (r: ComponentTypeInfo)
    ensures r.nodeType == GameplayTagNode && r.gameplayTag == t
  {
    DefaultTypeInfo.(nodeType := GameplayTagNode, gameplayTag := t)
  }

  function EnumComponent(e: EnumSelector): (r: ComponentTypeInfo)
    ensures r.nodeType == ScriptEnumNode && r.scriptEnum == e
  {
    DefaultTypeInfo.(nodeType := ScriptEnumNode, scriptEnum := e)
  }

  function PairComponent(p: RecordPair): (r: ComponentTypeInfo)
    ensures r.nodeType == PairNode && r.pair == p
  {
    DefaultTypeInfo.(nodeType := PairNode, pair := p)
  }

  /** Descriptors built by the same overload compare equal exactly when their values do. */
  lemma ComponentDescriptorsEqual(s1: InstancedStruct, s2: InstancedStruct, e1: EntityId, e2: EntityId,
                                  t1: GameplayTag, t2: GameplayTag, n1: EnumSelector, n2: EnumSelector)
    ensures TypeInfoEquals(StructComponent(s1), StructComponent(s2)) <==> s1 == s2
    ensures TypeInfoEquals(EntityComponent(e1), EntityComponent(e2)) <==> e1 == e2
    ensures TypeInfoEquals(TagComponent(t1), TagComponent(t2)) <==> t1 == t2
    ensures TypeInfoEquals(EnumComponent(n1), EnumComponent(n2)) <==> n1 == n2
  {
  }

  /** A fragment: its struct type and its value. */
  datatype Fragment = Fragment(fragmentType: string, value: seq<int>)

  /** `FFlecsSubEntityRecord`. */
  datatype SubEntityRecord = SubEntityRecord(dontFragmentParentChildRelationship: bool, record: RecordValue)

  /** The value of a `FFlecsEntityRecord`. */
  datatype RecordValue = RecordValue(components: seq<ComponentTypeInfo>, subEntities: seq<SubEntityRecord>,
                                     fragments: seq<Fragment>)

  const EmptyRecord := RecordValue([], [], [])

  /**
   * Record `==`: components pairwise by descriptor `==`, sub-entities pairwise
   * by their flag and by record `==`, and fragments by value.
   */
  predicate RecordEquals(a: RecordValue, b: RecordValue)
    decreases a
  {
    |a.components| == |b.components|
    && (forall i :: 0 <= i < |a.components| ==> TypeInfoEquals(a.components[i], b.components[i]))
    && |a.subEntities| == |b.subEntities|
    && (forall i :: 0 <= i < |a.subEntities| ==>
          a.subEntities[i].dontFragmentParentChildRelationship == b.subEntities[i].dontFragmentParentChildRelationship
          && RecordEquals(a.subEntities[i].record, b.subEntities[i].record))
    && a.fragments == b.fragments
  }

  /** Every record equals itself, sub-entities included. */
  lemma {:induction false} RecordEqualsReflexive(a: RecordValue)
    ensures RecordEquals(a, a)
    decreases a
  {
    forall i | 0 <= i < |a.subEntities|
      ensures RecordEquals(a.subEntities[i].record, a.subEntities[i].record)
    {
      RecordEqualsReflexive(a.subEntities[i].record);
    }
    forall i | 0 <= i < |a.components|
      ensures TypeInfoEquals(a.components[i], a.components[i])
    {
      TypeInfoEqualsIsEquivalence(a.components[i], a.components[i], a.components[i]);
    }
  }

  /** Record `==` is symmetric. */
  lemma {:induction false} RecordEqualsSymmetric(a: RecordValue, b: RecordValue)
    requires RecordEquals(a, b)
    ensures RecordEquals(b, a)
    decreases a
  {
    forall i | 0 <= i < |b.subEntities|
      ensures RecordEquals(b.subEntities[i].record, a.subEntities[i].record)
    {
      RecordEqualsSymmetric(a.subEntities[i].record, b.subEntities[i].record);
    }
    forall i | 0 <= i < |b.components|
      ensures TypeInfoEquals(b.components[i], a.components[i])
    {
      TypeInfoEqualsIsEquivalence(a.components[i], b.components[i], a.components[i]);
    }
  }

  /** Whether some fragment has the given type (`HasFragment`). */
  predicate HasFragmentIn(fragments: seq<Fragment>, t: string)
  {
    exists i :: 0 <= i < |fragments| && fragments[i].fragmentType == t
  }

  /** No two fragments share a type. */
  predicate FragmentsUnique(fragments: seq<Fragment>)
  {
    forall i, j :: 0 <= i < j < |fragments| ==> fragments[i].fragmentType != fragments[j].fragmentType
  }

  /** `INDEX_NONE`. */
  const IndexNone: int := -1

  /** The record, whose fields the `AddComponent`/`AddFragment`/sub-entity members change in place. */
  class EntityRecord {
    var components: seq<ComponentTypeInfo>
    var subEntities: seq<SubEntityRecord>
    var fragments: seq<Fragment>

    constructor()
      ensures components == [] && subEntities == [] && fragments == []
    {
      components := [];
      subEntities := [];
      fragments := [];
    }

    /** The fragments stay unique by type. */
    predicate Valid()
      reads this
    {
      FragmentsUnique(fragments)
    }

    function Value(): (r: RecordValue)
      reads this
      ensures r.components == components && r.subEntities == subEntities && r.fragments == fragments
    {
      RecordValue(components, subEntities, fragments)
    }

    /** Every `AddComponent` overload: the descriptor is appended; nothing else changes. */
    method AddComponent(info: ComponentTypeInfo)
      modifies this
      ensures components == old(components) + [info]
      ensures subEntities == old(subEntities) && fragments == old(fragments)
    {
      components := components + [info];
    }

    /** `AddSubEntity`: appends the sub-record and returns its index, the old count. */
    method AddSubEntity(record: RecordValue, dontFragmentParentChildRelationship: bool) returns (index: nat)
      modifies this
      ensures index == |old(subEntities)|
      ensures subEntities == old(subEntities) + [SubEntityRecord(dontFragmentParentChildRelationship, record)]
      ensures components == old(components) && fragments == old(fragments)
      ensures GetSubEntityCount() == old(GetSubEntityCount()) + 1 && GetSubEntity(index) == record
    {
      index := |subEntities|;
      subEntities := subEntities + [SubEntityRecord(dontFragmentParentChildRelationship, record)];
    }

    /** `RemoveSubEntity`: the index must be valid; only that sub-record is removed. */
    method RemoveSubEntity(index: int)
      requires 0 <= index < |subEntities|
      modifies this
      ensures subEntities == old(subEntities)[..index] + old(subEntities)[index + 1..]
      ensures components == old(components) && fragments == old(fragments)
    {
      subEntities := subEntities[..index] + subEntities[index + 1..];
    }

    /** `RemoveAllSubEntities`. */
    method RemoveAllSubEntities()
      modifies this
      ensures subEntities == [] && components == old(components) && fragments == old(fragments)
    {
      subEntities := [];
    }

    /** `HasSubEntities`. */
    predicate HasSubEntities()
      reads this
    {
      |subEntities| != 0
    }

    /** `GetSubEntityCount`. */
    function GetSubEntityCount(): (r: nat)
      reads this
      ensures r == |subEntities|
      ensures r > 0 <==> HasSubEntities()
    {
      |subEntities|
    }

    /** `GetSubEntity`: the index must be valid. */
    function GetSubEntity(index: int): (r: RecordValue)
      reads this
      requires 0 <= index < |subEntities|
      ensures r == subEntities[index].record
    {
      subEntities[index].record
    }

    /** `HasFragment`. */
    predicate HasFragment(t: string)
      reads this
    {
      HasFragmentIn(fragments, t)
    }

    /** `HasFragments`. */
    predicate HasFragments()
      reads this
    {
      |fragments| != 0
    }

    /** `GetFragmentCount`. */
    function GetFragmentCount(): (r: nat)
      reads this
      ensures r == |fragments|
      ensures r > 0 <==> HasFragments()
    {
      |fragments|
    }

    /**
     * `AddFragment`: refused with `INDEX_NONE` when a fragment of that type is
     * already present; otherwise appended, returning its index.
     */
    method AddFragment(f: Fragment) returns (index: int)
      modifies this
      ensures old(HasFragment(f.fragmentType)) ==> index == IndexNone && fragments == old(fragments)
      ensures !old(HasFragment(f.fragmentType)) ==> index == |old(fragments)| && fragments == old(fragments) + [f]
      ensures GetFragmentCount() == old(GetFragmentCount()) + (if old(HasFragment(f.fragmentType)) then 0 else 1)
      ensures old(Valid()) ==> Valid()
      ensures HasFragment(f.fragmentType)
      ensures components == old(components) && subEntities == old(subEntities)
    {
      if HasFragment(f.fragmentType) {
        return IndexNone;
      }
      index := |fragments|;
      fragments := fragments + [f];
      assert fragments[index].fragmentType == f.fragmentType;
    }

    /**
     * `GetOrAddFragment`: the index of the first fragment of that type, or,
     * when there is none, of a fragment newly added with the given value.
     */
    method GetOrAddFragment(t: string, initial: seq<int>) returns (index: nat)
      modifies this
      ensures index < |fragments| && fragments[index].fragmentType == t
      ensures old(HasFragment(t)) ==> fragments == old(fragments)
      ensures !old(HasFragment(t)) ==> fragments == old(fragments) + [Fragment(t, initial)]
      ensures forall i :: 0 <= i < index ==> fragments[i].fragmentType != t
      ensures old(Valid()) ==> Valid()
      ensures components == old(components) && subEntities == old(subEntities)
    {
      var i := 0;
      while i < |fragments|
        invariant 0 <= i <= |fragments|
        invariant forall k :: 0 <= k < i ==> fragments[k].fragmentType != t
      {
        if fragments[i].fragmentType == t {
          return i;
        }
        i := i + 1;
      }
      var added := AddFragment(Fragment(t, initial));
      index := added as nat;
    }

    /** `FBuilder::SubEntity()`: appends an empty sub-record with the given flag; the scope edits that child. */
    method SubEntityScope(dontFragmentParentChildRelationship: bool) returns (index: nat)
      modifies this
      ensures index == |old(subEntities)| && index < |subEntities|
      ensures subEntities == old(subEntities) + [SubEntityRecord(dontFragmentParentChildRelationship, EmptyRecord)]
      ensures components == old(components) && fragments == old(fragments)
    {
      index := AddSubEntity(EmptyRecord, dontFragmentParentChildRelationship);
    }
  }

  /** The fragment list stays unique when `GetOrAddFragment` keeps or adds exactly one fragment of a type. */
  lemma GetOrAddKeepsOne(fragments: seq<Fragment>, t: string, initial: seq<int>)
    requires FragmentsUnique(fragments)
    ensures var r := if HasFragmentIn(fragments, t) then fragments else fragments + [Fragment(t, initial)];
      FragmentsUnique(r) && HasFragmentIn(r, t)
      && forall i, j :: 0 <= i < |r| && 0 <= j < |r| && r[i].fragmentType == t && r[j].fragmentType == t ==> i == j
  {
    var r := if HasFragmentIn(fragments, t) then fragments else fragments + [Fragment(t, initial)];
    assert r[|r| - 1].fragmentType == t || HasFragmentIn(fragments, t);
  }

  /** Removing the sub-entity at the index `AddSubEntity` returned gives the list back. */
  lemma RemoveUndoesAdd(subEntities: seq<SubEntityRecord>, s: SubEntityRecord)
    ensures var added := subEntities + [s];
      added[..|subEntities|] + added[|subEntities| + 1..] == subEntities
  {
    var added := subEntities + [s];
    assert added[..|subEntities|] == subEntities;
  }
}
