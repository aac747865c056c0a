// `FFlecsCollectionBuilder`: a list of component items (a component name,
// an optional pair target name and optionally the component's bytes), a set
// of required and a set of excluded component names, and whether it builds a
// slot entity. Applying it to an entity checks the gate and then adds or sets
// every item in list order.
//
// In `ApplyToEntity` the pair flag is computed as "the second name is empty",
// the opposite of its meaning; and for a pair carrying data whose first is a
// tag, the data is set on the second only when the second is also a tag, the
// opposite of what the "both components are tags" diagnostic in the last
// branch says. The model keeps both readings as `ItemCallAsWritten` and
// applies builders with the intended `ItemCall`.

module CollectionBuilders {
  import opened Wrappers
  import opened CollectionCalls

  /** `FFlecsCollectionItem`: the component's name, the pair target's name ("" for none) and its bytes. */
  datatype CollectionItem = CollectionItem(first: string, second: string, componentData: seq<Byte>)

  /**
   * `GetTypeHash(FFlecsCollectionItem)`, given the engine's string hash and
   * `HashCombineFast`: the first name's hash alone when there is no second.
   */
  function ItemHash(item: CollectionItem, hash: string -> nat, combine: (nat, nat) -> nat): (r: nat)
    ensures item.second == "" ==> r == hash(item.first)
    ensures item.second != "" ==> r == combine(hash(item.first), hash(item.second))
  {
    if item.second == "" then hash(item.first) else combine(hash(item.first), hash(item.second))
  }

  /** Items that name the same components hash alike whatever their bytes. */
  lemma HashIgnoresData(a: CollectionItem, b: CollectionItem, hash: string -> nat, combine: (nat, nat) -> nat)
    requires a.first == b.first && a.second == b.second
    ensures ItemHash(a, hash, combine) == ItemHash(b, hash, combine)
  {
  }

  /** A builder's value: what the component collection stores and its traits edit. */
  datatype BuilderValue = BuilderValue(
    items: seq<CollectionItem>, requirements: set<string>, exclusions: set<string>, isSlotEntity: bool)

  /** `FFlecsCollectionBuilder(bInIsSlotEntity)`: no items, no requirements, no exclusions. */
  function NewBuilder(isSlotEntity: bool): (r: BuilderValue)
    ensures r.items == [] && r.requirements == {} && r.exclusions == {} && r.isSlotEntity == isSlotEntity
  {
    BuilderValue([], {}, {}, isSlotEntity)
  }

  /** `ValidateData`: its loop inspects nothing, so every builder is accepted. */
  function ValidateData(b: BuilderValue): (r: bool)
    ensures r
  {
    true
  }

  /** Some item has this component name. */
  predicate HasFirst(items: seq<CollectionItem>, name: string)
  {
    exists i :: 0 <= i < |items| && items[i].first == name
  }

  /** The bytes of the first item with this component name (`FindByPredicate`). */
  function FirstData(items: seq<CollectionItem>, name: string): (r: seq<Byte>)
    requires HasFirst(items, name)
    ensures exists i ::
      && 0 <= i < |items| && items[i].first == name && r == items[i].componentData
      && (forall j :: 0 <= j < i ==> items[j].first != name)
  {
    if items[0].first == name then items[0].componentData
    else
      assert HasFirst(items[1..], name) by {
        var i :| 0 <= i < |items| && items[i].first == name;
        assert items[1..][i - 1].first == name;
      }
      var r := FirstData(items[1..], name);
      var i :| 0 <= i < |items[1..]| && items[1..][i].first == name && r == items[1..][i].componentData
        && forall j :: 0 <= j < i ==> items[1..][j].first != name;
      assert items[i + 1].first == name && forall j :: 0 <= j < i + 1 ==> items[j].first != name by {
        forall j | 0 < j < i + 1
          ensures items[j].first != name
        {
          assert items[j] == items[1..][j - 1];
        }
      }
      r
  }

  /** Whether an item of this name is dropped by `RemoveComponent(name)`. */
  function Named(name: string): CollectionItem -> bool
  {
    (item: CollectionItem) => item.first == name
  }

  /**
   * The data-carrying pair branch as intended: a first with data takes the
   * value; otherwise a second with data does; two tags set nothing.
   */
  function PairDataCall(w: SymbolWorld, target: EntityId, firstId: EntityId, secondId: EntityId, data: seq<Byte>): (r: Option<Call>)
    ensures !w.IsTag(firstId) ==> r == Some(SetPairFirst(target, firstId, data, secondId))
    ensures w.IsTag(firstId) && !w.IsTag(secondId) ==> r == Some(SetPairSecond(target, firstId, secondId, data))
    ensures r.None? <==> w.IsTag(firstId) && w.IsTag(secondId)
  {
    if !w.IsTag(firstId) then Some(SetPairFirst(target, firstId, data, secondId))
    else if !w.IsTag(secondId) then Some(SetPairSecond(target, firstId, secondId, data))
    else None
  }

  /** The data-carrying pair branch as written: the second's tag test is inverted. */
  function PairDataCallAsWritten(w: SymbolWorld, target: EntityId, firstId: EntityId, secondId: EntityId, data: seq<Byte>): Option<Call>
  {
    if !w.IsTag(firstId) then Some(SetPairFirst(target, firstId, data, secondId))
    else if w.IsTag(secondId) then Some(SetPairSecond(target, firstId, secondId, data))
    else None
  }

  /**
   * The call one item makes as intended: an item with a second name is a
   * pair of the two looked-up ids, any other item acts on its first id;
   * empty bytes add, bytes set.
   */
  function ItemCall(item: CollectionItem, w: SymbolWorld, target: EntityId): (r: Option<Call>)
    ensures item.second == "" && item.componentData == [] ==> r == Some(Add(target, w.Lookup(item.first)))
    ensures item.second == "" && item.componentData != [] ==> r == Some(Set(target, w.Lookup(item.first), item.componentData))
    ensures item.second != "" && item.componentData == []
      ==> r == Some(AddPair(target, w.Lookup(item.first), w.Lookup(item.second)))
    ensures item.second != "" && item.componentData != []
      ==> r == PairDataCall(w, target, w.Lookup(item.first), w.Lookup(item.second), item.componentData)
  {
    var isPair := item.second != "";
    var firstId := w.Lookup(item.first);
    var secondId := if isPair then w.Lookup(item.second) else 0;
    if item.componentData == [] then
      Some(if isPair then AddPair(target, firstId, secondId) else Add(target, firstId))
    else if isPair then PairDataCall(w, target, firstId, secondId, item.componentData)
    else Some(Set(target, firstId, item.componentData))
  }

  /** The call one item makes as written: the pair flag is "no second name". */
  function ItemCallAsWritten(item: CollectionItem, w: SymbolWorld, target: EntityId): Option<Call>
  {
    var isPair := item.second == "";
    var firstId := w.Lookup(item.first);
    var secondId := if isPair then w.Lookup(item.second) else 0;
    if item.componentData == [] then
      Some(if isPair then AddPair(target, firstId, secondId) else Add(target, firstId))
    else if isPair then PairDataCallAsWritten(w, target, firstId, secondId, item.componentData)
    else Some(Set(target, firstId, item.componentData))
  }

  function CallSeq(c: Option<Call>): seq<Call>
  {
    if c.Some? then [c.value] else []
  }

  /** The items' calls, in list order. */
  function ItemsCalls(items: seq<CollectionItem>, w: SymbolWorld, target: EntityId): seq<Call>
  {
    if items == [] then []
    else ItemsCalls(items[..|items| - 1], w, target) + CallSeq(ItemCall(items[|items| - 1], w, target))
  }

  /** The items' calls as written, in list order. */
  function ItemsCallsAsWritten(items: seq<CollectionItem>, w: SymbolWorld, target: EntityId): seq<Call>
  {
    if items == [] then []
    else ItemsCallsAsWritten(items[..|items| - 1], w, target) + CallSeq(ItemCallAsWritten(items[|items| - 1], w, target))
  }

  /** `ApplyToEntity`: nothing unless the gate is open, then every item's call in list order. */
  function ApplyCalls(b: BuilderValue, w: SymbolWorld, target: EntityId, present: set<EntityId>): seq<Call>
  {
    if GateOpen(w, b.requirements, b.exclusions, present) then ItemsCalls(b.items, w, target) else []
  }

  /** Applying two lists one after the other is applying their concatenation: items act in list order. */
  lemma {:induction false} ItemsCallsConcat(a: seq<CollectionItem>, b: seq<CollectionItem>, w: SymbolWorld, target: EntityId)
    ensures ItemsCalls(a + b, w, target) == ItemsCalls(a, w, target) + ItemsCalls(b, w, target)
    decreases |b|
  {
    if b == [] {
      assert a + b == a;
    } else {
      var b' := b[..|b| - 1];
      assert (a + b)[..|a + b| - 1] == a + b';
      ItemsCallsConcat(a, b', w, target);
    }
  }

  /**
   * Items without bytes each make exactly one call, in list order: a plain
   * add, or a pair add when the item names a second.
   */
  lemma {:induction false} DatalessItemsCalls(items: seq<CollectionItem>, w: SymbolWorld, target: EntityId)
    requires forall i :: 0 <= i < |items| ==> items[i].componentData == []
    ensures |ItemsCalls(items, w, target)| == |items|
    ensures forall i :: 0 <= i < |items| ==>
      (ItemsCalls(items, w, target)[i]
       == if items[i].second == "" then Add(target, w.Lookup(items[i].first))
          else AddPair(target, w.Lookup(items[i].first), w.Lookup(items[i].second)))
  {
    if items != [] {
      DatalessItemsCalls(items[..|items| - 1], w, target);
    }
  }

  /** Every call of an applied builder targets the entity it was applied to, and there is at most one per item. */
  lemma {:induction false} ItemsCallsTarget(items: seq<CollectionItem>, w: SymbolWorld, target: EntityId)
    ensures |ItemsCalls(items, w, target)| <= |items|
    ensures forall c :: c in ItemsCalls(items, w, target) ==> !c.CreateEntity? && !c.SetParent? && c.target == target
  {
    if items != [] {
      ItemsCallsTarget(items[..|items| - 1], w, target);
    }
  }

  /**
   * As written, every item the builder's own `AddComponent` produces (which
   * never names a second) is applied as a pair with the id looked up for the
   * empty name, while its intended call is a plain add.
   */
  lemma {:induction false} AddedItemsBecomePairsAsWritten(items: seq<CollectionItem>, w: SymbolWorld, target: EntityId)
    requires forall i :: 0 <= i < |items| ==> items[i].second == "" && items[i].componentData == []
    ensures |ItemsCallsAsWritten(items, w, target)| == |items| && |ItemsCalls(items, w, target)| == |items|
    ensures forall i :: 0 <= i < |items| ==>
      ItemsCallsAsWritten(items, w, target)[i] == AddPair(target, w.Lookup(items[i].first), w.Lookup(""))
      && ItemsCalls(items, w, target)[i] == Add(target, w.Lookup(items[i].first))
  {
    DatalessItemsCalls(items, w, target);
    if items != [] {
      AddedItemsBecomePairsAsWritten(items[..|items| - 1], w, target);
    }
  }

  /** A world with a `Likes` tag, an `Apples` tag and a `Position` component. */
  function SampleWorld(): SymbolWorld
  {
    SymbolWorld(map["Likes" := 10, "Apples" := 11, "Position" := 12], {10, 11})
  }

  /**
   * As written, the pair `(Likes, Apples)` is added as the plain `Likes`
   * and the plain `Position` is added as the pair `(Position, 0)`.
   */
  lemma PairFlagInvertedAsWritten()
    ensures ItemCallAsWritten(CollectionItem("Likes", "Apples", []), SampleWorld(), 1) == Some(Add(1, 10))
    ensures ItemCall(CollectionItem("Likes", "Apples", []), SampleWorld(), 1) == Some(AddPair(1, 10, 11))
    ensures ItemCallAsWritten(CollectionItem("Position", "", []), SampleWorld(), 1) == Some(AddPair(1, 12, 0))
    ensures ItemCall(CollectionItem("Position", "", []), SampleWorld(), 1) == Some(Add(1, 12))
  {
  }

  /**
   * As written, a tag first with the `Position` component second sets
   * nothing (the "both are tags" branch), while two tags get data set on
   * the second tag.
   */
  lemma TagSecondInvertedAsWritten()
    ensures PairDataCallAsWritten(SampleWorld(), 1, 10, 12, [7]) == None
    ensures PairDataCall(SampleWorld(), 1, 10, 12, [7]) == Some(SetPairSecond(1, 10, 12, [7]))
    ensures PairDataCallAsWritten(SampleWorld(), 1, 10, 11, [7]) == Some(SetPairSecond(1, 10, 11, [7]))
    ensures PairDataCall(SampleWorld(), 1, 10, 11, [7]) == None
  {
  }

  /** The two readings of the data-pair branch differ exactly when the first is a tag. */
  lemma PairDataReadingsDiffer(w: SymbolWorld, target: EntityId, firstId: EntityId, secondId: EntityId, data: seq<Byte>)
    ensures PairDataCallAsWritten(w, target, firstId, secondId, data) == PairDataCall(w, target, firstId, secondId, data)
      <==> !w.IsTag(firstId)
  {
  }

  /** `FFlecsCollectionBuilder`, changed in place by its members. */
  class CollectionBuilder {
    var items: seq<CollectionItem>
    var requirements: set<string>
    var exclusions: set<string>
    var isSlotEntity: bool

    /** `FFlecsCollectionBuilder(bInIsSlotEntity)`. */
    constructor(isSlotEntity: bool)
      ensures Value() == NewBuilder(isSlotEntity)
    {
      items := [];
      requirements := {};
      exclusions := {};
      this.isSlotEntity := isSlotEntity;
    }

    function Value(): BuilderValue
      reads this
    {
      BuilderValue(items, requirements, exclusions, isSlotEntity)
    }

    /**
     * The `AddComponent` overloads: one item named after the component, with
     * no second name, holding the component's bytes when a value is given.
     */
    method AddComponent(first: string, data: seq<Byte>)
      modifies this
      ensures items == old(items) + [CollectionItem(first, "", data)]
      ensures forall n :: HasComponent(n) <==> old(HasComponent(n)) || n == first
      ensures requirements == old(requirements) && exclusions == old(exclusions) && isSlotEntity == old(isSlotEntity)
    {
      ghost var before := items;
      items := items + [CollectionItem(first, "", data)];
      forall n
        ensures HasComponent(n) <==> HasFirst(before, n) || n == first
      {
        assert items[|items| - 1].first == first;
        if HasFirst(before, n) {
          var i :| 0 <= i < |before| && before[i].first == n;
          assert items[i] == before[i];
        }
        if HasComponent(n) && n != first {
          var i :| 0 <= i < |items| && items[i].first == n;
          assert items[i] == before[i];
        }
      }
    }

    /** `HasComponent(name)`. */
    predicate HasComponent(name: string)
      reads this
    {
      HasFirst(items, name)
    }

    /** `GetComponent(name)`: the bytes of the first item of that name, which must exist. */
    function GetComponent(name: string): (r: seq<Byte>)
      reads this
      requires HasComponent(name)
      ensures exists i ::
        && 0 <= i < |items| && items[i].first == name && r == items[i].componentData
        && (forall j :: 0 <= j < i ==> items[j].first != name)
    {
      FirstData(items, name)
    }

    /** `Clear`: the items go, the requirements and exclusions stay. */
    method Clear()
      modifies this
      ensures items == [] && requirements == old(requirements) && exclusions == old(exclusions)
      ensures isSlotEntity == old(isSlotEntity)
    {
      items := [];
    }

    /** `RemoveComponent(name)`: every item of that name goes, the others keep their order. */
    method RemoveComponent(name: string)
      modifies this
      ensures items == RemoveWhere(old(items), Named(name))
      ensures !HasComponent(name)
      ensures forall n :: n != name ==> (HasComponent(n) <==> old(HasComponent(n)))
      ensures forall it :: it in old(items) && it.first != name ==> it in items
      ensures requirements == old(requirements) && exclusions == old(exclusions) && isSlotEntity == old(isSlotEntity)
    {
      ghost var before := items;
      RemoveWhereContents(items, Named(name));
      items := RemoveWhere(items, Named(name));
      forall n | n != name
        ensures HasComponent(n) <==> HasFirst(before, n)
      {
        if HasFirst(before, n) {
          var i :| 0 <= i < |before| && before[i].first == n;
          assert before[i] in items;
          var j :| 0 <= j < |items| && items[j] == before[i];
        }
        if HasComponent(n) {
          var j :| 0 <= j < |items| && items[j].first == n;
          assert items[j] in items;
          var i :| 0 <= i < |before| && before[i] == items[j];
        }
      }
      forall i | 0 <= i < |items|
        ensures items[i].first != name
      {
        assert items[i] in items;
      }
    }

    /** `AddComponentRequirement`. */
    method AddComponentRequirement(name: string)
      modifies this
      ensures requirements == old(requirements) + {name}
      ensures items == old(items) && exclusions == old(exclusions) && isSlotEntity == old(isSlotEntity)
    {
      requirements := requirements + {name};
    }

    /** `AddComponentExclusion`. */
    method AddComponentExclusion(name: string)
      modifies this
      ensures exclusions == old(exclusions) + {name}
      ensures items == old(items) && requirements == old(requirements) && isSlotEntity == old(isSlotEntity)
    {
      exclusions := exclusions + {name};
    }

    /** `ClearComponentRequirements`. */
    method ClearComponentRequirements()
      modifies this
      ensures requirements == {}
      ensures items == old(items) && exclusions == old(exclusions) && isSlotEntity == old(isSlotEntity)
    {
      requirements := {};
    }

    /** `ClearComponentExclusions`. */
    method ClearComponentExclusions()
      modifies this
      ensures exclusions == {}
      ensures items == old(items) && requirements == old(requirements) && isSlotEntity == old(isSlotEntity)
    {
      exclusions := {};
    }

    /** `ClearComponentRequirementsAndExclusions`. */
    method ClearComponentRequirementsAndExclusions()
      modifies this
      ensures requirements == {} && exclusions == {}
      ensures items == old(items) && isSlotEntity == old(isSlotEntity)
    {
      ClearComponentRequirements();
      ClearComponentExclusions();
    }

    /** `ClearAll`: items, requirements and exclusions all go. */
    method ClearAll()
      modifies this
      ensures Value() == NewBuilder(old(isSlotEntity))
    {
      Clear();
      ClearComponentRequirementsAndExclusions();
    }

    /** `RemoveComponentRequirement`: only that name goes. */
    method RemoveComponentRequirement(name: string)
      modifies this
      ensures requirements == old(requirements) - {name}
      ensures items == old(items) && exclusions == old(exclusions) && isSlotEntity == old(isSlotEntity)
    {
      requirements := requirements - {name};
    }

    /** `RemoveComponentExclusion`: only that name goes. */
    method RemoveComponentExclusion(name: string)
      modifies this
      ensures exclusions == old(exclusions) - {name}
      ensures items == old(items) && requirements == old(requirements) && isSlotEntity == old(isSlotEntity)
    {
      exclusions := exclusions - {name};
    }

    /**
     * `ApplyToEntity` on a valid entity whose present ids are `present`: the
     * gate loops, then one call per item in list order.
     */
    method ApplyToEntity(w: SymbolWorld, target: EntityId, present: set<EntityId>) returns (calls: seq<Call>)
      requires target != 0
      ensures calls == ApplyCalls(Value(), w, target, present)
    {
      var open := CheckGate(w, requirements, exclusions, present);
      if !open {
        return [];
      }
      calls := [];
      var i := 0;
      while i < |items|
        invariant 0 <= i <= |items|
        invariant calls == ItemsCalls(items[..i], w, target)
      {
        assert items[..i + 1][..i] == items[..i];
        var c := ItemCall(items[i], w, target);
        if c.Some? {
          calls := calls + [c.value];
        }
        i := i + 1;
      }
      assert items[..|items|] == items;
    }
  }

  /** A builder whose gate is closed makes no call at all; an open gate applies every item. */
  lemma ClosedGateAppliesNothing(b: BuilderValue, w: SymbolWorld, target: EntityId, present: set<EntityId>)
    ensures (exists r :: r in b.requirements && w.Lookup(r) !in present) ==> ApplyCalls(b, w, target, present) == []
    ensures (exists x :: x in b.exclusions && w.Lookup(x) in present) ==> ApplyCalls(b, w, target, present) == []
    ensures GateOpen(w, b.requirements, b.exclusions, present) ==> ApplyCalls(b, w, target, present) == ItemsCalls(b.items, w, target)
  {
  }
}
