// `FFlecsCollectionItemBuilder`: the earlier builder of a collection item. It
// keeps components by name only (no pairs), a set of required and a set of
// excluded component names, and a flag that makes it act on a new child of
// the entity it is applied to instead of on that entity.

module CollectionItemBuilders {
  import opened CollectionCalls

  /** This builder's `FFlecsCollectionItem`: a component name and its bytes (empty when no value was given). */
  datatype NamedItem = NamedItem(componentName: string, componentData: seq<Byte>)

  /** `GetTypeHash(FFlecsCollectionItem)`: the name's hash. */
  function ItemHash(item: NamedItem, hash: string -> nat): nat
  {
    hash(item.componentName)
  }

  /** Items of the same name hash alike whatever their bytes. */
  lemma HashIgnoresData(a: NamedItem, b: NamedItem, hash: string -> nat)
    requires a.componentName == b.componentName
    ensures ItemHash(a, hash) == ItemHash(b, hash)
  {
  }

  /** Some item has this component name. */
  predicate HasName(items: seq<NamedItem>, name: string)
  {
    exists i :: 0 <= i < |items| && items[i].componentName == name
  }

  /** Whether an item is dropped by `RemoveComponent(name)`. */
  function Named(name: string): NamedItem -> bool
  {
    (item: NamedItem) => item.componentName == name
  }

  /** The call one item makes on the entity the builder acts on: empty bytes add, bytes set. */
  function ItemCall(item: NamedItem, w: SymbolWorld, used: EntityId): (r: Call)
    ensures item.componentData == [] ==> r == Add(used, w.Lookup(item.componentName))
    ensures item.componentData != [] ==> r == Set(used, w.Lookup(item.componentName), item.componentData)
  {
    var id := w.Lookup(item.componentName);
    if item.componentData == [] then Add(used, id) else Set(used, id, item.componentData)
  }

  /** The items' calls, in list order. */
  function ItemsCalls(items: seq<NamedItem>, w: SymbolWorld, used: EntityId): seq<Call>
  {
    if items == [] then [] else ItemsCalls(items[..|items| - 1], w, used) + [ItemCall(items[|items| - 1], w, used)]
  }

  /** Exactly one call per item, the `i`-th for the `i`-th item, all on the same entity. */
  lemma {:induction false} ItemsCallsOnePerItem(items: seq<NamedItem>, w: SymbolWorld, used: EntityId)
    ensures |ItemsCalls(items, w, used)| == |items|
    ensures forall i :: 0 <= i < |items| ==> ItemsCalls(items, w, used)[i] == ItemCall(items[i], w, used)
  {
    if items != [] {
      ItemsCallsOnePerItem(items[..|items| - 1], w, used);
    }
  }

  /** The builder's value. */
  datatype ItemBuilderValue = ItemBuilderValue(
    items: seq<NamedItem>, requirements: set<string>, exclusions: set<string>, newEntity: bool)

  /**
   * `ApplyToEntity` on `target`, with `freshId` the id the world hands out
   * next: a new entity is first created and parented when the flag is set;
   * the gate is checked on the entity acted on (a new entity has none of
   * the named components); then every item's call in list order.
   */
  function ApplyCalls(b: ItemBuilderValue, w: SymbolWorld, target: EntityId, present: set<EntityId>, freshId: EntityId): seq<Call>
  {
    var used := if b.newEntity then freshId else target;
    var usedPresent := if b.newEntity then {} else present;
    (if b.newEntity then [CreateEntity(freshId), SetParent(freshId, target)] else [])
      + (if GateOpen(w, b.requirements, b.exclusions, usedPresent) then ItemsCalls(b.items, w, used) else [])
  }

  /**
   * With the flag set the child is created and parented first, even when
   * the gate then stops (a fresh child never has a required component);
   * after that come the items' calls in list order, all on the entity acted
   * on: the child with the flag set, the entity itself otherwise.
   */
  lemma ApplyTargets(b: ItemBuilderValue, w: SymbolWorld, target: EntityId, present: set<EntityId>, freshId: EntityId)
    ensures var calls := ApplyCalls(b, w, target, present, freshId);
      var k := if b.newEntity then 2 else 0;
      var used := if b.newEntity then freshId else target;
      && (b.newEntity ==> calls[..2] == [CreateEntity(freshId), SetParent(freshId, target)])
      && (b.newEntity && b.requirements != {} ==> |calls| == 2)
      && (|calls| == k || |calls| == k + |b.items|)
      && (forall i :: k <= i < |calls| ==> calls[i] == ItemCall(b.items[i - k], w, used))
  {
    var used := if b.newEntity then freshId else target;
    ItemsCallsOnePerItem(b.items, w, used);
    if b.newEntity && b.requirements != {} {
      var r :| r in b.requirements;
      assert w.Lookup(r) !in {};
    }
  }

  /** `FFlecsCollectionItemBuilder`, changed in place by its members. */
  class CollectionItemBuilder {
    var items: seq<NamedItem>
    var requirements: set<string>
    var exclusions: set<string>
    var newEntity: bool

    /** A builder with nothing in it, acting on the entity itself. */
    constructor()
      ensures Value() == ItemBuilderValue([], {}, {}, false)
    {
      items := [];
      requirements := {};
      exclusions := {};
      newEntity := false;
    }

    function Value(): ItemBuilderValue
      reads this
    {
      ItemBuilderValue(items, requirements, exclusions, newEntity)
    }

    /** The `AddComponent` overloads: one item, holding the bytes when a value is given. */
    method AddComponent(name: string, data: seq<Byte>)
      modifies this
      ensures items == old(items) + [NamedItem(name, data)]
      ensures requirements == old(requirements) && exclusions == old(exclusions) && newEntity == old(newEntity)
    {
      items := items + [NamedItem(name, data)];
    }

    /** `HasComponent(name)`. */
    predicate HasComponent(name: string)
      reads this
    {
      HasName(items, name)
    }

    /** `Clear`: only the items go. */
    method Clear()
      modifies this
      ensures items == [] && requirements == old(requirements) && exclusions == old(exclusions)
      ensures newEntity == old(newEntity)
    {
      items := [];
    }

    /** `RemoveComponent(name)`: every item of that name goes and nothing else. */
    method RemoveComponent(name: string)
      modifies this
      ensures items == RemoveWhere(old(items), Named(name))
      ensures !HasComponent(name)
      ensures forall it :: it in old(items) && it.componentName != name ==> it in items
      ensures requirements == old(requirements) && exclusions == old(exclusions) && newEntity == old(newEntity)
    {
      RemoveWhereContents(items, Named(name));
      items := RemoveWhere(items, Named(name));
      forall i | 0 <= i < |items|
        ensures items[i].componentName != name
      {
        assert items[i] in items;
      }
    }

    /** `AddComponentRequirement`. */
    method AddComponentRequirement(name: string)
      modifies this
      ensures requirements == old(requirements) + {name}
      ensures items == old(items) && exclusions == old(exclusions) && newEntity == old(newEntity)
    {
      requirements := requirements + {name};
    }

    /** `AddComponentExclusion`. */
    method AddComponentExclusion(name: string)
      modifies this
      ensures exclusions == old(exclusions) + {name}
      ensures items == old(items) && requirements == old(requirements) && newEntity == old(newEntity)
    {
      exclusions := exclusions + {name};
    }

    /** `ClearComponentRequirementsAndExclusions` (and its two halves). */
    method ClearComponentRequirementsAndExclusions()
      modifies this
      ensures requirements == {} && exclusions == {}
      ensures items == old(items) && newEntity == old(newEntity)
    {
      requirements := {};
      exclusions := {};
    }

    /** `ClearAll`: items, requirements and exclusions go; the new-entity flag stays. */
    method ClearAll()
      modifies this
      ensures Value() == ItemBuilderValue([], {}, {}, old(newEntity))
    {
      Clear();
      ClearComponentRequirementsAndExclusions();
    }

    /** `RemoveComponentRequirement`: only that name goes. */
    method RemoveComponentRequirement(name: string)
      modifies this
      ensures requirements == old(requirements) - {name}
      ensures items == old(items) && exclusions == old(exclusions) && newEntity == old(newEntity)
    {
      requirements := requirements - {name};
    }

    /** `RemoveComponentExclusion`: only that name goes. */
    method RemoveComponentExclusion(name: string)
      modifies this
      ensures exclusions == old(exclusions) - {name}
      ensures items == old(items) && requirements == old(requirements) && newEntity == old(newEntity)
    {
      exclusions := exclusions - {name};
    }

    /** `SetNewEntity`. */
    method SetNewEntity(b: bool)
      modifies this
      ensures IsNewEntity() == b
      ensures items == old(items) && requirements == old(requirements) && exclusions == old(exclusions)
    {
      newEntity := b;
    }

    /** `IsNewEntity`. */
    function IsNewEntity(): bool
      reads this
    {
      newEntity
    }

    /** `ApplyToEntity` on a valid entity: the optional child, the gate loops, then one call per item. */
    method ApplyToEntity(w: SymbolWorld, target: EntityId, present: set<EntityId>, freshId: EntityId) returns (calls: seq<Call>)
      requires target != 0
      ensures calls == ApplyCalls(Value(), w, target, present, freshId)
    {
      var used := target;
      var usedPresent := present;
      calls := [];
      if newEntity {
        used := freshId;
        usedPresent := {};
        calls := [CreateEntity(freshId), SetParent(freshId, target)];
      }
      ghost var prefix := calls;
      var open := CheckGate(w, requirements, exclusions, usedPresent);
      if !open {
        return;
      }
      var i := 0;
      while i < |items|
        invariant 0 <= i <= |items|
        invariant calls == prefix + ItemsCalls(items[..i], w, used)
      {
        assert items[..i + 1][..i] == items[..i];
        calls := calls + [ItemCall(items[i], w, used)];
        i := i + 1;
      }
      assert items[..|items|] == items;
    }
  }

}
