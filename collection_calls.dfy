// What the component-collection builders share: the entity calls they make,
// the world's symbol table they resolve component names through, the
// requirement/exclusion gate they check first, and the `RemoveAll` they use
// to drop items by name.

module CollectionCalls {

  /** A Flecs entity or component id; 0 is the null id. */
  type EntityId = nat

  /** One byte of a component's copied value. */
  type Byte = x: int | 0 <= x < 256

  /** A call a builder makes on an entity (or on the world, for `CreateEntity`). */
  datatype Call =
    | Add(target: EntityId, id: EntityId)
    | AddPair(target: EntityId, first: EntityId, second: EntityId)
    | Set(target: EntityId, id: EntityId, data: seq<Byte>)
    | SetPairFirst(target: EntityId, first: EntityId, data: seq<Byte>, second: EntityId)
    | SetPairSecond(target: EntityId, first: EntityId, second: EntityId, data: seq<Byte>)
    | CreateEntity(created: EntityId)
    | SetParent(child: EntityId, parent: EntityId)

  /**
   * The parts of the world a builder consults: the symbol table that
   * `ecs_lookup_symbol` searches and the set of entities that are tags.
   */
  datatype SymbolWorld = SymbolWorld(symbols: map<string, EntityId>, tags: set<EntityId>)
  {
    /** `ecs_lookup_symbol`: the entity registered under the name, or the null id. */
    function Lookup(name: string): (r: EntityId)
      ensures name in symbols ==> r == symbols[name]
      ensures name !in symbols ==> r == 0
    {
      if name in symbols then symbols[name] else 0
    }

    predicate IsTag(id: EntityId) { id in tags }
  }

  /**
   * The gate every builder checks before applying its items: every required
   * component is on the entity and no excluded one is.
   */
  predicate GateOpen(w: SymbolWorld, requirements: set<string>, exclusions: set<string>, present: set<EntityId>)
  {
    (forall r :: r in requirements ==> w.Lookup(r) in present)
    && (forall x :: x in exclusions ==> w.Lookup(x) !in present)
  }

  /**
   * The two gate loops: the requirements, then the exclusions, each in the
   * set's own order, stopping at the first one that fails.
   */
  method CheckGate(w: SymbolWorld, requirements: set<string>, exclusions: set<string>, present: set<EntityId>)
    returns (open: bool)
    ensures open <==> GateOpen(w, requirements, exclusions, present)
  {
    var rest := requirements;
    while rest != {}
      invariant rest <= requirements
      invariant forall r :: r in requirements - rest ==> w.Lookup(r) in present
      decreases |rest|
    {
      var r :| r in rest;
      if w.Lookup(r) !in present {
        return false;
      }
      rest := rest - {r};
    }
    rest := exclusions;
    while rest != {}
      invariant rest <= exclusions
      invariant forall r :: r in requirements ==> w.Lookup(r) in present
      invariant forall x :: x in exclusions - rest ==> w.Lookup(x) !in present
      decreases |rest|
    {
      var x :| x in rest;
      if w.Lookup(x) in present {
        return false;
      }
      rest := rest - {x};
    }
    return true;
  }

  /** `TArray::RemoveAll`: the elements `drop` rejects, in their original order. */
  function RemoveWhere<T>(s: seq<T>, drop: T -> bool): (r: seq<T>)
    ensures |r| <= |s|
  {
    if s == [] then []
    else RemoveWhere(s[..|s| - 1], drop) + (if drop(s[|s| - 1]) then [] else [s[|s| - 1]])
  }

  /** An element survives the removal exactly when it was there and is not dropped. */
  lemma {:induction false} RemoveWhereContents<T>(s: seq<T>, drop: T -> bool)
    ensures forall x :: x in RemoveWhere(s, drop) <==> x in s && !drop(x)
  {
    if s != [] {
      RemoveWhereContents(s[..|s| - 1], drop);
      assert s == s[..|s| - 1] + [s[|s| - 1]];
      forall x | x in s && !drop(x)
        ensures x in RemoveWhere(s, drop)
      {
        if x != s[|s| - 1] {
          assert x in s[..|s| - 1];
        }
      }
    }
  }

  /** The removal keeps the survivors' order: removing from two halves is removing from each. */
  lemma {:induction false} RemoveWhereConcat<T>(a: seq<T>, b: seq<T>, drop: T -> bool)
    ensures RemoveWhere(a + b, drop) == RemoveWhere(a, drop) + RemoveWhere(b, drop)
    decreases |b|
  {
    if b == [] {
      assert a + b == a;
    } else {
      var b' := b[..|b| - 1];
      assert (a + b)[..|a + b| - 1] == a + b';
      RemoveWhereConcat(a, b', drop);
    }
  }

  /** Nothing is removed when no element is dropped. */
  lemma {:induction false} RemoveWhereNothing<T>(s: seq<T>, drop: T -> bool)
    requires forall i :: 0 <= i < |s| ==> !drop(s[i])
    ensures RemoveWhere(s, drop) == s
  {
    if s != [] {
      RemoveWhereNothing(s[..|s| - 1], drop);
    }
  }
}
