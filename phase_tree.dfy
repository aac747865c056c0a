// The game-loop phase tree: nodes naming a phase by gameplay tag with child
// nodes below them, their recursive creation as phase entities that depend
// on their parent phase, and their editor validation. The tree hangs its
// roots under the eight default Flecs phases, or under nothing for the
// additional roots.

module PhaseTree {
  import opened Wrappers
  import opened DataValidation
  import opened DefaultPhases

  /** A gameplay tag, by its dotted name; the empty name is the invalid tag. */
  type GameplayTag = string

  predicate TagIsValid(t: GameplayTag) { t != "" }

  /** `FFlecsGameLoopPhaseNode`. */
  datatype PhaseNode = PhaseNode(tag: GameplayTag, children: seq<ChildPhase>)

  /** `TInstancedStruct<FFlecsGameLoopPhaseNode>`: empty, or holding a node. */
  datatype ChildPhase = EmptyChild | ChildPhase(node: PhaseNode)

  /** What a new phase may depend on: the null id, a builtin Flecs phase, or an entity created here. */
  datatype PhaseRef = NullId | BuiltinPhase(phase: FlecsPhase) | CreatedPhase(id: nat)
  {
    predicate IsValid() { !NullId? }
  }

  /**
   * A phase entity the world was asked to create: named after its tag, with
   * the `Phase` tag, the phase marker and the gameplay tag, and a `DependsOn`
   * pair when it has a parent.
   */
  datatype PhaseEntity = PhaseEntity(id: nat, tag: GameplayTag, dependsOn: Option<PhaseRef>)

  // ---- Validation ---------------------------------------------------------------

  /** Every tag in the subtree is valid and no child slot is empty. */
  predicate NodeValid(node: PhaseNode)
    decreases node, |node.children| + 1
  {
    TagIsValid(node.tag) && ChildrenValidFrom(node, 0)
  }

  /** The child slots of `node` from index `i` on hold valid nodes. */
  predicate ChildrenValidFrom(node: PhaseNode, i: nat)
    decreases node, |node.children| - i
  {
    i < |node.children| ==>
      node.children[i].ChildPhase? && NodeValid(node.children[i].node) && ChildrenValidFrom(node, i + 1)
  }

  /** The errors a node's validation reports. */
  datatype PhaseError = EmptyPhaseName | InvalidChildPhase(parent: GameplayTag)

  /**
   * A node with an invalid tag reports only that; otherwise each child slot in
   * turn reports an empty slot or its own errors.
   */
  function NodeErrors(node: PhaseNode): seq<PhaseError>
    decreases node, |node.children| + 1
  {
    if !TagIsValid(node.tag) then [EmptyPhaseName] else ChildErrorsFrom(node, 0)
  }

  /** The errors of the child slots of `node` from index `i` on. */
  function ChildErrorsFrom(node: PhaseNode, i: nat): seq<PhaseError>
    decreases node, |node.children| - i
  {
    if i >= |node.children| then []
    else
      (match node.children[i]
       case EmptyChild => [InvalidChildPhase(node.tag)]
       case ChildPhase(n) => NodeErrors(n))
      + ChildErrorsFrom(node, i + 1)
  }

  /** A node's validation reports nothing exactly when the node is valid throughout. */
  lemma {:induction false} NodeErrorsEmpty(node: PhaseNode)
    ensures NodeErrors(node) == [] <==> NodeValid(node)
    decreases node, |node.children| + 1
  {
    if TagIsValid(node.tag) {
      ChildErrorsEmpty(node, 0);
    }
  }

  lemma {:induction false} ChildErrorsEmpty(node: PhaseNode, i: nat)
    ensures ChildErrorsFrom(node, i) == [] <==> ChildrenValidFrom(node, i)
    decreases node, |node.children| - i
  {
    if i < |node.children| {
      ChildErrorsEmpty(node, i + 1);
      if node.children[i].ChildPhase? {
        NodeErrorsEmpty(node.children[i].node);
      }
    }
  }

  /**
   * `FFlecsGameLoopPhaseNode::IsDataValid`: Valid or Invalid, never
   * unvalidated; an invalid tag returns before any child is visited, and an
   * empty child slot does not stop the scan of its siblings.
   */
  method NodeIsDataValid(node: PhaseNode) returns (result: ValidationResult, errors: seq<PhaseError>)
    ensures errors == NodeErrors(node)
    ensures result == (if errors == [] then Valid else Invalid)
    decreases node
  {
    if !TagIsValid(node.tag) {
      return Invalid, [EmptyPhaseName];
    }
    result := Valid;
    errors := [];
    var i := 0;
    while i < |node.children|
      invariant 0 <= i <= |node.children|
      invariant errors + ChildErrorsFrom(node, i) == ChildErrorsFrom(node, 0)
      invariant result == (if errors == [] then Valid else Invalid)
    {
      ghost var slot := match node.children[i] case EmptyChild => [InvalidChildPhase(node.tag)] case ChildPhase(n) => NodeErrors(n);
      assert ChildErrorsFrom(node, i) == slot + ChildErrorsFrom(node, i + 1);
      Regroup(errors, slot, ChildErrorsFrom(node, i + 1));
      if node.children[i].EmptyChild? {
        result := Invalid;
        errors := errors + [InvalidChildPhase(node.tag)];
      } else {
        var childResult, childErrors := NodeIsDataValid(node.children[i].node);
        if childResult == Invalid {
          result := Invalid;
        }
        errors := errors + childErrors;
      }
      i := i + 1;
    }
  }

  // ---- Creation -----------------------------------------------------------------

  /** The parent a new phase records: none for the null id. */
  function DependsOn(parent: PhaseRef): (r: Option<PhaseRef>)
    ensures r.Some? <==> parent.IsValid()
    ensures r.Some? ==> r.value == parent
  {
    if parent.IsValid() then Some(parent) else None
  }

  /** The entity depends on a phase created here, with an id in `lo..hi-1` or equal to `parentId`. */
  predicate DependsWithin(e: PhaseEntity, parentId: nat, lo: nat, hi: nat)
  {
    e.dependsOn.Some? && e.dependsOn.value.CreatedPhase?
    && (e.dependsOn.value.id == parentId || lo <= e.dependsOn.value.id < hi)
  }

  /**
   * The entities `CreatePhasesRecursively` creates when `base` entities
   * already exist: the node first, then each child's subtree with the node's
   * entity as parent (pre-order). Fresh ids are modelled as creation order.
   */
  function Created(node: PhaseNode, parent: PhaseRef, base: nat): (r: seq<PhaseEntity>)
    requires NodeValid(node)
    ensures |r| >= 1 && r[0] == PhaseEntity(base + 1, node.tag, DependsOn(parent))
    decreases node, |node.children| + 1
  {
    [PhaseEntity(base + 1, node.tag, DependsOn(parent))] + ChildrenCreated(node, 0, base + 1, base + 1)
  }

  /** The subtrees of the child slots of `node` from index `i` on, under the entity `parentId`. */
  function ChildrenCreated(node: PhaseNode, i: nat, parentId: nat, base: nat): seq<PhaseEntity>
    requires ChildrenValidFrom(node, i)
    decreases node, |node.children| - i
  {
    if i >= |node.children| then []
    else
      var first := Created(node.children[i].node, CreatedPhase(parentId), base);
      first + ChildrenCreated(node, i + 1, parentId, base + |first|)
  }

  /** The entities of `r` take the consecutive ids after `base`. */
  predicate IdsFrom(r: seq<PhaseEntity>, base: nat)
  {
    forall k :: 0 <= k < |r| ==> r[k].id == base + 1 + k
  }

  /**
   * Every entity of `r`, whose ids start after `base`, depends on `parentId`
   * or on an entity created from `lo` on and before itself.
   */
  predicate DependsBefore(r: seq<PhaseEntity>, parentId: nat, lo: nat, base: nat)
  {
    forall k :: 0 <= k < |r| ==> DependsWithin(r[k], parentId, lo, base + 1 + k)
  }

  lemma ConcatInOrder(a: seq<PhaseEntity>, b: seq<PhaseEntity>, parentId: nat, lo: nat, base: nat)
    requires IdsFrom(a, base) && IdsFrom(b, base + |a|)
    requires DependsBefore(a, parentId, lo, base) && DependsBefore(b, parentId, lo, base + |a|)
    ensures IdsFrom(a + b, base) && DependsBefore(a + b, parentId, lo, base)
  {
    forall k | |a| <= k < |a + b|
      ensures (a + b)[k] == b[k - |a|]
    {
    }
  }

  /** A parent inside the batch, created before every entity of `r`, is one of the batch's earlier entities. */
  lemma ParentInBatch(r: seq<PhaseEntity>, p: nat, q: nat, lo: nat, base: nat)
    requires lo <= p <= base && DependsBefore(r, p, lo, base)
    ensures DependsBefore(r, q, lo, base)
  {
  }

  /**
   * The created phases take consecutive ids after `base`; the root depends on
   * the given parent when it is valid, and every phase below the root depends
   * on the root or on a phase created after it and before itself.
   */
  lemma {:induction false} CreatedInOrder(node: PhaseNode, parent: PhaseRef, base: nat)
    requires NodeValid(node)
    ensures IdsFrom(Created(node, parent, base), base)
    ensures Created(node, parent, base)[0].dependsOn.Some? <==> parent.IsValid()
    ensures DependsBefore(Created(node, parent, base)[1..], base + 1, base + 1, base + 1)
    decreases node, |node.children| + 1
  {
    var c := ChildrenCreated(node, 0, base + 1, base + 1);
    ChildrenInOrder(node, 0, base + 1, base + 1);
    var r := Created(node, parent, base);
    assert r[1..] == c;
    forall k | 1 <= k < |r|
      ensures r[k].id == base + 1 + k
    {
      assert r[k] == c[k - 1];
    }
  }

  lemma {:induction false} ChildrenInOrder(node: PhaseNode, i: nat, parentId: nat, base: nat)
    requires ChildrenValidFrom(node, i) && parentId <= base
    ensures IdsFrom(ChildrenCreated(node, i, parentId, base), base)
    ensures DependsBefore(ChildrenCreated(node, i, parentId, base), parentId, base + 1, base)
    decreases node, |node.children| - i
  {
    if i < |node.children| {
      var first := Created(node.children[i].node, CreatedPhase(parentId), base);
      var rest := ChildrenCreated(node, i + 1, parentId, base + |first|);
      assert ChildrenCreated(node, i, parentId, base) == first + rest;
      ChildInOrder(node.children[i].node, parentId, base);
      ChildrenInOrder(node, i + 1, parentId, base + |first|);
      ConcatInOrder(first, rest, parentId, base + 1, base);
    }
  }

  /** One child's subtree, under the created entity `parentId`, in creation order. */
  lemma {:induction false} ChildInOrder(child: PhaseNode, parentId: nat, base: nat)
    requires NodeValid(child) && parentId <= base
    ensures var first := Created(child, CreatedPhase(parentId), base);
      IdsFrom(first, base) && DependsBefore(first, parentId, base + 1, base)
    decreases child, |child.children| + 2
  {
    var first := Created(child, CreatedPhase(parentId), base);
    CreatedInOrder(child, CreatedPhase(parentId), base);
    assert first == first[..1] + first[1..];
    assert DependsBefore(first[..1], parentId, base + 1, base);
    ParentInBatch(first[1..], base + 1, parentId, base + 1, base + 1);
    ConcatInOrder(first[..1], first[1..], parentId, base + 1, base);
  }

  /** The world's phase entities, in creation order. */
  class PhaseWorld {
    var entities: seq<PhaseEntity>

    constructor()
      ensures entities == []
    {
      entities := [];
    }

    /** Create one phase entity; its id is the next in creation order. */
    method CreatePhaseEntity(tag: GameplayTag, parent: PhaseRef) returns (id: nat)
      modifies this
      ensures id == |old(entities)| + 1
      ensures entities == old(entities) + [PhaseEntity(id, tag, DependsOn(parent))]
    {
      id := |entities| + 1;
      entities := entities + [PhaseEntity(id, tag, DependsOn(parent))];
    }

    /**
     * `CreatePhasesRecursively`: the node's tag and every child slot below it
     * must be valid; the node's subtree is created in pre-order.
     */
    method CreatePhasesRecursively(node: PhaseNode, parent: PhaseRef)
      requires NodeValid(node)
      modifies this
      ensures entities == old(entities) + Created(node, parent, |old(entities)|)
      decreases node, 1
    {
      var id := CreatePhaseEntity(node.tag, parent);
      ghost var made := entities;
      ghost var done: seq<PhaseEntity> := [];
      var i := 0;
      while i < |node.children|
        invariant 0 <= i <= |node.children|
        invariant ChildrenValidFrom(node, i)
        invariant entities == made + done
        invariant done + ChildrenCreated(node, i, id, id + |done|) == ChildrenCreated(node, 0, id, id)
      {
        assert NodeValid(node.children[i].node);
        CreatePhasesRecursively(node.children[i].node, CreatedPhase(id));
        ChildStep(node, i, id, done, made, entities);
        done := done + Created(node.children[i].node, CreatedPhase(id), id + |done|);
        i := i + 1;
      }
      Regroup(old(entities), [PhaseEntity(id, node.tag, DependsOn(parent))], done);
    }
  }

  // ---- The tree -----------------------------------------------------------------

  /** `FFlecsGameLoopPhaseTreeEntry`. */
  datatype TreeEntry = TreeEntry(phases: seq<PhaseNode>)

  /**
   * `FFlecsGameLoopPhaseTree`: the default-phase map, as the list of its
   * entries in iteration order, and the additional roots.
   */
  datatype PhaseTreeData = PhaseTreeData(defaultPhases: seq<(DefaultPipelinePhase, TreeEntry)>, additionalPhases: seq<PhaseNode>)

  /** The tree's constructor: an empty entry for each of the eight default phases, OnLoad to OnStore. */
  function NewPhaseTree(): (r: PhaseTreeData)
    ensures |r.defaultPhases| == 8 && r.additionalPhases == []
    ensures forall i :: 0 <= i < 8 ==> r.defaultPhases[i].1 == TreeEntry([])
    ensures forall i :: 0 <= i < 8 ==> FromOrdinal(i) == Some(r.defaultPhases[i].0)
    ensures forall i :: 0 <= i < 8 ==> r.defaultPhases[i].0 != OnStart
  {
    PhaseTreeData([(OnLoad, TreeEntry([])), (PostLoad, TreeEntry([])), (PreUpdate, TreeEntry([])),
                   (OnUpdate, TreeEntry([])), (OnValidate, TreeEntry([])), (PostUpdate, TreeEntry([])),
                   (PreStore, TreeEntry([])), (OnStore, TreeEntry([]))], [])
  }

  /** The errors of the roots of one entry, in order. */
  function RootErrors(roots: seq<PhaseNode>): seq<PhaseError>
  {
    if roots == [] then [] else NodeErrors(roots[0]) + RootErrors(roots[1..])
  }

  /** Concatenation regroups freely. */
  lemma Regroup<T>(a: seq<T>, b: seq<T>, c: seq<T>)
    ensures (a + b) + c == a + (b + c)
  {
  }

  /** Unfolding `RootErrors` at position `j` of a list of roots. */
  lemma RootErrorsAt(roots: seq<PhaseNode>, j: nat)
    requires j < |roots|
    ensures RootErrors(roots[j..]) == NodeErrors(roots[j]) + RootErrors(roots[j + 1..])
  {
    assert roots[j..][1..] == roots[j + 1..];
    assert roots[j..][0] == roots[j];
  }

  /** Unfolding `TreeErrors` at position `i` of the entries. */
  lemma TreeErrorsAt(entries: seq<(DefaultPipelinePhase, TreeEntry)>, i: nat)
    requires i < |entries|
    ensures TreeErrors(entries[i..]) == RootErrors(entries[i].1.phases) + TreeErrors(entries[i + 1..])
  {
    assert entries[i..][1..] == entries[i + 1..];
    assert entries[i..][0] == entries[i];
  }

  /** The errors the tree's validation reports: those of the default-phase roots only. */
  function TreeErrors(entries: seq<(DefaultPipelinePhase, TreeEntry)>): seq<PhaseError>
  {
    if entries == [] then [] else RootErrors(entries[0].1.phases) + TreeErrors(entries[1..])
  }

  predicate RootsValid(roots: seq<PhaseNode>)
  {
    forall i :: 0 <= i < |roots| ==> NodeValid(roots[i])
  }

  predicate DefaultRootsValid(entries: seq<(DefaultPipelinePhase, TreeEntry)>)
  {
    forall i :: 0 <= i < |entries| ==> RootsValid(entries[i].1.phases)
  }

  lemma {:induction false} RootErrorsEmpty(roots: seq<PhaseNode>)
    ensures RootErrors(roots) == [] <==> RootsValid(roots)
  {
    if roots != [] {
      NodeErrorsEmpty(roots[0]);
      RootErrorsEmpty(roots[1..]);
      assert forall i :: 1 <= i < |roots| ==> roots[1..][i - 1] == roots[i];
    }
  }

  /**
   * The tree validates (reports nothing) exactly when every default-phase
   * root is valid throughout; additional roots play no part.
   */
  lemma {:induction false} TreeErrorsEmpty(entries: seq<(DefaultPipelinePhase, TreeEntry)>)
    ensures TreeErrors(entries) == [] <==> DefaultRootsValid(entries)
  {
    if entries != [] {
      RootErrorsEmpty(entries[0].1.phases);
      TreeErrorsEmpty(entries[1..]);
      assert forall i :: 1 <= i < |entries| ==> entries[1..][i - 1] == entries[i];
    }
  }

  /** `FFlecsGameLoopPhaseTree::IsDataValid`: Invalid exactly when some default-phase root reports an error. */
  method TreeIsDataValid(tree: PhaseTreeData) returns (result: ValidationResult, errors: seq<PhaseError>)
    ensures errors == TreeErrors(tree.defaultPhases)
    ensures result == (if errors == [] then Valid else Invalid)
  {
    result := Valid;
    errors := [];
    var entries := tree.defaultPhases;
    assert entries[0..] == entries;
    var i := 0;
    while i < |entries|
      invariant 0 <= i <= |entries|
      invariant errors + TreeErrors(entries[i..]) == TreeErrors(entries)
      invariant result == (if errors == [] then Valid else Invalid)
    {
      TreeErrorsAt(entries, i);
      ghost var tail := TreeErrors(entries[i + 1..]);
      var roots := entries[i].1.phases;
      Regroup(errors, RootErrors(roots), tail);
      assert roots[0..] == roots;
      var j := 0;
      while j < |roots|
        invariant 0 <= j <= |roots|
        invariant (errors + RootErrors(roots[j..])) + tail == TreeErrors(entries)
        invariant result == (if errors == [] then Valid else Invalid)
      {
        RootErrorsAt(roots, j);
        ghost var later := RootErrors(roots[j + 1..]);
        Regroup(errors, NodeErrors(roots[j]), later);
        if !TagIsValid(roots[j].tag) {
          result := Invalid;
          errors := errors + [EmptyPhaseName];
        } else {
          var childResult, childErrors := NodeIsDataValid(roots[j]);
          result := Combine(result, childResult);
          errors := errors + childErrors;
        }
        j := j + 1;
      }
      assert roots[j..] == [];
      assert errors + RootErrors(roots[j..]) == errors;
      i := i + 1;
    }
    assert entries[i..] == [];
  }

  /** The parent the roots of a default-phase entry hang under. */
  function EntryParent(p: DefaultPipelinePhase): (r: PhaseRef)
    ensures r.IsValid() && r == BuiltinPhase(Namesake(p))
  {
    match ConvertToFlecsId(Ordinal(p))
    case Some(f) => BuiltinPhase(f)
    case None => NullId
  }

  /** The entities creating the first `k` roots under one parent adds, in order. */
  function RootsCreated(roots: seq<PhaseNode>, k: nat, parent: PhaseRef, base: nat): seq<PhaseEntity>
    requires RootsValid(roots) && k <= |roots|
  {
    if k == 0 then []
    else
      var prev := RootsCreated(roots, k - 1, parent, base);
      prev + Created(roots[k - 1], parent, base + |prev|)
  }

  /** The entities created for the first `k` default-phase entries, each entry's roots under its Flecs phase. */
  function EntriesCreated(entries: seq<(DefaultPipelinePhase, TreeEntry)>, k: nat, base: nat): seq<PhaseEntity>
    requires DefaultRootsValid(entries) && k <= |entries|
  {
    if k == 0 then []
    else
      var prev := EntriesCreated(entries, k - 1, base);
      var roots := entries[k - 1].1.phases;
      prev + RootsCreated(roots, |roots|, EntryParent(entries[k - 1].0), base + |prev|)
  }

  /** `ChildrenCreated` at a slot inside the list: one child's subtree, then the rest. */
  lemma ChildrenUnfold(node: PhaseNode, i: nat, parentId: nat, base: nat)
    requires ChildrenValidFrom(node, i) && i < |node.children|
    ensures var first := Created(node.children[i].node, CreatedPhase(parentId), base);
      ChildrenCreated(node, i, parentId, base) == first + ChildrenCreated(node, i + 1, parentId, base + |first|)
  {
  }

  /**
   * One pass of the loop over a node's child slots: after creating child `i`
   * the world holds the old entities followed by one more subtree.
   */
  lemma ChildStep(node: PhaseNode, i: nat, id: nat, done: seq<PhaseEntity>,
                  made: seq<PhaseEntity>, after: seq<PhaseEntity>)
    requires ChildrenValidFrom(node, 0) && ChildrenValidFrom(node, i) && i < |node.children| && |made| == id
    requires done + ChildrenCreated(node, i, id, id + |done|) == ChildrenCreated(node, 0, id, id)
    requires after == (made + done) + Created(node.children[i].node, CreatedPhase(id), |made + done|)
    ensures ChildrenValidFrom(node, i + 1)
    ensures var first := Created(node.children[i].node, CreatedPhase(id), id + |done|);
      && after == made + (done + first)
      && (done + first) + ChildrenCreated(node, i + 1, id, id + |done| + |first|) == ChildrenCreated(node, 0, id, id)
  {
    var first := Created(node.children[i].node, CreatedPhase(id), id + |done|);
    var rest := ChildrenCreated(node, i + 1, id, id + |done| + |first|);
    assert |made + done| == id + |done|;
    assert after == (made + done) + first;
    ChildrenUnfold(node, i, id, id + |done|);
    Regroup(done, first, rest);
    Regroup(made, done, first);
  }

  /** Creating entry `i`'s roots after the first `i` entries' entities gives the first `i + 1` entries' entities. */
  lemma EntriesAdvance(entries: seq<(DefaultPipelinePhase, TreeEntry)>, i: nat, initial: seq<PhaseEntity>, after: seq<PhaseEntity>)
    requires DefaultRootsValid(entries) && i < |entries|
    requires var before := initial + EntriesCreated(entries, i, |initial|);
      after == before + RootsCreated(entries[i].1.phases, |entries[i].1.phases|, EntryParent(entries[i].0), |before|)
    ensures after == initial + EntriesCreated(entries, i + 1, |initial|)
  {
    var prev := EntriesCreated(entries, i, |initial|);
    Regroup(initial, prev, RootsCreated(entries[i].1.phases, |entries[i].1.phases|, EntryParent(entries[i].0), |initial| + |prev|));
  }

  /** Creating root `j` after the first `j` roots' entities gives the first `j + 1` roots' entities. */
  lemma RootsAdvance(roots: seq<PhaseNode>, j: nat, parent: PhaseRef, initial: seq<PhaseEntity>, after: seq<PhaseEntity>)
    requires RootsValid(roots) && j < |roots|
    requires var before := initial + RootsCreated(roots, j, parent, |initial|);
      after == before + Created(roots[j], parent, |before|)
    ensures after == initial + RootsCreated(roots, j + 1, parent, |initial|)
  {
    var prev := RootsCreated(roots, j, parent, |initial|);
    Regroup(initial, prev, Created(roots[j], parent, |initial| + |prev|));
  }

  /**
   * `CreatePhasesFromTree`: the default-phase roots under their Flecs phase,
   * then the additional roots with no parent.
   */
  method CreatePhasesFromTree(world: PhaseWorld, tree: PhaseTreeData)
    requires DefaultRootsValid(tree.defaultPhases) && RootsValid(tree.additionalPhases)
    modifies world
    ensures var entries := EntriesCreated(tree.defaultPhases, |tree.defaultPhases|, |old(world.entities)|);
      world.entities == old(world.entities) + entries
        + RootsCreated(tree.additionalPhases, |tree.additionalPhases|, NullId, |old(world.entities)| + |entries|)
  {
    CreateDefaultRoots(world, tree.defaultPhases);
    CreateRoots(world, tree.additionalPhases, NullId);
  }

  /** The loop over the default-phase entries, each entry's roots under its Flecs phase. */
  method CreateDefaultRoots(world: PhaseWorld, entries: seq<(DefaultPipelinePhase, TreeEntry)>)
    requires DefaultRootsValid(entries)
    modifies world
    ensures world.entities == old(world.entities) + EntriesCreated(entries, |entries|, |old(world.entities)|)
  {
    ghost var initial := world.entities;
    var i := 0;
    while i < |entries|
      invariant 0 <= i <= |entries|
      invariant world.entities == initial + EntriesCreated(entries, i, |initial|)
    {
      CreateRoots(world, entries[i].1.phases, EntryParent(entries[i].0));
      EntriesAdvance(entries, i, initial, world.entities);
      i := i + 1;
    }
  }

  method CreateRoots(world: PhaseWorld, roots: seq<PhaseNode>, parent: PhaseRef)
    requires RootsValid(roots)
    modifies world
    ensures world.entities == old(world.entities) + RootsCreated(roots, |roots|, parent, |old(world.entities)|)
  {
    ghost var initial := world.entities;
    var j := 0;
    while j < |roots|
      invariant 0 <= j <= |roots|
      invariant world.entities == initial + RootsCreated(roots, j, parent, |initial|)
    {
      world.CreatePhasesRecursively(roots[j], parent);
      RootsAdvance(roots, j, parent, initial, world.entities);
      j := j + 1;
    }
  }

  /** A tree that validates meets creation's checks on its default-phase roots. */
  lemma ValidTreeIsCreatable(tree: PhaseTreeData)
    requires TreeErrors(tree.defaultPhases) == []
    ensures DefaultRootsValid(tree.defaultPhases)
  {
    TreeErrorsEmpty(tree.defaultPhases);
  }
}
