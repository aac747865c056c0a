// The default game loop: the comparators that order systems within a
// pipeline, the dispatch from a tick type to the pipeline it runs, and the
// list of tick types the loop serves.

module DefaultGameLoop {
  import opened TickTypes

  const U64Limit: int := 0x1_0000_0000_0000_0000

  predicate IsEntity(e: int) { 0 <= e < U64Limit }

  /** `flecs_entity_compare`: `(e1 > e2) - (e1 < e2)`. */
  function EntityCompare(e1: int, e2: int): (r: int)
    requires IsEntity(e1) && IsEntity(e2)
    ensures r == 0 || r == 1 || r == -1
    ensures r == 0 <==> e1 == e2
    ensures r < 0 <==> e1 < e2
  {
    (if e1 > e2 then 1 else 0) - (if e1 < e2 then 1 else 0)
  }

  /** A system in a pipeline: its entity and its `SystemPriority` value. */
  datatype Prioritised = Prioritised(entity: int, priority: int)

  predicate ValidSystem(s: Prioritised) { IsEntity(s.entity) }

  /**
   * `flecs_priority_compare`: a lower priority value sorts first, and equal
   * priorities fall back to the entity comparator.
   */
  function PriorityCompare(a: Prioritised, b: Prioritised): (r: int)
    requires ValidSystem(a) && ValidSystem(b)
    ensures r == 0 || r == 1 || r == -1
    ensures r == 0 <==> a == b
    ensures r < 0 <==> a.priority < b.priority || (a.priority == b.priority && a.entity < b.entity)
  {
    if a.priority == b.priority then EntityCompare(a.entity, b.entity)
    else if a.priority >= b.priority then 1 else -1
  }

  /** The priority comparator is a total order: antisymmetric and transitive. */
  lemma PriorityCompareTotalOrder(a: Prioritised, b: Prioritised, c: Prioritised)
    requires ValidSystem(a) && ValidSystem(b) && ValidSystem(c)
    ensures PriorityCompare(a, b) == -PriorityCompare(b, a)
    ensures PriorityCompare(a, b) < 0 && PriorityCompare(b, c) < 0 ==> PriorityCompare(a, c) < 0
    ensures PriorityCompare(a, b) <= 0 && PriorityCompare(b, c) <= 0 ==> PriorityCompare(a, c) <= 0
  {
  }

  /** The four pipelines the loop builds besides the world's main pipeline. */
  datatype Pipeline = PrePhysicsPipeline | DuringPhysicsPipeline | PostPhysicsPipeline | PostUpdateWorkPipeline

  /**
   * Which world a call goes to: the game loop's own `World` member, or the
   * world passed to `Progress`.
   */
  datatype WorldRef = OwnWorld | ArgumentWorld

  /** The calls `Progress` makes on a world. */
  datatype WorldCall =
    | WorldProgress(dt: real)
    | RunPipeline(target: WorldRef, pipeline: Pipeline, dt: real)

  /**
   * The calls `Progress` makes for a tick type. The PrePhysics branch runs
   * its pipeline on the loop's own world; the others use the argument.
   */
  function ProgressCalls(tag: GameplayTag, dt: real): seq<WorldCall>
  {
    if tag == MainLoop then [WorldProgress(dt)]
    else if tag == PrePhysics then [RunPipeline(OwnWorld, PrePhysicsPipeline, dt)]
    else if tag == DuringPhysics then [RunPipeline(ArgumentWorld, DuringPhysicsPipeline, dt)]
    else if tag == PostPhysics then [RunPipeline(ArgumentWorld, PostPhysicsPipeline, dt)]
    else if tag == PostUpdateWork then [RunPipeline(ArgumentWorld, PostUpdateWorkPipeline, dt)]
    else []
  }

  /** The pipeline each non-main tick type owns. */
  function PipelineOf(tag: GameplayTag): Pipeline
    requires IsKnownTickType(tag) && tag != MainLoop
  {
    if tag == PrePhysics then PrePhysicsPipeline
    else if tag == DuringPhysics then DuringPhysicsPipeline
    else if tag == PostPhysics then PostPhysicsPipeline
    else PostUpdateWorkPipeline
  }

  /**
   * A known tick type makes exactly one call: the main loop progresses the
   * world, every other tick type runs exactly its own pipeline with the
   * given delta; an unknown tag makes none.
   */
  lemma ProgressRunsOwnPipeline(tag: GameplayTag, dt: real)
    ensures |ProgressCalls(tag, dt)| == (if IsKnownTickType(tag) then 1 else 0)
    ensures tag == MainLoop ==> ProgressCalls(tag, dt) == [WorldProgress(dt)]
    ensures IsKnownTickType(tag) && tag != MainLoop ==>
              ProgressCalls(tag, dt)[0].RunPipeline? &&
              ProgressCalls(tag, dt)[0].pipeline == PipelineOf(tag) &&
              ProgressCalls(tag, dt)[0].dt == dt
    ensures forall t1, t2 ::
              (IsKnownTickType(t1) && IsKnownTickType(t2) && t1 != MainLoop && t2 != MainLoop &&
               PipelineOf(t1) == PipelineOf(t2)) ==> t1 == t2
  {
  }

  /** `GetTickTypeTags`: the five tick types, main loop first. */
  function GetTickTypeTags(): (r: seq<GameplayTag>)
    ensures |r| == 5 && r[0] == MainLoop
    ensures forall t :: t in r <==> IsKnownTickType(t)
    ensures forall i, j :: 0 <= i < j < |r| ==> r[i] != r[j]
  {
    [MainLoop, PrePhysics, DuringPhysics, PostPhysics, PostUpdateWork]
  }

  /** `UDefaultGameLoop`: the pipelines it runs are recorded as calls on the worlds. */
  class GameLoop {
    var calls: seq<WorldCall>

    constructor()
      ensures calls == []
    {
      calls := [];
    }

    /** `IsMainLoop`: the default loop always drives the main loop. */
    function IsMainLoop(): (r: bool)
      ensures r
    {
      true
    }

    /**
     * `Progress(dt, tag, world)`. `worldProgress` stands for the value the
     * world's own `Progress` returns. The main loop returns it; the other
     * known tick types return true; an unknown tag returns false.
     */
    method Progress(dt: real, tag: GameplayTag, worldProgress: bool) returns (ok: bool)
      modifies this
      ensures calls == old(calls) + ProgressCalls(tag, dt)
      ensures ok == (if tag == MainLoop then worldProgress else IsKnownTickType(tag))
    {
      if tag == MainLoop {
        calls := calls + [WorldProgress(dt)];
        return worldProgress;
      } else if tag == PrePhysics {
        calls := calls + [RunPipeline(OwnWorld, PrePhysicsPipeline, dt)];
      } else if tag == DuringPhysics {
        calls := calls + [RunPipeline(ArgumentWorld, DuringPhysicsPipeline, dt)];
      } else if tag == PostPhysics {
        calls := calls + [RunPipeline(ArgumentWorld, PostPhysicsPipeline, dt)];
      } else if tag == PostUpdateWork {
        calls := calls + [RunPipeline(ArgumentWorld, PostUpdateWorkPipeline, dt)];
      } else {
        return false;
      }
      return true;
    }
  }
}
