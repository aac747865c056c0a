// Default tick-function settings for each tick type, the tick function
// built from a settings entry, and the five settings a world starts with.

module WorldInfoSettings {
  import opened TickTypes
  import opened TickingGroups
  import DefaultGameLoop

  /** `FFlecsTickFunctionSettingsInfo`. */
  datatype TickFunctionSettings = TickFunctionSettings(
    name: string,
    tickType: GameplayTag,
    tickGroup: EngineTickingGroup,
    endTickGroup: EngineTickingGroup,
    startWithTickEnabled: bool,
    allowTickOnDedicatedServer: bool,
    tickEvenWhenPaused: bool,
    tickInterval: real,
    highPriority: bool,
    allowTickBatching: bool,
    runTransactionally: bool,
    prerequisites: seq<GameplayTag>)

  /** The member initialisers of a default-constructed settings entry. */
  const DefaultSettings := TickFunctionSettings(
    "", "", TG_PrePhysics, TG_PrePhysics, true, true, false, 0.0, true, false, true, [])

  /** The name and the two groups a tick type gets by default; an unknown one falls back to PrePhysics. */
  function NameAndGroups(tag: GameplayTag): (string, EngineTickingGroup, EngineTickingGroup)
  {
    if tag == MainLoop then ("MainLoopTickFunction", TG_PrePhysics, TG_PrePhysics)
    else if tag == PrePhysics then ("PrePhysicsTickFunction", TG_PrePhysics, TG_PrePhysics)
    else if tag == DuringPhysics then ("DuringPhysicsTickFunction", TG_DuringPhysics, TG_DuringPhysics)
    else if tag == PostPhysics then ("PostPhysicsTickFunction", TG_PostPhysics, TG_PostPhysics)
    else if tag == PostUpdateWork then ("PostUpdateWorkTickFunction", TG_PostUpdateWork, TG_LastDemotable)
    else ("PrePhysicsTickFunction", TG_PrePhysics, TG_PrePhysics)
  }

  /** `GetTickFunctionSettingsDefault(tag)`. */
  function GetTickFunctionSettingsDefault(tag: GameplayTag): (s: TickFunctionSettings)
    ensures s.tickType == tag && s.startWithTickEnabled && s.allowTickOnDedicatedServer && s.tickInterval == 0.0
    ensures s.highPriority && !s.allowTickBatching && s.runTransactionally
  {
    var (name, group, endGroup) := NameAndGroups(tag);
    DefaultSettings.(
      name := name, tickType := tag, tickGroup := group, endTickGroup := endGroup,
      tickEvenWhenPaused := tag == MainLoop,
      prerequisites := if tag == PrePhysics then [MainLoop] else [])
  }

  /**
   * Only the main loop ticks while paused; only PrePhysics has a
   * prerequisite, the main loop; PostUpdateWork runs from TG_PostUpdateWork
   * to TG_LastDemotable; an unknown tag gets the PrePhysics settings under
   * its own tag.
   */
  lemma DefaultSettingsRules(tag: GameplayTag)
    ensures GetTickFunctionSettingsDefault(tag).tickEvenWhenPaused <==> tag == MainLoop
    ensures GetTickFunctionSettingsDefault(tag).prerequisites != [] <==> tag == PrePhysics
    ensures tag == PrePhysics ==> GetTickFunctionSettingsDefault(tag).prerequisites == [MainLoop]
    ensures tag == MainLoop ==>
              GetTickFunctionSettingsDefault(tag).tickGroup == TG_PrePhysics &&
              GetTickFunctionSettingsDefault(tag).endTickGroup == TG_PrePhysics
    ensures tag == PostUpdateWork ==>
              GetTickFunctionSettingsDefault(tag).tickGroup == TG_PostUpdateWork &&
              GetTickFunctionSettingsDefault(tag).endTickGroup == TG_LastDemotable
    ensures !IsKnownTickType(tag) ==>
              GetTickFunctionSettingsDefault(tag) == GetTickFunctionSettingsDefault(PrePhysics).(tickType := tag, prerequisites := [])
  {
  }

  /** Every tick type's default groups are ones the plugin can convert, except the end of PostUpdateWork. */
  lemma DefaultGroupsConvertible(tag: GameplayTag)
    ensures IsConvertible(GetTickFunctionSettingsDefault(tag).tickGroup)
    ensures tag != PostUpdateWork ==> IsConvertible(GetTickFunctionSettingsDefault(tag).endTickGroup)
  {
  }

  /** The fields of `FFlecsTickFunction` that are filled from a settings entry. */
  datatype TickFunction = TickFunction(
    tickType: GameplayTag,
    tickGroup: EngineTickingGroup,
    endTickGroup: EngineTickingGroup,
    startWithTickEnabled: bool,
    allowTickOnDedicatedServer: bool,
    tickEvenWhenPaused: bool,
    tickInterval: real,
    highPriority: bool,
    allowTickBatching: bool,
    runTransactionally: bool,
    canEverTick: bool)

  /** `CreateTickFunctionInstance`: copies the scheduling fields and marks the function tickable. */
  function CreateTickFunctionInstance(s: TickFunctionSettings): (f: TickFunction)
    ensures f.canEverTick
    ensures f.tickType == s.tickType && f.tickGroup == s.tickGroup && f.endTickGroup == s.endTickGroup
    ensures f.startWithTickEnabled == s.startWithTickEnabled && f.tickInterval == s.tickInterval
  {
    TickFunction(s.tickType, s.tickGroup, s.endTickGroup, s.startWithTickEnabled,
      s.allowTickOnDedicatedServer, s.tickEvenWhenPaused, s.tickInterval,
      s.highPriority, s.allowTickBatching, s.runTransactionally, true)
  }

  /** The name and the prerequisites are the only settings a tick function does not carry. */
  lemma CreateTickFunctionForgetsOnlyNameAndPrerequisites(s: TickFunctionSettings, t: TickFunctionSettings)
    requires s.(name := t.name, prerequisites := t.prerequisites) == t
    ensures CreateTickFunctionInstance(s) == CreateTickFunctionInstance(t)
  {
  }

  /** The `TickFunctions` a default-constructed `FFlecsWorldSettingsInfo` holds. */
  function DefaultWorldTickFunctions(): (r: seq<TickFunctionSettings>)
    ensures |r| == 5
  {
    [GetTickFunctionSettingsDefault(MainLoop), GetTickFunctionSettingsDefault(PrePhysics),
     GetTickFunctionSettingsDefault(DuringPhysics), GetTickFunctionSettingsDefault(PostPhysics),
     GetTickFunctionSettingsDefault(PostUpdateWork)]
  }

  /** The default world settings cover the default game loop's tick types in the same order. */
  lemma DefaultWorldMatchesGameLoop()
    ensures forall i :: 0 <= i < 5 ==>
              DefaultWorldTickFunctions()[i].tickType == DefaultGameLoop.GetTickTypeTags()[i] &&
              DefaultWorldTickFunctions()[i] == GetTickFunctionSettingsDefault(DefaultGameLoop.GetTickTypeTags()[i])
  {
  }
}
