// Conversions between the plugin's ticking groups and the engine's.
//
// `EFlecsTickingGroup` is a flag enum over a byte; its five named values
// are single bits. Four of them have an engine namesake; EndPhysics and
// every combination of flags have none.

module TickingGroups {

  /** The engine's `ETickingGroup`. */
  datatype EngineTickingGroup =
    | TG_PrePhysics | TG_StartPhysics | TG_DuringPhysics | TG_EndPhysics
    | TG_PostPhysics | TG_PostUpdateWork | TG_LastDemotable | TG_NewlySpawned

  newtype u8 = x: int | 0 <= x < 256

  /** `EFlecsTickingGroup`, a byte whose named values are single bits. */
  type FlecsTickingGroup = u8

  const FlecsPrePhysics: FlecsTickingGroup := 1
  const FlecsDuringPhysics: FlecsTickingGroup := 2
  const FlecsEndPhysics: FlecsTickingGroup := 4
  const FlecsPostPhysics: FlecsTickingGroup := 8
  const FlecsPostUpdateWork: FlecsTickingGroup := 16

  /** `IsConvertibleToFlecsTickingGroup`. */
  predicate IsConvertible(g: EngineTickingGroup)
  {
    g == TG_PrePhysics || g == TG_DuringPhysics || g == TG_PostPhysics || g == TG_PostUpdateWork
  }

  /** The Flecs values the conversion to the engine handles without hitting its assertion. */
  predicate HasEngineNamesake(f: FlecsTickingGroup)
  {
    f == FlecsPrePhysics || f == FlecsDuringPhysics || f == FlecsPostPhysics || f == FlecsPostUpdateWork
  }

  /**
   * `ConvertFlecsTickingGroupToEngineTickingGroup`. Any value without a
   * namesake (EndPhysics, a combination of flags) fails the assertion in
   * the default branch, which then answers TG_PrePhysics.
   */
  function ToEngine(f: FlecsTickingGroup): (g: EngineTickingGroup)
    ensures HasEngineNamesake(f) ==> IsConvertible(g)
    ensures !HasEngineNamesake(f) ==> g == TG_PrePhysics
  {
    if f == FlecsPrePhysics then TG_PrePhysics
    else if f == FlecsDuringPhysics then TG_DuringPhysics
    else if f == FlecsPostPhysics then TG_PostPhysics
    else if f == FlecsPostUpdateWork then TG_PostUpdateWork
    else TG_PrePhysics
  }

  /** `ConvertEngineTickingGroupToFlecsTickingGroup`, which checks convertibility first. */
  function ToFlecs(g: EngineTickingGroup): (f: FlecsTickingGroup)
    requires IsConvertible(g)
    ensures HasEngineNamesake(f)
  {
    match g
    case TG_PrePhysics => FlecsPrePhysics
    case TG_DuringPhysics => FlecsDuringPhysics
    case TG_PostPhysics => FlecsPostPhysics
    case TG_PostUpdateWork => FlecsPostUpdateWork
  }

  /** The two conversions are inverse on the four shared groups. */
  lemma ConversionRoundTrips(g: EngineTickingGroup, f: FlecsTickingGroup)
    ensures IsConvertible(g) ==> ToEngine(ToFlecs(g)) == g
    ensures HasEngineNamesake(f) ==> ToFlecs(ToEngine(f)) == f
  {
  }

  /** Exactly four engine groups convert, and EndPhysics is not among the Flecs groups that do. */
  lemma ConvertibleGroups()
    ensures forall g :: IsConvertible(g) <==> g in {TG_PrePhysics, TG_DuringPhysics, TG_PostPhysics, TG_PostUpdateWork}
    ensures !HasEngineNamesake(FlecsEndPhysics) && ToEngine(FlecsEndPhysics) == TG_PrePhysics
  {
  }
}
