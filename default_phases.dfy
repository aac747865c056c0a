// `EFlecsDefaultPipelinePhase` and its mapping onto the builtin Flecs
// pipeline phases of the same name.

module DefaultPhases {
  import opened Wrappers

  /** The enumerators, in declaration order; OnStart is last. */
  datatype DefaultPipelinePhase =
    | OnLoad | PostLoad | PreUpdate | OnUpdate | OnValidate | PostUpdate | PreStore | OnStore | OnStart

  /** The builtin Flecs phase entities (`flecs::OnLoad` and so on). */
  datatype FlecsPhase =
    | EcsOnLoad | EcsPostLoad | EcsPreUpdate | EcsOnUpdate | EcsOnValidate
    | EcsPostUpdate | EcsPreStore | EcsOnStore | EcsOnStart

  /** The enumerator's underlying byte value. */
  function Ordinal(p: DefaultPipelinePhase): (n: nat)
    ensures n < 9
    ensures p == OnStart <==> n == 8
  {
    match p
    case OnLoad => 0
    case PostLoad => 1
    case PreUpdate => 2
    case OnUpdate => 3
    case OnValidate => 4
    case PostUpdate => 5
    case PreStore => 6
    case OnStore => 7
    case OnStart => 8
  }

  /** The enumerator with a given byte value, if any. */
  function FromOrdinal(n: nat): (r: Option<DefaultPipelinePhase>)
    ensures r.Some? <==> n < 9
    ensures r.Some? ==> Ordinal(r.value) == n
  {
    if n == 0 then Some(OnLoad)
    else if n == 1 then Some(PostLoad)
    else if n == 2 then Some(PreUpdate)
    else if n == 3 then Some(OnUpdate)
    else if n == 4 then Some(OnValidate)
    else if n == 5 then Some(PostUpdate)
    else if n == 6 then Some(PreStore)
    else if n == 7 then Some(OnStore)
    else if n == 8 then Some(OnStart)
    else None
  }

  /** The phase each enumerator stands for. */
  function Namesake(p: DefaultPipelinePhase): FlecsPhase
  {
    match p
    case OnLoad => EcsOnLoad
    case PostLoad => EcsPostLoad
    case PreUpdate => EcsPreUpdate
    case OnUpdate => EcsOnUpdate
    case OnValidate => EcsOnValidate
    case PostUpdate => EcsPostUpdate
    case PreStore => EcsPreStore
    case OnStore => EcsOnStore
    case OnStart => EcsOnStart
  }

  /**
   * `ConvertDefaultPipelinePhaseToFlecsId` on the byte value: a named
   * enumerator gives its phase; any other byte falls into checkNoEntry and
   * the null id (None).
   */
  function ConvertToFlecsId(n: nat): (r: Option<FlecsPhase>)
    ensures r.Some? <==> n < 9
  {
    match FromOrdinal(n)
    case Some(p) => Some(Namesake(p))
    case None => None
  }

  /** Every enumerator maps to its namesake, and different enumerators to different phases. */
  lemma ConvertInjective(p: DefaultPipelinePhase, q: DefaultPipelinePhase)
    ensures ConvertToFlecsId(Ordinal(p)) == Some(Namesake(p))
    ensures ConvertToFlecsId(Ordinal(p)) == ConvertToFlecsId(Ordinal(q)) ==> p == q
  {
    OrdinalRoundTrip(p);
    OrdinalRoundTrip(q);
  }

  lemma OrdinalRoundTrip(p: DefaultPipelinePhase)
    ensures FromOrdinal(Ordinal(p)) == Some(p)
  {
  }
}
