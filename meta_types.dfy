// Type (re)registration in the meta addon: `flecs_init_type`.
//
// Every reflected type carries an `EcsType` record (its kind and whether it
// describes a pre-existing component) and an `EcsComponent` record (its size
// and alignment). A first registration decides whether the type already
// existed; later registrations must use the same kind. A runtime type takes
// the computed size and alignment; an existing type must be at least that
// large and that aligned, and is "partial" when its real size differs.

module MetaTypes {
  import opened Wrappers

  /** An entity id; 0 is the null entity. */
  type Entity = nat

  /**
   * The type kinds in the order of `flecs_type_kind_str`. The primitive kind
   * has the number 0, the same number an `EcsType` holds before its first
   * registration.
   */
  datatype TypeKind = PrimitiveType | BitmaskType | EnumType | StructType | ArrayType | VectorType | OpaqueType

  function KindNumber(k: TypeKind): (n: nat)
    ensures n < 7
    ensures n == 0 <==> k == PrimitiveType
  {
    match k
    case PrimitiveType => 0
    case BitmaskType => 1
    case EnumType => 2
    case StructType => 3
    case ArrayType => 4
    case VectorType => 5
    case OpaqueType => 6
  }

  /** `flecs_type_kind_str`. */
  function KindName(k: TypeKind): (s: string)
    ensures |s| > 0
  {
    match k
    case PrimitiveType => "Primitive"
    case BitmaskType => "Bitmask"
    case EnumType => "Enum"
    case StructType => "Struct"
    case ArrayType => "Array"
    case VectorType => "Vector"
    case OpaqueType => "Opaque"
  }

  /** The `EcsComponent` record. */
  datatype Component = Component(size: int, alignment: int)

  /** The `EcsType` record; a freshly ensured one is all zero. */
  datatype MetaType = MetaType(kind: TypeKind, existing: bool, partial: bool)

  const FreshMetaType := MetaType(PrimitiveType, false, false)

  /** What `flecs_init_type` reads and writes on the type entity. */
  datatype TypeEntity = TypeEntity(meta: MetaType, comp: Option<Component>)

  /** A type marked as existing has a component record (the code dereferences it). */
  predicate WellFormed(t: TypeEntity)
  {
    t.meta.existing ==> t.comp.Some?
  }

  datatype InitOutcome = InitOutcome(status: Status, entity: TypeEntity)

  /** `flecs_init_type(world, type, kind, size, alignment)`. */
  function InitType(t: TypeEntity, kind: TypeKind, size: int, alignment: int): (r: InitOutcome)
    requires WellFormed(t)
    ensures WellFormed(r.entity)
  {
    if KindNumber(t.meta.kind) != 0 && t.meta.kind != kind then
      // reregistered with another kind: warn and fail, nothing written
      InitOutcome(Err, t)
    else
      var existing := if KindNumber(t.meta.kind) == 0 then t.comp.Some? else t.meta.existing;
      if !existing then
        InitOutcome(Ok, TypeEntity(MetaType(kind, false, t.meta.partial), Some(Component(size, alignment))))
      else
        var comp := t.comp.value;
        if comp.size < size || comp.alignment < alignment then
          InitOutcome(Err, t.(meta := t.meta.(existing := true)))
        else
          InitOutcome(Ok, TypeEntity(MetaType(kind, true, comp.size != size), t.comp))
  }

  /** A type already registered with another (non-primitive) kind is refused and left as it was. */
  lemma InitTypeKindMismatch(t: TypeEntity, kind: TypeKind, size: int, alignment: int)
    requires WellFormed(t)
    requires t.meta.kind != PrimitiveType && t.meta.kind != kind
    ensures InitType(t, kind, size, alignment) == InitOutcome(Err, t)
  {
  }

  /**
   * A runtime type (one that had no component record at its first
   * registration) gets exactly the computed size and alignment, and the kind.
   */
  lemma InitTypeRuntime(t: TypeEntity, kind: TypeKind, size: int, alignment: int)
    requires WellFormed(t)
    requires t.meta.kind == PrimitiveType || t.meta.kind == kind
    requires if t.meta.kind == PrimitiveType then t.comp.None? else !t.meta.existing
    ensures var r := InitType(t, kind, size, alignment);
      r.status == Ok && r.entity.comp == Some(Component(size, alignment)) &&
      r.entity.meta.kind == kind && !r.entity.meta.existing
  {
  }

  /**
   * An existing type fails when the computed size or alignment exceeds the
   * real one; otherwise it succeeds, keeps its component record, and is
   * partial exactly when the real size differs from the computed one.
   */
  lemma InitTypeExisting(t: TypeEntity, kind: TypeKind, size: int, alignment: int)
    requires WellFormed(t) && t.comp.Some?
    requires t.meta.kind == PrimitiveType || (t.meta.kind == kind && t.meta.existing)
    ensures var r := InitType(t, kind, size, alignment);
      var c := t.comp.value;
      (r.status == Err <==> c.size < size || c.alignment < alignment) &&
      r.entity.comp == t.comp &&
      (r.status == Ok ==> r.entity.meta == MetaType(kind, true, c.size != size))
  {
  }

  /**
   * After a successful registration the type has the requested kind and its
   * component record holds at least the computed size and alignment.
   */
  lemma InitTypeSuccessCovers(t: TypeEntity, kind: TypeKind, size: int, alignment: int)
    requires WellFormed(t)
    ensures var r := InitType(t, kind, size, alignment);
      r.status == Ok ==>
        r.entity.meta.kind == kind && r.entity.comp.Some? &&
        r.entity.comp.value.size >= size && r.entity.comp.value.alignment >= alignment
  {
  }

  /**
   * Registering a non-primitive type a second time with the same kind, size
   * and alignment succeeds and changes nothing.
   */
  lemma InitTypeIdempotent(t: TypeEntity, kind: TypeKind, size: int, alignment: int)
    requires WellFormed(t) && kind != PrimitiveType
    requires InitType(t, kind, size, alignment).status == Ok
    ensures var once := InitType(t, kind, size, alignment).entity;
      InitType(once, kind, size, alignment) == InitOutcome(Ok, once)
  {
  }

  /**
   * Because the primitive kind shares the number 0 with "not registered", a
   * runtime primitive type re-enters the first-registration branch on its
   * second registration and is then taken for an existing type.
   */
  lemma PrimitiveSecondRegistrationTurnsExisting(size: int, alignment: int)
    ensures var t := TypeEntity(FreshMetaType, None);
      var once := InitType(t, PrimitiveType, size, alignment);
      var twice := InitType(once.entity, PrimitiveType, size, alignment);
      once.status == Ok && !once.entity.meta.existing &&
      twice.status == Ok && twice.entity.meta.existing
  {
  }
}
