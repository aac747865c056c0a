// Array reflection in the meta addon: `flecs_set_array`.
//
// An array type names an element type and an element count. Without an
// element type, or with a count of zero, the array is refused and the type
// entity is left alone; otherwise it is registered as an array type whose
// size is the element size times the count, aligned like the element.

module MetaArray {
  import opened Wrappers
  import opened MetaTypes

  /** The `EcsArray` component of one entity. */
  datatype ArrayDecl = ArrayDecl(elemType: Entity, count: int)

  datatype ArrayOutcome = ArrayOutcome(status: Status, entity: TypeEntity)

  /**
   * `flecs_set_array` for one entity. The element type's component record
   * is read without a check, so the code demands that it exists.
   */
  function SetArray(t: TypeEntity, a: ArrayDecl, elems: map<Entity, Component>): (r: ArrayOutcome)
    requires WellFormed(t)
    requires a.elemType != 0 && a.count != 0 ==> a.elemType in elems
    ensures WellFormed(r.entity)
  {
    if a.elemType == 0 || a.count == 0 then ArrayOutcome(Err, t)
    else
      var c := elems[a.elemType];
      var init := InitType(t, ArrayType, c.size * a.count, c.alignment);
      ArrayOutcome(init.status, init.entity)
  }

  /** No element type, or a count of zero, is refused and changes nothing. */
  lemma SetArrayRejects(t: TypeEntity, a: ArrayDecl, elems: map<Entity, Component>)
    requires WellFormed(t) && (a.elemType == 0 || a.count == 0)
    ensures SetArray(t, a, elems) == ArrayOutcome(Err, t)
  {
  }

  /**
   * A runtime array type gets the element size times the count and the
   * element alignment; any successful registration makes it an array type
   * at least that large.
   */
  lemma SetArraySize(t: TypeEntity, a: ArrayDecl, elems: map<Entity, Component>)
    requires WellFormed(t) && a.elemType in elems && a.elemType != 0 && a.count != 0
    ensures var r := SetArray(t, a, elems);
      var c := elems[a.elemType];
      (r.status == Ok ==> (r.entity.meta.kind == ArrayType && r.entity.comp.Some? &&
                           r.entity.comp.value.size >= c.size * a.count && r.entity.comp.value.alignment >= c.alignment)) &&
      (t.meta.kind == PrimitiveType && t.comp.None? ==>
        r.status == Ok && r.entity.comp == Some(Component(c.size * a.count, c.alignment)))
  {
    var c := elems[a.elemType];
    InitTypeSuccessCovers(t, ArrayType, c.size * a.count, c.alignment);
    if t.meta.kind == PrimitiveType && t.comp.None? {
      InitTypeRuntime(t, ArrayType, c.size * a.count, c.alignment);
    }
  }
}
