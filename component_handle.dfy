// `FFlecsComponentHandle`'s hook and layout setters. The handle reaches the
// component's record in the world: its `Component` data (size, alignment)
// and its type hooks. Every hook setter is a read-modify-write of the hooks;
// the `On*` setters may fill their slot only while it is empty, and store
// their callback in a binding context that is allocated on first use.

module ComponentHandle {
  import opened Wrappers

  /** A hook function pointer or callback, identified by a number. */
  type Callback = nat

  /** `flecs::Component`: the registered size and alignment. */
  datatype ComponentData = ComponentData(size: int, alignment: int)

  /** `component_binding_ctx`: the callbacks the `On*` hooks run. */
  datatype BindingContext = BindingContext(
    onAdd: Option<Callback>, onRemove: Option<Callback>,
    onSet: Option<Callback>, onReplace: Option<Callback>)

  const EmptyContext := BindingContext(None, None, None, None)

  /** `type_hooks_t`, with the fields these setters touch. */
  datatype TypeHooks = TypeHooks(
    ctor: Option<Callback>, dtor: Option<Callback>, copy: Option<Callback>, move: Option<Callback>,
    cmp: Option<Callback>, equals: Option<Callback>,
    onAdd: Option<Callback>, onRemove: Option<Callback>, onSet: Option<Callback>, onReplace: Option<Callback>,
    bindingCtx: Option<BindingContext>)

  /** The lifecycle hooks (ctor, dtor, copy, move, cmp, equals) agree. */
  predicate SameLifecycle(a: TypeHooks, b: TypeHooks)
  {
    a.ctor == b.ctor && a.dtor == b.dtor && a.copy == b.copy && a.move == b.move
    && a.cmp == b.cmp && a.equals == b.equals
  }

  /** The `run_*` trampolines the `On*` setters install in the hook slots. */
  const RunAdd: Callback := 0
  const RunRemove: Callback := 1
  const RunSet: Callback := 2
  const RunReplace: Callback := 3

  /** `GetBindingContext`: the existing context, or a fresh empty one installed in the hooks. */
  function WithBindingContext(h: TypeHooks): (r: TypeHooks)
    ensures r.bindingCtx.Some?
    ensures h.bindingCtx.Some? ==> r == h
    ensures h.bindingCtx.None? ==> r == h.(bindingCtx := Some(EmptyContext))
  {
    if h.bindingCtx.Some? then h else h.(bindingCtx := Some(EmptyContext))
  }

  /** The four `On*` hooks. */
  datatype Event = Add | Remove | Set | Replace

  function Slot(h: TypeHooks, e: Event): Option<Callback>
  {
    match e
    case Add => h.onAdd
    case Remove => h.onRemove
    case Set => h.onSet
    case Replace => h.onReplace
  }

  function ContextSlot(c: BindingContext, e: Event): Option<Callback>
  {
    match e
    case Add => c.onAdd
    case Remove => c.onRemove
    case Set => c.onSet
    case Replace => c.onReplace
  }

  /**
   * The hook edit `OnAdd`/`OnRemove`/`OnSet`/`OnReplace` apply: the slot must
   * be empty; it receives the trampoline and the context receives the
   * callback. Nothing else changes.
   */
  function WithEventHook(h: TypeHooks, e: Event, f: Callback): (r: TypeHooks)
    requires Slot(h, e).None?
    ensures Slot(r, e).Some? && r.bindingCtx.Some? && ContextSlot(r.bindingCtx.value, e) == Some(f)
    ensures SameLifecycle(h, r)
    ensures forall e' :: e' != e ==> Slot(r, e') == Slot(h, e')
    ensures forall e' :: e' != e && h.bindingCtx.Some? ==> ContextSlot(r.bindingCtx.value, e') == ContextSlot(h.bindingCtx.value, e')
    ensures forall e' :: e' != e && h.bindingCtx.None? ==> ContextSlot(r.bindingCtx.value, e') == None
  {
    var g := WithBindingContext(h);
    var c := g.bindingCtx.value;
    match e
    case Add => g.(onAdd := Some(RunAdd), bindingCtx := Some(c.(onAdd := Some(f))))
    case Remove => g.(onRemove := Some(RunRemove), bindingCtx := Some(c.(onRemove := Some(f))))
    case Set => g.(onSet := Some(RunSet), bindingCtx := Some(c.(onSet := Some(f))))
    case Replace => g.(onReplace := Some(RunReplace), bindingCtx := Some(c.(onReplace := Some(f))))
  }

  /** Once an `On*` hook is set, setting it again is refused: each can be set at most once. */
  lemma EventHookAtMostOnce(h: TypeHooks, e: Event, f: Callback)
    requires Slot(h, e).None?
    ensures !Slot(WithEventHook(h, e, f), e).None?
  {
  }

  /**
   * Setting two different `On*` hooks gives the same hooks in either order:
   * the second setter reuses the context the first one allocated.
   */
  lemma EventHooksCommute(h: TypeHooks, e1: Event, f1: Callback, e2: Event, f2: Callback)
    requires e1 != e2 && Slot(h, e1).None? && Slot(h, e2).None?
    ensures Slot(WithEventHook(h, e1, f1), e2).None? && Slot(WithEventHook(h, e2, f2), e1).None?
    ensures WithEventHook(WithEventHook(h, e1, f1), e2, f2) == WithEventHook(WithEventHook(h, e2, f2), e1, f1)
  {
  }

  /** The component as the handle sees it in the world. */
  class ComponentRecord {
    var data: ComponentData
    var hooks: TypeHooks

    constructor(data: ComponentData, hooks: TypeHooks)
      ensures this.data == data && this.hooks == hooks
    {
      this.data := data;
      this.hooks := hooks;
    }

    /** `SetComponentData(flecs::Component)`. */
    method SetComponentData(d: ComponentData)
      modifies this
      ensures data == d && hooks == old(hooks)
    {
      data := d;
    }

    /** `SetComponentData(size, alignment)`: both must be positive. */
    method SetComponentLayout(size: int, alignment: int)
      requires size > 0 && alignment > 0
      modifies this
      ensures data == ComponentData(size, alignment) && hooks == old(hooks)
    {
      SetComponentData(ComponentData(size, alignment));
    }

    /** `ModifyHooksLambda`: read the hooks, apply the edit, write the result back. */
    method ModifyHooks(edit: TypeHooks -> TypeHooks)
      modifies this
      ensures hooks == edit(old(hooks)) && data == old(data)
    {
      var h := hooks;
      h := edit(h);
      hooks := h;
    }

    /** `SetConstructor`. */
    method SetConstructor(f: Callback)
      modifies this
      ensures hooks == old(hooks).(ctor := Some(f)) && data == old(data)
    {
      ModifyHooks((h: TypeHooks) => h.(ctor := Some(f)));
    }

    /** `SetDestructor`. */
    method SetDestructor(f: Callback)
      modifies this
      ensures hooks == old(hooks).(dtor := Some(f)) && data == old(data)
    {
      ModifyHooks((h: TypeHooks) => h.(dtor := Some(f)));
    }

    /** `SetCopy`. */
    method SetCopy(f: Callback)
      modifies this
      ensures hooks == old(hooks).(copy := Some(f)) && data == old(data)
    {
      ModifyHooks((h: TypeHooks) => h.(copy := Some(f)));
    }

    /** `SetMove`. */
    method SetMove(f: Callback)
      modifies this
      ensures hooks == old(hooks).(move := Some(f)) && data == old(data)
    {
      ModifyHooks((h: TypeHooks) => h.(move := Some(f)));
    }

    /** `SetCompare`. */
    method SetCompare(f: Callback)
      modifies this
      ensures hooks == old(hooks).(cmp := Some(f)) && data == old(data)
    {
      ModifyHooks((h: TypeHooks) => h.(cmp := Some(f)));
    }

    /** `SetEquals`. */
    method SetEquals(f: Callback)
      modifies this
      ensures hooks == old(hooks).(equals := Some(f)) && data == old(data)
    {
      ModifyHooks((h: TypeHooks) => h.(equals := Some(f)));
    }

    /** `OnAdd`, `OnRemove`, `OnSet` and `OnReplace`: the slot must still be empty. */
    method OnEvent(e: Event, f: Callback)
      requires Slot(hooks, e).None?
      modifies this
      ensures hooks == WithEventHook(old(hooks), e, f) && data == old(data)
    {
      var h := hooks;
      hooks := WithEventHook(h, e, f);
    }

    /** `GetSize`: the stored size, which must be positive. */
    function GetSize(): (r: nat)
      reads this
      requires data.size > 0
      ensures r > 0 && r == data.size
    {
      data.size
    }

    /** `GetAlignment`: the stored alignment, which must be positive. */
    function GetAlignment(): (r: nat)
      reads this
      requires data.alignment > 0
      ensures r > 0 && r == data.alignment
    {
      data.alignment
    }
  }
}
