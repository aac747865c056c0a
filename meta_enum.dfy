// Enum reflection in the meta addon: `flecs_add_constant_to_enum`.
//
// Adding a constant entity to an enum derives the underlying type if the
// enum has none yet, requires it to be primitive, removes any earlier entry
// for the same constant, then either takes the value from the constant's
// (EcsConstant, underlying type) pair and refuses a value already in use, or
// numbers the constant one above the largest value in use (0 for the first).
// The constant is then recorded under its value and appended to the ordered
// list, and an automatically chosen value is written back to the constant.

module MetaEnum {
  import opened Wrappers
  import opened MetaTypes
  import opened MetaConstants

  /** `ecs_primitive_kind_t`. */
  datatype PrimitiveKind =
    | Bool | Char | Byte | U8 | U16 | U32 | U64 | I8 | I16 | I32 | I64
    | F32 | F64 | UPtr | IPtr | String | EntityKind | IdKind

  /** Only the four fixed-width unsigned kinds count as unsigned for enum values. */
  predicate IsUnsigned(k: PrimitiveKind)
  {
    k == U8 || k == U16 || k == U32 || k == U64
  }

  /** How the constant was added: as a plain tag, or as a pair whose second element is a type. */
  datatype ConstantId = Tag | Pair(second: Entity)

  /** What reading the constant's (EcsConstant, underlying type) pair gives. */
  datatype ConstantPair = Missing | Unconvertible | Value(v: int)

  /** The parts of the world the operation reads. */
  datatype EnumWorld = EnumWorld(
    primitives: map<Entity, PrimitiveKind>,  // entities with EcsPrimitive
    i32: Entity,                             // the entity of ecs_i32_t
    pair: ConstantPair,                      // the constant's value pair
    name: string,                            // the constant's name
    assignFails: bool)                       // writing the chosen value back fails

  /** `ecs_abort` on an unsigned conflict ends the process; it is an outcome of its own. */
  datatype EnumResult = Added | Failed | Aborted

  /** The `EcsEnum` component. */
  datatype EnumState = EnumState(underlying: Entity, constants: map<int, Constant>, ordered: seq<Constant>)

  predicate ValidEnum(st: EnumState)
  {
    Tables(st.constants, st.ordered)
  }

  datatype EnumOutcome = EnumOutcome(result: EnumResult, state: EnumState, written: Option<int>)

  // ---------------------------------------------------------------------
  // Automatic numbering

  /** One above the largest value in the vector, and 0 when it is empty or all values are negative. */
  function NextAfter(s: seq<Constant>): (v: int)
    ensures v >= 0
    ensures forall i :: 0 <= i < |s| ==> s[i].value < v
    ensures v == 0 || exists i :: 0 <= i < |s| && s[i].value == v - 1
    decreases |s|
  {
    if |s| == 0 then 0
    else
      var before := NextAfter(s[..|s| - 1]);
      var last := s[|s| - 1].value;
      assert forall i :: 0 <= i < |s| - 1 ==> s[..|s| - 1][i] == s[i];
      if last + 1 > before then last + 1 else before
  }

  /**
   * A value above every key of a vector's map and one above one of them, or
   * 0 above them all, is NextAfter of the vector: the result of the scan does
   * not depend on the order the map is visited in.
   */
  lemma NextAfterUnique(s: seq<Constant>, v: int)
    requires v >= 0 && (forall k :: k in MapOf(s) ==> k < v) && (v == 0 || v - 1 in MapOf(s))
    ensures v == NextAfter(s)
  {
    var n := NextAfter(s);
    if v != 0 {
      MapOfFrom(s, v - 1);
    }
    if n != 0 {
      var i :| 0 <= i < |s| && s[i].value == n - 1;
      assert n - 1 in MapOf(s);
    }
  }

  /** NextAfter is not yet a key of the vector's map. */
  lemma NextAfterUnused(s: seq<Constant>)
    ensures NextAfter(s) !in MapOf(s)
  {
    var v := NextAfter(s);
    if v in MapOf(s) {
      MapOfFrom(s, v);
    }
  }

  /** What the scan has established after visiting the keys in `seen`. */
  ghost predicate Scanned(valueSet: bool, value0: int, seen: set<int>, value: int)
  {
    && (valueSet ==> value == value0 && value0 !in seen)
    && (!valueSet ==> value >= 0 && (forall k :: k in seen ==> k < value) && (value == 0 || value - 1 in seen))
  }

  /** One visit of the scan keeps what it has established. */
  lemma ScanStep(valueSet: bool, value0: int, seen: set<int>, value: int, k: int)
    requires Scanned(valueSet, value0, seen, value)
    ensures valueSet && k != value ==> Scanned(valueSet, value0, seen + {k}, value)
    ensures !valueSet ==> Scanned(valueSet, value0, seen + {k}, if k >= value then k + 1 else value)
  {
  }

  /**
   * The scan over the constants, visiting the keys in an unspecified order.
   * With an explicit value it looks for a conflict; otherwise every value at
   * or above the running candidate raises the candidate to one above it.
   */
  method ScanConstants(m: map<int, Constant>, valueSet: bool, unsigned: bool, value0: int) returns (r: EnumResult, value: int)
    requires forall k :: k in m ==> m[k].value == k
    requires !valueSet ==> value0 == 0
    ensures valueSet ==> value == value0 && (r == Added <==> value0 !in m)
    ensures valueSet && r != Added ==> r == (if unsigned then Aborted else Failed)
    ensures !valueSet ==> r == Added && value >= 0 && (forall k :: k in m ==> k < value) && (value == 0 || value - 1 in m)
  {
    value := value0;
    var keys := m.Keys;
    while keys != {}
      invariant keys <= m.Keys
      invariant Scanned(valueSet, value0, m.Keys - keys, value)
      decreases |keys|
    {
      assert (forall x :: x !in keys) ==> keys == {};
      var k :| k in keys;
      ScanStep(valueSet, value0, m.Keys - keys, value, k);
      assert m.Keys - (keys - {k}) == (m.Keys - keys) + {k};
      keys := keys - {k};
      var c := m[k];
      if valueSet {
        if c.value == value {
          return if unsigned then Aborted else Failed, value;
        }
      } else if c.value >= value {
        value := c.value + 1;
      }
    }
    assert m.Keys - keys == m.Keys;
    r := Added;
  }

  // ---------------------------------------------------------------------
  // The operation as a function of the component

  /** The underlying type the operation uses: the stored one, else the pair's second, else i32. */
  function UnderlyingOf(st: EnumState, w: EnumWorld, id: ConstantId): (ut: Entity)
    ensures st.underlying != 0 ==> ut == st.underlying
    ensures st.underlying == 0 && id.Pair? ==> ut == id.second
    ensures st.underlying == 0 && id.Tag? ==> ut == w.i32
  {
    if st.underlying != 0 then st.underlying
    else if id.Pair? then id.second
    else w.i32
  }

  /** Records a constant under its value and appends it to the ordered list. */
  function Insert(st: EnumState, c: Constant): EnumState
  {
    st.(constants := st.constants[c.value := c], ordered := st.ordered + [c])
  }

  /** `flecs_add_constant_to_enum(world, type, e, constant_id)`. */
  ghost function EnumAdd(st: EnumState, w: EnumWorld, e: Entity, id: ConstantId): EnumOutcome
  {
    var ut := UnderlyingOf(st, w, id);
    var st1 := if st.underlying == 0 && id.Pair? then st.(underlying := id.second) else st;
    if ut !in w.primitives then EnumOutcome(Failed, st1, None)
    else
      var st2 := st1.(constants := WithoutConstant(st1.constants, e), ordered := RemoveFirst(st1.ordered, e));
      EnumPlace(st2, w, e, id, IsUnsigned(w.primitives[ut]))
  }

  /** The part of EnumAdd after e's old entries are removed: choosing the value and inserting. */
  ghost function EnumPlace(st2: EnumState, w: EnumWorld, e: Entity, id: ConstantId, unsigned: bool): EnumOutcome
  {
    if id.Pair? then
      if !w.pair.Value? then EnumOutcome(Failed, st2, None)
      else if w.pair.v in st2.constants then EnumOutcome(if unsigned then Aborted else Failed, st2, None)
      else EnumOutcome(Added, Insert(st2, Constant(w.name, w.pair.v, e)), None)
    else
      var v := NextAfter(st2.ordered);
      var st3 := Insert(st2, Constant(w.name, v, e));
      if w.assignFails then EnumOutcome(Failed, st3, None)
      else EnumOutcome(Added, st3, Some(v))
  }

  /** Removing e's entries keeps the tables consistent, and leaves no entry for e. */
  lemma RemovalKeepsTables(st: EnumState, e: Entity)
    requires ValidEnum(st)
    ensures Tables(WithoutConstant(st.constants, e), RemoveFirst(st.ordered, e))
    ensures forall j :: 0 <= j < |RemoveFirst(st.ordered, e)| ==> RemoveFirst(st.ordered, e)[j].constant != e
  {
    MapOfRemoveFirst(st.ordered, e);
    RemoveFirstClears(st.ordered, e);
  }

  /** Inserting a constant whose value and entity are unused keeps the tables consistent. */
  lemma InsertKeepsTables(st: EnumState, c: Constant)
    requires ValidEnum(st)
    requires c.value !in st.constants
    requires forall j :: 0 <= j < |st.ordered| ==> st.ordered[j].constant != c.constant
    ensures ValidEnum(Insert(st, c))
  {
    MapOfAppend(st.ordered, c);
    var s := st.ordered + [c];
    forall i, j | 0 <= i < j < |s|
      ensures s[i].value != s[j].value && s[i].constant != s[j].constant
    {
      if j == |s| - 1 {
        assert s[i] == st.ordered[i];
      }
    }
  }

  /** Every outcome leaves the enum's map and ordered list consistent. */
  lemma EnumAddKeepsTables(st: EnumState, w: EnumWorld, e: Entity, id: ConstantId)
    requires ValidEnum(st)
    ensures ValidEnum(EnumAdd(st, w, e, id).state)
  {
    var ut := UnderlyingOf(st, w, id);
    var st1 := if st.underlying == 0 && id.Pair? then st.(underlying := id.second) else st;
    if ut in w.primitives {
      RemovalKeepsTables(st1, e);
      var st2 := st1.(constants := WithoutConstant(st1.constants, e), ordered := RemoveFirst(st1.ordered, e));
      if id.Pair? && w.pair.Value? && w.pair.v !in st2.constants {
        InsertKeepsTables(st2, Constant(w.name, w.pair.v, e));
      } else if id.Tag? {
        NextAfterUnused(st2.ordered);
        InsertKeepsTables(st2, Constant(w.name, NextAfter(st2.ordered), e));
      }
    }
  }

  /**
   * A constant added without an explicit value is numbered one above the
   * largest value of the other constants (0 if there are none), whatever
   * order the map is visited in, and is appended after the other constants,
   * which keep their order.
   */
  lemma EnumAutoNumbering(st: EnumState, w: EnumWorld, e: Entity)
    requires ValidEnum(st)
    requires UnderlyingOf(st, w, Tag) in w.primitives && !w.assignFails
    ensures var r := EnumAdd(st, w, e, Tag);
      var others := RemoveFirst(st.ordered, e);
      var v := r.state.ordered[|r.state.ordered| - 1].value;
      r.result == Added && r.written == Some(v) &&
      r.state.ordered == others + [Constant(w.name, v, e)] &&
      v >= 0 && (forall j :: 0 <= j < |others| ==> others[j].value < v) &&
      (v == 0 || exists j :: 0 <= j < |others| && others[j].value == v - 1)
  {
    RemovalKeepsTables(st, e);
  }

  /**
   * An explicit value already used by another constant is refused (an
   * unsigned enum aborts); the constant's own earlier value is not a
   * conflict, because its old entry is removed first.
   */
  lemma EnumExplicitConflict(st: EnumState, w: EnumWorld, e: Entity, second: Entity)
    requires ValidEnum(st) && w.pair.Value?
    requires UnderlyingOf(st, w, Pair(second)) in w.primitives
    ensures var r := EnumAdd(st, w, e, Pair(second));
      r.result != Added <==>
        exists j :: 0 <= j < |st.ordered| && st.ordered[j].value == w.pair.v && st.ordered[j].constant != e
    ensures var r := EnumAdd(st, w, e, Pair(second));
      r.result == Added ==> r.state.ordered == RemoveFirst(st.ordered, e) + [Constant(w.name, w.pair.v, e)]
  {
    var v := w.pair.v;
    var m := WithoutConstant(st.constants, e);
    if v in m {
      MapOfFrom(st.ordered, v);
      var j :| 0 <= j < |st.ordered| && st.ordered[j] == st.constants[v];
      assert st.ordered[j].value == v && st.ordered[j].constant != e;
    } else {
      forall j | 0 <= j < |st.ordered| && st.ordered[j].value == v
        ensures st.ordered[j].constant == e
      {
        MapOfAt(st.ordered, j);
      }
    }
  }

  /** An underlying type that is not primitive fails before anything but the type is recorded. */
  lemma EnumNeedsPrimitive(st: EnumState, w: EnumWorld, e: Entity, id: ConstantId)
    requires UnderlyingOf(st, w, id) !in w.primitives
    ensures var r := EnumAdd(st, w, e, id);
      r.result == Failed && r.state.constants == st.constants && r.state.ordered == st.ordered &&
      r.state.underlying == (if st.underlying == 0 && id.Pair? then id.second else st.underlying)
  {
  }

  // ---------------------------------------------------------------------
  // The component, updated in place

  class EnumComponent {
    var underlying: Entity
    var constants: map<int, Constant>
    var ordered: seq<Constant>

    function State(): EnumState
      reads this
    {
      EnumState(underlying, constants, ordered)
    }

    predicate Valid()
      reads this
    {
      ValidEnum(State())
    }

    /** A freshly ensured EcsEnum: no underlying type and no constants. */
    constructor ()
      ensures State() == EnumState(0, map[], []) && Valid()
    {
      underlying, constants, ordered := 0, map[], [];
    }

    /** `flecs_add_constant_to_enum`; `written` is the value stored back on the constant, if any. */
    method AddConstant(w: EnumWorld, e: Entity, id: ConstantId) returns (r: EnumResult, written: Option<int>)
      requires Valid()
      modifies this
      ensures EnumOutcome(r, State(), written) == EnumAdd(old(State()), w, e, id)
      ensures Valid()
    {
      EnumAddKeepsTables(State(), w, e, id);
      var ut := underlying;
      if ut == 0 {
        if id.Pair? {
          ut := id.second;
          underlying := ut;
        } else {
          ut := w.i32;
        }
      }
      if ut !in w.primitives {
        return Failed, None;
      }
      var unsigned := IsUnsigned(w.primitives[ut]);
      constants, ordered := RemoveEntries(constants, ordered, e);
      r, written := Place(w, e, id, unsigned);
    }

    /** The value choice and insertion, once e's old entries are gone. */
    method Place(w: EnumWorld, e: Entity, id: ConstantId, unsigned: bool) returns (r: EnumResult, written: Option<int>)
      requires Valid()
      modifies this
      ensures EnumOutcome(r, State(), written) == EnumPlace(old(State()), w, e, id, unsigned)
    {
      var value := 0;
      var valueSet := false;
      if id.Pair? {
        if !w.pair.Value? {
          return Failed, None;
        }
        value, valueSet := w.pair.v, true;
      }
      r, value := ScanConstants(constants, valueSet, unsigned, value);
      if !valueSet {
        NextAfterUnique(ordered, value);
      }
      if r != Added {
        return r, None;
      }
      var c := Constant(w.name, value, e);
      constants := constants[value := c];
      ordered := ordered + [c];
      if !valueSet {
        if w.assignFails {
          return Failed, None;
        }
        return Added, Some(value);
      }
      return Added, None;
    }
  }
}
