// Bitmask reflection in the meta addon: `flecs_add_constant_to_bitmask`.
//
// A bitmask constant carries an unsigned 32-bit value. Re-adding a constant
// entity first removes its old entries; a constant added as a pair must use
// u32 as the pair's second element and takes its value from that pair,
// otherwise the value is the bit `1 << n`, n being the number of constants
// left in the map. A value already in use is refused. The constant is then
// recorded under its value, appended to the ordered list, and its value is
// written to the (EcsConstant, u32) pair and to the bitmask type's component
// on the constant.

module MetaBitmask {
  import opened Wrappers
  import opened MetaTypes
  import opened MetaConstants


  /** How the constant was added: as a plain tag, or as a pair whose second element is a type. */
  datatype BitmaskId = Tag | Pair(second: Entity)

  /** The parts of the world the operation reads. */
  datatype BitmaskWorld = BitmaskWorld(
    u32: Entity,        // the entity of ecs_u32_t
    pairValue: int,     // the u32 held by the constant's (EcsConstant, u32) pair
    name: string)       // the constant's name

  /**
   * `Undefined` stands for a left shift by 32 or more, which C leaves
   * undefined: it is reached once the map holds 32 constants.
   */
  datatype BitmaskResult = Added | Failed | Undefined

  /** The `EcsBitmask` component. */
  datatype BitmaskState = BitmaskState(constants: map<int, Constant>, ordered: seq<Constant>)

  /** Every value is an unsigned 32-bit integer. */
  predicate U32Values(s: seq<Constant>)
  {
    forall i :: 0 <= i < |s| ==> 0 <= s[i].value < U32Limit
  }

  predicate ValidBitmask(st: BitmaskState)
  {
    Tables(st.constants, st.ordered) && U32Values(st.ordered)
  }

  /** The result, the new component, and the value written to the constant's two u32 fields. */
  datatype BitmaskOutcome = BitmaskOutcome(result: BitmaskResult, state: BitmaskState, written: Option<int>)

  function Pow2(n: nat): (r: nat)
    ensures r >= 1
  {
    if n == 0 then 1 else 2 * Pow2(n - 1)
  }

  /** 2 to the 32: one above the largest u32. */
  const U32Limit: nat := Pow2(32)

  lemma {:induction false} Pow2Monotone(a: nat, b: nat)
    requires a < b
    ensures Pow2(a) < Pow2(b)
    decreases b
  {
    if a < b - 1 {
      Pow2Monotone(a, b - 1);
    }
  }

  /** `1u << n` is defined for n below 32 and fits in 32 bits. */
  lemma Pow2Fits(n: nat)
    requires n < 32
    ensures Pow2(n) < U32Limit
  {
    Pow2Monotone(n, 32);
  }

  /** The value a tag constant gets when `count` constants are left in the map. */
  function TagValue(count: nat): (v: Option<int>)
    ensures count < 32 <==> v.Some?
    ensures v.Some? ==> v.value == Pow2(count) && 0 < v.value < U32Limit
  {
    if count < 32 then
      Pow2Fits(count);
      Some(Pow2(count))
    else None
  }

  /**
   * The part of the operation after the old entries are removed: choosing
   * the value, refusing a value in use, inserting and writing back.
   */
  function BitmaskPlace(st2: BitmaskState, w: BitmaskWorld, e: Entity, id: BitmaskId): BitmaskOutcome
  {
    if id.Pair? && id.second != w.u32 then BitmaskOutcome(Failed, st2, None)
    else
      var v := if id.Pair? then Some(w.pairValue) else TagValue(|st2.constants|);
      if v.None? then BitmaskOutcome(Undefined, st2, None)
      else if v.value in st2.constants then BitmaskOutcome(Failed, st2, None)
      else
        var c := Constant(w.name, v.value, e);
        BitmaskOutcome(Added, st2.(constants := st2.constants[v.value := c], ordered := st2.ordered + [c]), Some(v.value))
  }

  /** The removal of e's old entries, as intended: the vector loses the element for e. */
  function Removal(st: BitmaskState, e: Entity): BitmaskState
  {
    BitmaskState(WithoutConstant(st.constants, e), RemoveFirst(st.ordered, e))
  }

  /** `flecs_add_constant_to_bitmask`, with the intended removal. */
  function BitmaskAdd(st: BitmaskState, w: BitmaskWorld, e: Entity, id: BitmaskId): BitmaskOutcome
  {
    BitmaskPlace(Removal(st, e), w, e, id)
  }

  // ---------------------------------------------------------------------
  // The removal as written

  /**
   * The removal as the code writes it: the map entries for e go, but the
   * vector is searched for an element whose constant entity equals the
   * removed entry's value, not e. With consistent tables the removed map
   * entry is the vector's element for e.
   */
  function RemovalAsWritten(st: BitmaskState, e: Entity): BitmaskState
  {
    var i := FirstWith(st.ordered, e);
    var s := if i < |st.ordered| && st.ordered[i].value >= 0 then RemoveFirst(st.ordered, st.ordered[i].value) else st.ordered;
    BitmaskState(WithoutConstant(st.constants, e), s)
  }

  function BitmaskAddAsWritten(st: BitmaskState, w: BitmaskWorld, e: Entity, id: BitmaskId): BitmaskOutcome
  {
    BitmaskPlace(RemovalAsWritten(st, e), w, e, id)
  }

  /**
   * Re-adding the only constant of a bitmask: constant entity 100 with the
   * value 1. As written, the vector search looks for entity 1, finds none,
   * and the vector ends up listing entity 100 twice; with the intended
   * removal it lists it once.
   */
  lemma ReAddDuplicatesAsWritten()
    ensures var a := Constant("A", 1, 100);
      var st := BitmaskState(map[1 := a], [a]);
      var w := BitmaskWorld(7, 0, "A");
      BitmaskAddAsWritten(st, w, 100, Tag).state.ordered == [a, a] &&
      !Distinct(BitmaskAddAsWritten(st, w, 100, Tag).state.ordered) &&
      BitmaskAdd(st, w, 100, Tag).state.ordered == [a]
  {
    var a := Constant("A", 1, 100);
    var st := BitmaskState(map[1 := a], [a]);
    assert FirstWith([a], 1) == 1;
    assert FirstWith([a], 100) == 0;
    assert RemoveFirst([a], 100) == [];
    assert WithoutConstant(st.constants, 100) == map[];
    assert TagValue(0) == Some(1);
    var r := BitmaskAddAsWritten(st, BitmaskWorld(7, 0, "A"), 100, Tag).state.ordered;
    assert r == [a, a];
    assert r[0].constant == r[1].constant;
  }

  // ---------------------------------------------------------------------
  // Properties of the intended operation

  /** The intended removal keeps the tables consistent and leaves no entry for e. */
  lemma RemovalKeepsTables(st: BitmaskState, e: Entity)
    requires ValidBitmask(st)
    ensures ValidBitmask(Removal(st, e))
    ensures forall j :: 0 <= j < |Removal(st, e).ordered| ==> Removal(st, e).ordered[j].constant != e
  {
    MapOfRemoveFirst(st.ordered, e);
    RemoveFirstClears(st.ordered, e);
    var i := FirstWith(st.ordered, e);
    var r := Removal(st, e).ordered;
    if i < |st.ordered| {
      forall j | 0 <= j < |r|
        ensures 0 <= r[j].value < U32Limit
      {
        assert r[j] == st.ordered[if j < i then j else j + 1];
      }
    }
  }

  /** Appending a constant whose value and entity are unused keeps the tables consistent. */
  lemma AppendKeepsTables(st2: BitmaskState, c: Constant)
    requires ValidBitmask(st2) && 0 <= c.value < U32Limit && c.value !in st2.constants
    requires forall j :: 0 <= j < |st2.ordered| ==> st2.ordered[j].constant != c.constant
    ensures ValidBitmask(st2.(constants := st2.constants[c.value := c], ordered := st2.ordered + [c]))
  {
    MapOfAppend(st2.ordered, c);
    var s := st2.ordered + [c];
    forall i, j | 0 <= i < j < |s|
      ensures s[i].value != s[j].value && s[i].constant != s[j].constant
    {
      if j == |s| - 1 {
        assert s[i] == st2.ordered[i] && s[i].value in st2.constants;
      }
    }
  }

  /** Placing a constant for e, absent from the tables, keeps them consistent. */
  lemma PlaceKeepsTables(st2: BitmaskState, w: BitmaskWorld, e: Entity, id: BitmaskId)
    requires ValidBitmask(st2) && 0 <= w.pairValue < U32Limit
    requires forall j :: 0 <= j < |st2.ordered| ==> st2.ordered[j].constant != e
    ensures ValidBitmask(BitmaskPlace(st2, w, e, id).state)
  {
    var r := BitmaskPlace(st2, w, e, id);
    if r.result == Added {
      var c := Constant(w.name, r.written.value, e);
      AppendKeepsTables(st2, c);
      assert r.state == st2.(constants := st2.constants[c.value := c], ordered := st2.ordered + [c]);
    } else {
      assert r.state == st2;
    }
  }

  /** Every outcome keeps the tables consistent and all values unsigned 32-bit. */
  lemma BitmaskAddKeepsTables(st: BitmaskState, w: BitmaskWorld, e: Entity, id: BitmaskId)
    requires ValidBitmask(st) && 0 <= w.pairValue < U32Limit
    ensures ValidBitmask(BitmaskAdd(st, w, e, id).state)
  {
    RemovalKeepsTables(st, e);
    PlaceKeepsTables(Removal(st, e), w, e, id);
  }

  /**
   * A tag constant is numbered with the bit whose position is the number of
   * other constants; it is refused exactly when that bit is already a value,
   * and the shift is undefined from 32 other constants on.
   */
  lemma BitmaskTagValue(st: BitmaskState, w: BitmaskWorld, e: Entity)
    requires ValidBitmask(st)
    ensures var n := |WithoutConstant(st.constants, e)|;
      var r := BitmaskAdd(st, w, e, Tag);
      (r.result == Undefined <==> n >= 32) &&
      (n < 32 ==> (r.result == Failed <==> exists j :: 0 <= j < |st.ordered| && st.ordered[j].value == Pow2(n) && st.ordered[j].constant != e)) &&
      (r.result == Added ==> r.written == Some(Pow2(n)) && r.state.ordered == RemoveFirst(st.ordered, e) + [Constant(w.name, Pow2(n), e)])
  {
    var n := |WithoutConstant(st.constants, e)|;
    if n < 32 {
      ValueInUse(st, e, Pow2(n));
    }
  }

  /**
   * A pair constant must name u32 as its second element; with it, its value
   * is the pair's, refused exactly when another constant already has it.
   */
  lemma BitmaskPairValue(st: BitmaskState, w: BitmaskWorld, e: Entity, second: Entity)
    requires ValidBitmask(st)
    ensures var r := BitmaskAdd(st, w, e, Pair(second));
      (second != w.u32 ==> r.result == Failed && r.state == Removal(st, e)) &&
      (second == w.u32 ==>
        (r.result == Failed <==> exists j :: 0 <= j < |st.ordered| && st.ordered[j].value == w.pairValue && st.ordered[j].constant != e) &&
        (r.result == Added ==> r.written == Some(w.pairValue)))
  {
    ValueInUse(st, e, w.pairValue);
  }

  /** A value is a key of the map without e exactly when a constant other than e has it. */
  lemma ValueInUse(st: BitmaskState, e: Entity, v: int)
    requires ValidBitmask(st)
    ensures v in WithoutConstant(st.constants, e) <==>
      exists j :: 0 <= j < |st.ordered| && st.ordered[j].value == v && st.ordered[j].constant != e
  {
    if v in WithoutConstant(st.constants, e) {
      MapOfFrom(st.ordered, v);
    } else {
      forall j | 0 <= j < |st.ordered| && st.ordered[j].value == v
        ensures st.ordered[j].constant == e
      {
        MapOfAt(st.ordered, j);
      }
    }
  }

  // ---------------------------------------------------------------------
  // The component, updated in place

  class BitmaskComponent {
    var constants: map<int, Constant>
    var ordered: seq<Constant>

    function State(): BitmaskState
      reads this
    {
      BitmaskState(constants, ordered)
    }

    predicate Valid()
      reads this
    {
      ValidBitmask(State())
    }

    /** A freshly ensured EcsBitmask: no constants. */
    constructor ()
      ensures State() == BitmaskState(map[], []) && Valid()
    {
      constants, ordered := map[], [];
    }

    /** `flecs_add_constant_to_bitmask`; `written` is the value stored on the constant, if any. */
    method AddConstant(w: BitmaskWorld, e: Entity, id: BitmaskId) returns (r: BitmaskResult, written: Option<int>)
      requires Valid() && 0 <= w.pairValue < U32Limit
      modifies this
      ensures BitmaskOutcome(r, State(), written) == BitmaskAdd(old(State()), w, e, id)
      ensures Valid()
    {
      BitmaskAddKeepsTables(State(), w, e, id);
      constants, ordered := RemoveEntries(constants, ordered, e);
      r, written := Place(w, e, id);
    }

    /** The value choice, the conflict check and the insertion. */
    method Place(w: BitmaskWorld, e: Entity, id: BitmaskId) returns (r: BitmaskResult, written: Option<int>)
      requires Tables(constants, ordered)
      modifies this
      ensures BitmaskOutcome(r, State(), written) == BitmaskPlace(old(State()), w, e, id)
    {
      var value := 1;
      if id.Pair? {
        if id.second != w.u32 {
          return Failed, None;
        }
        value := w.pairValue;
      } else {
        var count := |constants|;
        if count >= 32 {
          return Undefined, None;
        }
        Pow2Fits(count);
        value := Pow2(count);
      }
      var inUse := FindValue(constants, value);
      if inUse {
        return Failed, None;
      }
      var c := Constant(w.name, value, e);
      constants := constants[value := c];
      ordered := ordered + [c];
      return Added, Some(value);
    }
  }
}
