// Struct reflection in the meta addon: `flecs_set_struct_member`,
// `flecs_add_member_to_struct` and the `EcsMember` on-set hook.
//
// Adding a member entity to a struct first validates the member's name,
// type and unit, then updates the struct's member vector (in place when the
// member entity is already listed, by appending otherwise), then computes the
// layout. Without explicit offsets every member is placed at the running size
// rounded up to its type's alignment, the struct alignment is the largest
// member alignment, and the struct size is the total rounded up to that
// alignment. Finally the struct is (re)registered with `flecs_init_type`.

module MetaStruct {
  import opened Wrappers
  import opened MetaTypes

  // ---------------------------------------------------------------------
  // Data

  datatype Range = Range(min: real, max: real)

  /** `EcsMemberRanges`: value, error and warning ranges. */
  datatype MemberRanges = MemberRanges(value: Range, error: Range, warning: Range)

  const ZeroRanges := MemberRanges(Range(0.0, 0.0), Range(0.0, 0.0), Range(0.0, 0.0))

  /** An element of the struct's member vector (`ecs_member_t`). */
  datatype Member = Member(
    member: Entity, name: string, typ: Entity, count: int,
    offset: int, size: int, unit: Entity, ranges: MemberRanges)

  /** A freshly appended vector element before it is filled in. */
  const BlankMember := Member(0, "", 0, 0, 0, 0, 0, ZeroRanges)

  /** The `EcsMember` component of a member entity; a fresh one is all zero. */
  datatype MemberDecl = MemberDecl(typ: Entity, count: int, unit: Entity, offset: int, useOffset: bool)

  const BlankDecl := MemberDecl(0, 0, 0, 0, false)

  /** What the member code reads from the world but never writes. */
  datatype Oracle = Oracle(
    names: map<Entity, string>,      // ecs_get_name
    typeIds: set<Entity>,            // entities whose ecs_get_typeid is not 0
    units: set<Entity>,              // entities with the EcsUnit component
    unitBases: map<Entity, Entity>)  // the IsA target of a unit that is itself a unit

  /** The components the member code reads and writes. */
  datatype StructState = StructState(
    structs: map<Entity, seq<Member>>,   // EcsStruct member vectors
    decls: map<Entity, MemberDecl>,      // EcsMember components
    types: map<Entity, TypeEntity>)      // EcsType and EcsComponent

  /** The EcsType/EcsComponent pair of an entity; an entity without them reads as fresh. */
  function TypeOf(types: map<Entity, TypeEntity>, e: Entity): (t: TypeEntity)
    ensures e !in types ==> t == TypeEntity(FreshMetaType, None)
  {
    if e in types then types[e] else TypeEntity(FreshMetaType, None)
  }

  function CompOf(types: map<Entity, TypeEntity>, e: Entity): Option<Component>
  {
    TypeOf(types, e).comp
  }

  /** Component alignments are never negative, and types are well formed. */
  predicate WorldInvariant(types: map<Entity, TypeEntity>)
  {
    forall e :: e in types ==>
      WellFormed(types[e]) && (types[e].comp.Some? ==> types[e].comp.value.alignment >= 0)
  }

  // ---------------------------------------------------------------------
  // Alignment

  lemma {:induction false} MulAtLeast(k: int, a: int)
    requires k >= 1 && a > 0
    ensures k * a >= a
    decreases k
  {
    if k > 1 {
      MulAtLeast(k - 1, a);
      assert k * a == (k - 1) * a + a;
    }
  }

  lemma MulNegative(k: int, a: int)
    requires k <= -1 && a > 0
    ensures k * a < 0
  {
    MulAtLeast(-k, a);
    assert k * a == -((-k) * a);
  }

  /** A multiple of a positive number leaves no remainder. */
  lemma MultipleHasNoRemainder(q: int, a: int)
    requires a > 0
    ensures (q * a) % a == 0
  {
    var d := (q * a) / a;
    var r := (q * a) % a;
    assert q * a == d * a + r;
    assert (q - d) * a == r;
    if q - d >= 1 {
      MulAtLeast(q - d, a);
    } else if q - d <= -1 {
      MulNegative(q - d, a);
    }
  }

  /** `ECS_ALIGN`: round up to the next multiple of the alignment. */
  function Align(x: int, a: int): (r: int)
    requires a > 0
    ensures r % a == 0
    ensures x <= r < x + a
  {
    var q := (x + a - 1) / a;
    MultipleHasNoRemainder(q, a);
    assert x + a - 1 == q * a + (x + a - 1) % a;
    q * a
  }

  /** The rounded value is the least multiple of the alignment that is not below the input. */
  lemma AlignIsLeast(x: int, a: int, m: int)
    requires a > 0 && m % a == 0 && m >= x
    ensures Align(x, a) <= m
  {
    var r := Align(x, a);
    if m < r {
      var qr := r / a;
      var qm := m / a;
      assert r == qr * a;
      assert m == qm * a;
      assert (qr - qm) * a == r - m;
      if qr - qm >= 1 {
        MulAtLeast(qr - qm, a);
      } else if qr - qm <= -1 {
        MulNegative(qr - qm, a);
      }
    }
  }

  function Max(a: int, b: int): int { if a >= b then a else b }

  // ---------------------------------------------------------------------
  // Member vector updates

  /** `flecs_set_struct_member`; a count of 0 is stored as 1, missing ranges as zero. */
  function SetStructMember(
    prev: Member, entity: Entity, name: string, typ: Entity, count: int, offset: int,
    unit: Entity, ranges: Option<MemberRanges>): (m: Member)
    ensures m.member == entity && m.name == name && m.typ == typ && m.unit == unit && m.offset == offset
    ensures m.count == (if count == 0 then 1 else count)
    ensures m.count != 0
    ensures m.ranges == ranges.GetOr(ZeroRanges)
    ensures m.size == prev.size
  {
    Member(entity, name, typ, if count == 0 then 1 else count, offset, prev.size, unit,
      match ranges case Some(rg) => rg case None => ZeroRanges)
  }

  /** The index of the first element for the member entity, or the length when absent. */
  function IndexOf(ms: seq<Member>, e: Entity): (i: nat)
    ensures i <= |ms|
    ensures i < |ms| ==> ms[i].member == e
    ensures forall j :: 0 <= j < i ==> ms[j].member != e
  {
    if |ms| == 0 then 0
    else if ms[0].member == e then 0
    else 1 + IndexOf(ms[1..], e)
  }

  /** The search loop of `flecs_add_member_to_struct`. */
  method FindMember(ms: seq<Member>, e: Entity) returns (i: nat)
    ensures i == IndexOf(ms, e)
  {
    i := 0;
    while i < |ms| && ms[i].member != e
      invariant i <= |ms|
      invariant forall j :: 0 <= j < i ==> ms[j].member != e
    {
      i := i + 1;
    }
    IndexOfUnique(ms, e, i);
  }

  /** Any index with no earlier occurrence and a match (or the end) is the one IndexOf finds. */
  lemma {:induction false} IndexOfUnique(ms: seq<Member>, e: Entity, i: nat)
    requires i <= |ms| && (i < |ms| ==> ms[i].member == e)
    requires forall j :: 0 <= j < i ==> ms[j].member != e
    ensures IndexOf(ms, e) == i
  {
    var k := IndexOf(ms, e);
    assert k < |ms| ==> ms[k].member == e;
    assert i < |ms| ==> ms[i].member == e;
  }

  /**
   * The member vector after the update step: the existing element for the
   * entity is rewritten in place, or a new element is appended.
   */
  function UpsertMember(
    ms: seq<Member>, entity: Entity, name: string, typ: Entity, count: int, offset: int,
    unit: Entity, ranges: Option<MemberRanges>): (r: seq<Member>)
    ensures var i := IndexOf(ms, entity);
      i < |r| && r[i] == SetStructMember(if i < |ms| then ms[i] else BlankMember,
                                           entity, name, typ, count, offset, unit, ranges)
    ensures IndexOf(ms, entity) < |ms| ==> |r| == |ms| && forall j :: 0 <= j < |ms| && j != IndexOf(ms, entity) ==> r[j] == ms[j]
    ensures IndexOf(ms, entity) == |ms| ==> |r| == |ms| + 1 && r[..|ms|] == ms
    ensures IndexOf(r, entity) == IndexOf(ms, entity)
  {
    var i := IndexOf(ms, entity);
    var r := if i < |ms| then ms[i := SetStructMember(ms[i], entity, name, typ, count, offset, unit, ranges)]
             else ms + [SetStructMember(BlankMember, entity, name, typ, count, offset, unit, ranges)];
    IndexOfUnique(r, entity, i);
    r
  }

  /** Re-adding a member entity already listed keeps the vector's length and the other elements. */
  lemma UpsertExistingInPlace(ms: seq<Member>, e: Entity, name: string, typ: Entity, count: int,
                              offset: int, unit: Entity, ranges: Option<MemberRanges>)
    requires exists j :: 0 <= j < |ms| && ms[j].member == e
    ensures var r := UpsertMember(ms, e, name, typ, count, offset, unit, ranges);
      |r| == |ms| && (forall j :: 0 <= j < |ms| && ms[j].member != e ==> r[j] == ms[j])
  {
    var j :| 0 <= j < |ms| && ms[j].member == e;
    assert IndexOf(ms, e) <= j;
  }

  /** A member entity that is not listed is appended at the end, after all the others. */
  lemma UpsertNewAppends(ms: seq<Member>, e: Entity, name: string, typ: Entity, count: int,
                         offset: int, unit: Entity, ranges: Option<MemberRanges>)
    requires forall j :: 0 <= j < |ms| ==> ms[j].member != e
    ensures var r := UpsertMember(ms, e, name, typ, count, offset, unit, ranges);
      |r| == |ms| + 1 && r[..|ms|] == ms && r[|ms|].member == e && r[|ms|].name == name
  {
    IndexOfUnique(ms, e, |ms|);
  }

  // ---------------------------------------------------------------------
  // Implicit layout

  /** The member's type has a component record with non-zero size and alignment. */
  predicate LaidOut(types: map<Entity, TypeEntity>, m: Member)
  {
    CompOf(types, m.typ).Some? && CompOf(types, m.typ).value.size != 0 && CompOf(types, m.typ).value.alignment != 0
  }

  function AlignOf(types: map<Entity, TypeEntity>, m: Member): int
  {
    if CompOf(types, m.typ).Some? then CompOf(types, m.typ).value.alignment else 0
  }

  /** The member's size: its type's size times its count. */
  function SizeOf(types: map<Entity, TypeEntity>, m: Member): int
  {
    if CompOf(types, m.typ).Some? then CompOf(types, m.typ).value.size * m.count else 0
  }

  /** The largest alignment of the members. */
  function MaxAlign(types: map<Entity, TypeEntity>, ms: seq<Member>): (r: int)
    ensures r >= 0
    ensures forall j :: 0 <= j < |ms| ==> AlignOf(types, ms[j]) <= r
  {
    if |ms| == 0 then 0 else Max(MaxAlign(types, ms[..|ms| - 1]), AlignOf(types, ms[|ms| - 1]))
  }

  /** The state of the layout loop: the vector, the EcsMember records, the running size and alignment. */
  datatype Layout = Layout(ok: bool, members: seq<Member>, decls: map<Entity, MemberDecl>, size: int, alignment: int)

  /** Where the running size ends after member j. */
  function EndOf(ms: seq<Member>, j: int): int
    requires -1 <= j < |ms|
  {
    if j < 0 then 0 else ms[j].offset + ms[j].size
  }

  /** The EcsMember offset synchronisation: `ecs_ensure` creates a blank record when missing. */
  function SyncOffset(decls: map<Entity, MemberDecl>, e: Entity, offset: int): (r: map<Entity, MemberDecl>)
    ensures e in r && r[e].offset == offset
    ensures forall x :: x in decls && x != e ==> x in r && r[x] == decls[x]
    ensures r.Keys == decls.Keys + {e}
  {
    decls[e := (if e in decls then decls[e] else BlankDecl).(offset := offset)]
  }

  /** One iteration of the implicit layout loop, on member j. */
  function LayoutStep(types: map<Entity, TypeEntity>, st: Layout, j: nat): Layout
    requires WorldInvariant(types)
    requires j < |st.members| && st.alignment >= 0
  {
    if !st.ok then st
    else
      var e := st.members[j];
      if !LaidOut(types, e) then st.(ok := false)
      else
        var c := CompOf(types, e.typ).value;
        assert c.alignment > 0 by { assert e.typ in types; }
        var off := Align(st.size, c.alignment);
        st.(members := st.members[j := e.(size := c.size * e.count, offset := off)],
            decls := SyncOffset(st.decls, e.member, off),
            size := off + c.size * e.count,
            alignment := Max(st.alignment, c.alignment))
  }

  /** The layout loop after its first k iterations. */
  function LayoutPrefix(types: map<Entity, TypeEntity>, ms: seq<Member>, decls: map<Entity, MemberDecl>, k: nat): (r: Layout)
    requires WorldInvariant(types)
    requires k <= |ms|
    ensures |r.members| == |ms| && r.alignment >= 0
    ensures forall j :: k <= j < |ms| ==> r.members[j] == ms[j]
    ensures r.ok <==> forall j :: 0 <= j < k ==> LaidOut(types, ms[j])
    decreases k
  {
    if k == 0 then Layout(true, ms, decls, 0, 0)
    else LayoutStep(types, LayoutPrefix(types, ms, decls, k - 1), k - 1)
  }

  /**
   * What a successful layout of the first k members establishes: each keeps
   * its fields except that its size is its type's size times its count and
   * its offset is the end of the previous member rounded up to its type's
   * alignment; the running size is the end of the last member; the running
   * alignment is the largest member alignment.
   */
  predicate Placed(types: map<Entity, TypeEntity>, ms: seq<Member>, r: Layout, k: nat)
    requires k <= |ms| == |r.members|
  {
    (forall j :: 0 <= j < k ==>
      AlignOf(types, ms[j]) > 0 &&
      r.members[j] == ms[j].(size := SizeOf(types, ms[j]), offset := r.members[j].offset) &&
      r.members[j].offset == Align(EndOf(r.members, j - 1), AlignOf(types, ms[j]))) &&
    r.size == EndOf(r.members, k - 1) &&
    r.alignment == MaxAlign(types, ms[..k])
  }

  lemma {:induction false} LayoutPrefixPlaced(types: map<Entity, TypeEntity>, ms: seq<Member>, decls: map<Entity, MemberDecl>, k: nat)
    requires WorldInvariant(types)
    requires k <= |ms|
    ensures var r := LayoutPrefix(types, ms, decls, k); r.ok ==> Placed(types, ms, r, k)
    decreases k
  {
    var r := LayoutPrefix(types, ms, decls, k);
    if k > 0 && r.ok {
      var prev := LayoutPrefix(types, ms, decls, k - 1);
      LayoutPrefixPlaced(types, ms, decls, k - 1);
      LayoutStepPlaced(types, ms, prev, k);
    }
  }

  /** One loop iteration extends a successful layout of k - 1 members to k members. */
  lemma LayoutStepPlaced(types: map<Entity, TypeEntity>, ms: seq<Member>, prev: Layout, k: nat)
    requires WorldInvariant(types)
    requires 0 < k <= |ms| == |prev.members|
    requires prev.alignment >= 0 && prev.ok
    requires prev.members[k - 1] == ms[k - 1]
    requires Placed(types, ms, prev, k - 1)
    requires LayoutStep(types, prev, k - 1).ok
    ensures Placed(types, ms, LayoutStep(types, prev, k - 1), k)
  {
    var r := LayoutStep(types, prev, k - 1);
    var e := ms[k - 1];
    assert LaidOut(types, e);
    assert e.typ in types;
    var c := CompOf(types, e.typ).value;
    var off := Align(prev.size, c.alignment);
    assert r.members == prev.members[k - 1 := e.(size := c.size * e.count, offset := off)];
    assert r.size == off + c.size * e.count;
    forall j | 0 <= j < k
      ensures AlignOf(types, ms[j]) > 0
      ensures r.members[j] == ms[j].(size := SizeOf(types, ms[j]), offset := r.members[j].offset)
      ensures r.members[j].offset == Align(EndOf(r.members, j - 1), AlignOf(types, ms[j]))
    {
      if j < k - 1 {
        assert r.members[j] == prev.members[j];
        assert EndOf(r.members, j - 1) == EndOf(prev.members, j - 1);
      } else {
        assert EndOf(r.members, j - 1) == EndOf(prev.members, k - 2) == prev.size;
      }
    }
    assert ms[..k][..k - 1] == ms[..k - 1];
  }

  /** Once a member has failed, the remaining iterations change nothing. */
  lemma {:induction false} LayoutFailedStays(types: map<Entity, TypeEntity>, ms: seq<Member>, decls: map<Entity, MemberDecl>, j: nat, k: nat)
    requires WorldInvariant(types)
    requires j <= k <= |ms|
    requires !LayoutPrefix(types, ms, decls, j).ok
    ensures LayoutPrefix(types, ms, decls, k) == LayoutPrefix(types, ms, decls, j)
    decreases k
  {
    if k > j {
      LayoutFailedStays(types, ms, decls, j, k - 1);
    }
  }

  /** Every member placed by a successful layout sits at an offset aligned to its type's alignment. */
  lemma LayoutOffsetsAligned(types: map<Entity, TypeEntity>, ms: seq<Member>, decls: map<Entity, MemberDecl>)
    requires WorldInvariant(types)
    requires LayoutPrefix(types, ms, decls, |ms|).ok
    ensures var r := LayoutPrefix(types, ms, decls, |ms|).members;
      forall j :: 0 <= j < |ms| ==> r[j].offset % AlignOf(types, ms[j]) == 0
  {
    LayoutPrefixPlaced(types, ms, decls, |ms|);
  }

  /** Consecutive members of a successful layout do not overlap. */
  lemma LayoutNoOverlap(types: map<Entity, TypeEntity>, ms: seq<Member>, decls: map<Entity, MemberDecl>)
    requires WorldInvariant(types)
    requires LayoutPrefix(types, ms, decls, |ms|).ok
    ensures var r := LayoutPrefix(types, ms, decls, |ms|).members;
      forall j :: 0 < j < |ms| ==> r[j - 1].offset + r[j - 1].size <= r[j].offset
  {
    LayoutPrefixPlaced(types, ms, decls, |ms|);
    var r := LayoutPrefix(types, ms, decls, |ms|).members;
    forall j | 0 < j < |ms|
      ensures r[j - 1].offset + r[j - 1].size <= r[j].offset
    {
      assert r[j].offset == Align(EndOf(r, j - 1), AlignOf(types, ms[j]));
    }
  }

  /**
   * Each member is placed at the lowest offset that is aligned for its type
   * and does not overlap the member before it.
   */
  lemma LayoutOffsetsTight(types: map<Entity, TypeEntity>, ms: seq<Member>, decls: map<Entity, MemberDecl>, j: nat, p: int)
    requires WorldInvariant(types)
    requires LayoutPrefix(types, ms, decls, |ms|).ok
    requires j < |ms|
    requires p % AlignOf(types, ms[j]) == 0
    requires p >= EndOf(LayoutPrefix(types, ms, decls, |ms|).members, j - 1)
    ensures LayoutPrefix(types, ms, decls, |ms|).members[j].offset <= p
  {
    LayoutPrefixPlaced(types, ms, decls, |ms|);
    var r := LayoutPrefix(types, ms, decls, |ms|).members;
    AlignIsLeast(EndOf(r, j - 1), AlignOf(types, ms[j]), p);
  }

  // ---------------------------------------------------------------------
  // Adding a member to a struct

  /** The unit check and inference; None is the error return. */
  function ResolveUnit(o: Oracle, typ: Entity, unit: Entity): (r: Option<Entity>)
    ensures unit != 0 ==> (r.Some? <==> unit in o.units && (typ in o.units ==> typ == unit))
    ensures unit != 0 && r.Some? ==> r.value == unit
    ensures unit == 0 ==> r.Some?
    ensures unit == 0 && typ !in o.units ==> r == Some(0)
    ensures unit == 0 && typ in o.units ==>
      r == Some(if typ in o.unitBases && o.unitBases[typ] != 0 then o.unitBases[typ] else typ)
  {
    if unit != 0 then
      if unit !in o.units then None
      else if typ in o.units && typ != unit then None
      else Some(unit)
    else if typ in o.units then
      var base := if typ in o.unitBases then o.unitBases[typ] else 0;
      Some(if base != 0 then base else typ)
    else Some(0)
  }

  datatype Outcome = Outcome(status: Status, state: StructState)

  /** The checks on the member entity that come before anything is written. */
  predicate MemberAccepted(o: Oracle, m: MemberDecl, member: Entity)
  {
    member in o.names && m.typ != 0 && m.typ in o.typeIds && ResolveUnit(o, m.typ, m.unit).Some?
  }

  /** The tail of the operation: size and alignment checks, init_type, self-member fix-up. */
  function Finish(st: StructState, typ: Entity, size: int, alignment: int): (r: Outcome)
    requires WorldInvariant(st.types) && alignment >= 0
    ensures WorldInvariant(r.state.types)
    ensures size == 0 || alignment == 0 ==> r == Outcome(Err, st)
  {
    if size == 0 || alignment == 0 then Outcome(Err, st)
    else
      var total := Align(size, alignment);
      var init := InitType(TypeOf(st.types, typ), StructType, total, alignment);
      var st1 := st.(types := st.types[typ := init.entity]);
      if init.status == Err then Outcome(Err, st1)
      else if typ in st1.decls then
        Outcome(Ok, st1.(decls := st1.decls[typ := st1.decls[typ].(typ := typ, count := 1)]))
      else Outcome(Ok, st1)
  }

  /** The member's EcsMember after the unit step. */
  function ResolvedDecl(o: Oracle, st: StructState, member: Entity): (m: MemberDecl)
    requires member in st.decls && MemberAccepted(o, st.decls[member], member)
    ensures m == st.decls[member].(unit := m.unit)
  {
    var m := st.decls[member];
    m.(unit := ResolveUnit(o, m.typ, m.unit).value)
  }

  /** The member vector after the member entity is updated in place or appended. */
  function UpdatedMembers(o: Oracle, st: StructState, typ: Entity, member: Entity, ranges: Option<MemberRanges>): (ms: seq<Member>)
    requires member in st.decls && MemberAccepted(o, st.decls[member], member)
    ensures |ms| > 0
  {
    var m := ResolvedDecl(o, st, member);
    var ms0 := if typ in st.structs then st.structs[typ] else [];
    UpsertMember(ms0, member, o.names[member], m.typ, m.count, m.offset, m.unit, ranges)
  }

  /** The implicit-offset path after the member vector is updated: the layout loop, then the tail. */
  function ImplicitTail(st: StructState, typ: Entity, ms: seq<Member>): (r: Outcome)
    requires WorldInvariant(st.types)
    ensures WorldInvariant(r.state.types)
  {
    var lay := LayoutPrefix(st.types, ms, st.decls, |ms|);
    var st2 := st.(structs := st.structs[typ := lay.members], decls := lay.decls);
    if !lay.ok then Outcome(Err, st2)
    else Finish(st2, typ, lay.size, lay.alignment)
  }

  /**
   * The explicit-offset path: only member i is sized, the struct size is its
   * end, and the alignment is the struct's own if it has a component record,
   * the member's otherwise.
   */
  function ExplicitTail(st: StructState, typ: Entity, ms: seq<Member>, i: nat): (r: Outcome)
    requires WorldInvariant(st.types) && i < |ms|
    ensures WorldInvariant(r.state.types)
  {
    var e := ms[i];
    if !LaidOut(st.types, e) then Outcome(Err, st.(structs := st.structs[typ := ms]))
    else
      var c := CompOf(st.types, e.typ).value;
      var own := CompOf(st.types, typ);
      var alignment := if own.Some? then own.value.alignment else c.alignment;
      assert alignment >= 0 by { assert e.typ in st.types; }
      Finish(st.(structs := st.structs[typ := ms[i := e.(size := c.size * e.count)]]), typ, e.offset + c.size * e.count, alignment)
  }

  /** `flecs_add_member_to_struct(world, type, member, m, ranges)`; m is the member's EcsMember. */
  function AddMemberToStruct(o: Oracle, st: StructState, typ: Entity, member: Entity, ranges: Option<MemberRanges>): (r: Outcome)
    requires WorldInvariant(st.types)
    requires typ != 0 && member != 0 && member in st.decls
    ensures WorldInvariant(r.state.types)
    ensures !MemberAccepted(o, st.decls[member], member) ==> r == Outcome(Err, st)
  {
    if !MemberAccepted(o, st.decls[member], member) then Outcome(Err, st)
    else
      var m := ResolvedDecl(o, st, member);
      var st1 := st.(decls := st.decls[member := m]);
      var ms := UpdatedMembers(o, st, typ, member, ranges);
      if m.offset == 0 && !m.useOffset then ImplicitTail(st1, typ, ms)
      else ExplicitTail(st1, typ, ms, IndexOf(if typ in st.structs then st.structs[typ] else [], member))
  }

  /**
   * A member without a name, without a type, whose type is not a type, or
   * with a unit that is not a unit or does not match a unit-typed member, is
   * refused and nothing is written.
   */
  lemma AddMemberRejects(o: Oracle, st: StructState, typ: Entity, member: Entity, ranges: Option<MemberRanges>)
    requires WorldInvariant(st.types)
    requires typ != 0 && member != 0 && member in st.decls
    requires var m := st.decls[member];
      member !in o.names || m.typ == 0 || m.typ !in o.typeIds ||
      (m.unit != 0 && (m.unit !in o.units || (m.typ in o.units && m.typ != m.unit)))
    ensures AddMemberToStruct(o, st, typ, member, ranges) == Outcome(Err, st)
  {
  }

  /**
   * A laid-out member vector: non-empty, every member's type has a size and
   * an alignment, every member's size is its type's size times its count,
   * every offset is aligned for the member's type, and no member overlaps
   * the one before it.
   */
  predicate WellLaidOut(types: map<Entity, TypeEntity>, ms: seq<Member>)
  {
    |ms| > 0 &&
    (forall j :: 0 <= j < |ms| ==>
      LaidOut(types, ms[j]) && AlignOf(types, ms[j]) > 0 &&
      ms[j].size == SizeOf(types, ms[j]) && ms[j].offset % AlignOf(types, ms[j]) == 0) &&
    (forall j :: 0 < j < |ms| ==> ms[j - 1].offset + ms[j - 1].size <= ms[j].offset)
  }

  /** The struct type is registered as a struct whose record covers the given size and alignment. */
  predicate RegisteredStruct(t: TypeEntity, size: int, alignment: int)
  {
    t.meta.kind == StructType && t.comp.Some? &&
    t.comp.value.size >= size && t.comp.value.alignment >= alignment &&
    (!t.meta.existing ==> t.comp == Some(Component(size, alignment)))
  }

  /** A successful layout of a non-empty vector is well laid out, with the size and alignment it reports. */
  lemma LayoutComplete(types: map<Entity, TypeEntity>, ms: seq<Member>, decls: map<Entity, MemberDecl>)
    requires WorldInvariant(types)
    requires |ms| > 0 && LayoutPrefix(types, ms, decls, |ms|).ok
    ensures var lay := LayoutPrefix(types, ms, decls, |ms|);
      WellLaidOut(types, lay.members) &&
      lay.size == EndOf(lay.members, |ms| - 1) &&
      lay.alignment == MaxAlign(types, lay.members) && lay.alignment > 0
  {
    var lay := LayoutPrefix(types, ms, decls, |ms|);
    LayoutPrefixPlaced(types, ms, decls, |ms|);
    LayoutNoOverlap(types, ms, decls);
    LayoutOffsetsAligned(types, ms, decls);
    assert ms[..|ms|] == ms;
    assert forall j :: 0 <= j < |ms| ==> lay.members[j].typ == ms[j].typ;
    MaxAlignSameTypes(types, lay.members, ms);
    assert AlignOf(types, ms[0]) > 0;
  }

  /**
   * With implicit offsets, a successful addition leaves the struct's member
   * vector well laid out, and registers the struct with a record covering the
   * end of the last member rounded up to the largest member alignment (and
   * exactly that size and alignment for a runtime struct).
   */
  lemma AddMemberImplicitLayout(o: Oracle, st: StructState, typ: Entity, member: Entity, ranges: Option<MemberRanges>)
    requires WorldInvariant(st.types)
    requires typ != 0 && member != 0 && member in st.decls
    requires st.decls[member].offset == 0 && !st.decls[member].useOffset
    requires AddMemberToStruct(o, st, typ, member, ranges).status == Ok
    ensures var r := AddMemberToStruct(o, st, typ, member, ranges).state;
      typ in r.structs && typ in r.types &&
      var ms := r.structs[typ];
      WellLaidOut(st.types, ms) &&
      RegisteredStruct(r.types[typ], Align(EndOf(ms, |ms| - 1), MaxAlign(st.types, ms)), MaxAlign(st.types, ms))
  {
    var m := ResolvedDecl(o, st, member);
    var decls1 := st.decls[member := m];
    var ms := UpdatedMembers(o, st, typ, member, ranges);
    var lay := LayoutPrefix(st.types, ms, decls1, |ms|);
    var st2 := StructState(st.structs[typ := lay.members], lay.decls, st.types);
    assert AddMemberToStruct(o, st, typ, member, ranges) == ImplicitTail(st.(decls := decls1), typ, ms);
    assert ImplicitTail(st.(decls := decls1), typ, ms) == Finish(st2, typ, lay.size, lay.alignment);
    LayoutComplete(st.types, ms, decls1);
    FinishOk(st2, typ, lay.size, lay.alignment);
  }

  /** A successful tail registers the struct with a record covering the rounded size and the alignment. */
  lemma FinishOk(st: StructState, typ: Entity, size: int, alignment: int)
    requires WorldInvariant(st.types) && alignment >= 0
    requires Finish(st, typ, size, alignment).status == Ok
    ensures var r := Finish(st, typ, size, alignment).state;
      alignment > 0 && r.structs == st.structs && typ in r.types &&
      r.types[typ].meta.kind == StructType && r.types[typ].comp.Some? &&
      r.types[typ].comp.value.size >= Align(size, alignment) &&
      r.types[typ].comp.value.alignment >= alignment &&
      (!r.types[typ].meta.existing ==> r.types[typ].comp == Some(Component(Align(size, alignment), alignment)))
  {
    InitTypeSuccessCovers(TypeOf(st.types, typ), StructType, Align(size, alignment), alignment);
  }

  lemma {:induction false} MaxAlignSameTypes(types: map<Entity, TypeEntity>, a: seq<Member>, b: seq<Member>)
    requires |a| == |b|
    requires forall j :: 0 <= j < |a| ==> a[j].typ == b[j].typ
    ensures MaxAlign(types, a) == MaxAlign(types, b)
    decreases |a|
  {
    if |a| > 0 {
      MaxAlignSameTypes(types, a[..|a| - 1], b[..|b| - 1]);
    }
  }

  /** `flecs_member_on_set`: a member count of 0 becomes 1; any other count is kept. */
  function MemberOnSet(m: MemberDecl): (r: MemberDecl)
    ensures r.count != 0
    ensures m.count != 0 ==> r == m
    ensures r == m.(count := r.count)
  {
    if m.count == 0 then m.(count := 1) else m
  }

  // ---------------------------------------------------------------------
  // The imperative operation

  /**
   * The implicit layout loop: members are visited in order, each placed at
   * the running size rounded up to its alignment, its EcsMember offset
   * synchronised; the first member whose type has no usable component record
   * stops the loop with the members before it already updated.
   */
  method ComputeLayout(types: map<Entity, TypeEntity>, ms: seq<Member>, decls: map<Entity, MemberDecl>) returns (lay: Layout)
    requires WorldInvariant(types)
    ensures lay == LayoutPrefix(types, ms, decls, |ms|)
  {
    lay := Layout(true, ms, decls, 0, 0);
    var j := 0;
    while j < |ms|
      invariant 0 <= j <= |ms|
      invariant lay == LayoutPrefix(types, ms, decls, j) && lay.ok
    {
      lay := PlaceMember(types, lay, j);
      if !lay.ok {
        LayoutFailedStays(types, ms, decls, j + 1, |ms|);
        return;
      }
      j := j + 1;
    }
  }

  /**
   * One iteration of the layout loop: the member's size becomes its type's
   * size times its count, its offset the running size rounded up to the
   * type's alignment, and the running size and alignment grow accordingly.
   */
  method PlaceMember(types: map<Entity, TypeEntity>, lay: Layout, j: nat) returns (next: Layout)
    requires WorldInvariant(types)
    requires lay.ok && j < |lay.members| && lay.alignment >= 0
    ensures next == LayoutStep(types, lay, j)
  {
    var e := lay.members[j];
    var c := if e.typ in types then types[e.typ].comp else None;
    if c.None? || c.value.size == 0 || c.value.alignment == 0 {
      return lay.(ok := false);
    }
    assert c.value.alignment > 0 by { assert e.typ in types; }
    var memberSize := c.value.size * e.count;
    var offset := Align(lay.size, c.value.alignment);
    var alignment := lay.alignment;
    if c.value.alignment > alignment {
      alignment := c.value.alignment;
    }
    next := Layout(true, lay.members[j := e.(size := memberSize, offset := offset)],
      SyncOffset(lay.decls, e.member, offset), offset + memberSize, alignment);
  }

  /** The world components the member code updates in place. */
  class MetaWorld {
    var structs: map<Entity, seq<Member>>
    var decls: map<Entity, MemberDecl>
    var types: map<Entity, TypeEntity>

    function State(): StructState
      reads this
    {
      StructState(structs, decls, types)
    }

    constructor (s: StructState)
      ensures State() == s
    {
      structs, decls, types := s.structs, s.decls, s.types;
    }

    /**
     * `flecs_add_member_to_struct`, updating the member vector and the
     * EcsMember records in place; an error midway leaves the members already
     * visited updated, as the C code does.
     */
    method AddMember(o: Oracle, typ: Entity, member: Entity, ranges: Option<MemberRanges>) returns (status: Status)
      requires WorldInvariant(types)
      requires typ != 0 && member != 0 && member in decls
      modifies this
      ensures Outcome(status, State()) == AddMemberToStruct(o, old(State()), typ, member, ranges)
    {
      ghost var st := State();
      if !MemberAccepted(o, decls[member], member) {
        return Err;
      }
      var m := ResolvedDecl(o, State(), member);
      decls := decls[member := m];
      var ms := if typ in structs then structs[typ] else [];
      var i := FindMember(ms, member);
      if i < |ms| {
        ms := ms[i := SetStructMember(ms[i], member, o.names[member], m.typ, m.count, m.offset, m.unit, ranges)];
      } else {
        ms := ms + [SetStructMember(BlankMember, member, o.names[member], m.typ, m.count, m.offset, m.unit, ranges)];
      }
      assert ms == UpdatedMembers(o, st, typ, member, ranges);
      assert i == IndexOf(if typ in st.structs then st.structs[typ] else [], member);

      if m.offset == 0 && !m.useOffset {
        status := ImplicitLayoutStep(typ, ms);
      } else {
        status := ExplicitLayoutStep(typ, ms, i);
      }
    }

    /** The implicit-offset path on the current state. */
    method ImplicitLayoutStep(typ: Entity, ms: seq<Member>) returns (status: Status)
      requires WorldInvariant(types)
      modifies this
      ensures Outcome(status, State()) == ImplicitTail(old(State()), typ, ms)
    {
      var lay := ComputeLayout(types, ms, decls);
      structs := structs[typ := lay.members];
      decls := lay.decls;
      if !lay.ok {
        return Err;
      }
      var fin := Finish(State(), typ, lay.size, lay.alignment);
      structs, decls, types := fin.state.structs, fin.state.decls, fin.state.types;
      return fin.status;
    }

    /** The explicit-offset path on the current state. */
    method ExplicitLayoutStep(typ: Entity, ms: seq<Member>, i: nat) returns (status: Status)
      requires WorldInvariant(types) && i < |ms|
      modifies this
      ensures Outcome(status, State()) == ExplicitTail(old(State()), typ, ms, i)
    {
      var e := ms[i];
      var c := if e.typ in types then types[e.typ].comp else None;
      if c.None? || c.value.size == 0 || c.value.alignment == 0 {
        structs := structs[typ := ms];
        return Err;
      }
      assert e.typ in types;
      var memberSize := c.value.size * e.count;
      structs := structs[typ := ms[i := e.(size := memberSize)]];
      var own := if typ in types then types[typ].comp else None;
      var alignment := if own.Some? then own.value.alignment else c.value.alignment;
      var fin := Finish(State(), typ, e.offset + memberSize, alignment);
      structs, decls, types := fin.state.structs, fin.state.decls, fin.state.types;
      return fin.status;
    }
  }
}
