// `FFlecsComponentCollection`: a list of collection builders whose first
// entry describes the base entity and whose later entries describe child
// entities. Traits fill it: a plain trait edits the base builder, the other
// two kinds each append a fresh builder (a slot builder for slot traits) and
// fill that.

module ComponentCollections {
  import opened CollectionBuilders

  /** `EFlecsCollectionTraitType`. */
  datatype TraitType = NoTrait | NewEntityTrait | SlotEntityTrait

  /**
   * A trait: its kind and its `Build`, a virtual member whose body is not
   * part of this model, as an edit of a builder's value.
   */
  datatype Trait = Trait(traitType: TraitType, build: BuilderValue -> BuilderValue)

  /**
   * A trait's edit of one builder. It goes through the builder's public
   * members, so the private slot flag is the builder's own.
   */
  function ApplyTrait(b: BuilderValue, t: Trait): (r: BuilderValue)
    ensures r.isSlotEntity == b.isSlotEntity
  {
    t.build(b).(isSlotEntity := b.isSlotEntity)
  }

  /** One pass of `Build`'s loop. */
  function BuildStep(bs: seq<BuilderValue>, t: Trait): (r: seq<BuilderValue>)
    requires |bs| >= 1
  {
    match t.traitType
    case NoTrait => bs[0 := ApplyTrait(bs[0], t)]
    case NewEntityTrait => bs + [ApplyTrait(NewBuilder(false), t)]
    case SlotEntityTrait => bs + [ApplyTrait(NewBuilder(true), t)]
  }

  /** `Build`: the traits in order. */
  function BuildAll(bs: seq<BuilderValue>, ts: seq<Trait>): (r: seq<BuilderValue>)
    requires |bs| >= 1
    ensures |r| >= |bs|
  {
    if ts == [] then bs else BuildStep(BuildAll(bs, ts[..|ts| - 1]), ts[|ts| - 1])
  }

  /** The slot flags of the builders the traits append, in trait order: plain traits append none. */
  function AppendedSlots(ts: seq<Trait>): seq<bool>
  {
    if ts == [] then [] else AppendedSlots(ts[..|ts| - 1]) + TraitSlot(ts[|ts| - 1].traitType)
  }

  function TraitSlot(t: TraitType): seq<bool>
  {
    match t
    case NoTrait => []
    case NewEntityTrait => [false]
    case SlotEntityTrait => [true]
  }

  /**
   * After `Build` the builders already there keep their place and slot flag
   * (only the base one is edited, by plain traits); one builder follows per
   * non-plain trait, in trait order, a slot builder exactly for slot traits.
   */
  lemma {:induction false} BuildAllShape(bs: seq<BuilderValue>, ts: seq<Trait>)
    requires |bs| >= 1
    ensures |BuildAll(bs, ts)| == |bs| + |AppendedSlots(ts)|
    ensures forall i :: 1 <= i < |bs| ==> BuildAll(bs, ts)[i] == bs[i]
    ensures forall i :: 0 <= i < |bs| ==> BuildAll(bs, ts)[i].isSlotEntity == bs[i].isSlotEntity
    ensures forall j :: 0 <= j < |AppendedSlots(ts)| ==> BuildAll(bs, ts)[|bs| + j].isSlotEntity == AppendedSlots(ts)[j]
  {
    if ts != [] {
      BuildAllShape(bs, ts[..|ts| - 1]);
    }
  }

  /** Plain traits never add a builder: they all edit the base one. */
  lemma {:induction false} PlainTraitsKeepOneBuilder(ts: seq<Trait>)
    requires forall i :: 0 <= i < |ts| ==> ts[i].traitType == NoTrait
    ensures AppendedSlots(ts) == []
  {
    if ts != [] {
      PlainTraitsKeepOneBuilder(ts[..|ts| - 1]);
    }
  }

  /** `FFlecsComponentCollection`. */
  class ComponentCollection {
    var builders: seq<BuilderValue>

    /** There is always the base entity's builder. */
    predicate Valid()
      reads this
    {
      |builders| >= 1
    }

    /** The constructor: exactly one builder, for the base entity. */
    constructor()
      ensures Valid() && builders == [NewBuilder(false)]
    {
      builders := [NewBuilder(false)];
    }

    /** `Build`: each trait edits the base builder or fills a new one appended for it. */
    method Build(traits: seq<Trait>)
      requires Valid()
      modifies this
      ensures Valid() && builders == BuildAll(old(builders), traits)
      ensures GetCollectionItems() == BuildAll(old(GetCollectionItems()), traits)
    {
      var k := 0;
      while k < |traits|
        invariant 0 <= k <= |traits|
        invariant Valid() && builders == BuildAll(old(builders), traits[..k])
      {
        assert traits[..k + 1][..k] == traits[..k];
        var t := traits[k];
        match t.traitType {
          case NoTrait =>
            builders := builders[0 := ApplyTrait(builders[0], t)];
          case NewEntityTrait =>
            builders := builders + [ApplyTrait(NewBuilder(false), t)];
          case SlotEntityTrait =>
            builders := builders + [ApplyTrait(NewBuilder(true), t)];
        }
        k := k + 1;
      }
      assert traits[..|traits|] == traits;
    }

    /** `ValidateData`: true unless some builder fails its check, scanning in order. */
    method ValidateData() returns (ok: bool)
      ensures ok <==> forall i :: 0 <= i < |builders| ==> CollectionBuilders.ValidateData(builders[i])
    {
      var i := 0;
      while i < |builders|
        invariant 0 <= i <= |builders|
        invariant forall j :: 0 <= j < i ==> CollectionBuilders.ValidateData(builders[j])
      {
        if !CollectionBuilders.ValidateData(builders[i]) {
          return false;
        }
        i := i + 1;
      }
      return true;
    }

    /** `GetCollectionItems`. */
    function GetCollectionItems(): seq<BuilderValue>
      reads this
    {
      builders
    }
  }
}
