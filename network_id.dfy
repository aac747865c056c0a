// `FFlecsNetworkIdComponent`: a network id that may be unset, with its
// getters, equality against another component or a raw `uint32`, and the
// replicated serialiser that always reports success.

module NetworkIds {
  import opened Wrappers

  const U32Limit: int := 0x1_0000_0000

  /** `uint32`. */
  newtype u32 = x: int | 0 <= x < 0x1_0000_0000

  /** `INDEX_NONE` (-1) converted to `uint32`. */
  const IndexNone: u32 := 0xFFFF_FFFF

  /**
   * The component is a value type: `SetNetworkId` and `Reset` rewrite its
   * `TOptional` field, which the model expresses by returning the updated
   * value.
   */
  datatype NetworkIdComponent = NetworkIdComponent(networkId: Option<u32>)
  {
    /** `GetNetworkId`: the stored id, or `INDEX_NONE` as a `uint32` when unset. */
    function GetNetworkId(): (r: u32)
      ensures networkId.Some? ==> r == networkId.value
      ensures networkId.None? ==> r == IndexNone
    {
      networkId.GetOr(IndexNone)
    }

    predicate IsValid() { networkId.Some? }

    /** `SetNetworkId(n)`. */
    function SetNetworkId(n: u32): (r: NetworkIdComponent)
      ensures r.IsValid() && r.GetNetworkId() == n
    {
      this.(networkId := Some(n))
    }

    /** `Reset()`. */
    function Reset(): (r: NetworkIdComponent)
      ensures !r.IsValid() && r == Unset
    {
      this.(networkId := None)
    }

    /** `operator==(uint32)`: a set id equal to the value; an unset id equals no value. */
    predicate EqualsValue(n: u32)
    {
      networkId == Some(n)
    }
  }

  /** The default-constructed component. */
  const Unset := NetworkIdComponent(None)

  /** The component constructed from a `uint32`. */
  function FromNetworkId(n: u32): (r: NetworkIdComponent)
    ensures r.IsValid() && r.GetNetworkId() == n
  {
    NetworkIdComponent(Some(n))
  }

  /** Default construction leaves the id unset; its getter answers `INDEX_NONE`. */
  lemma DefaultIsUnset()
    ensures !Unset.IsValid()
    ensures Unset.GetNetworkId() == IndexNone
    ensures forall n: u32 :: !Unset.EqualsValue(n)
  {
  }

  /**
   * Equality of two components is equality of the optional ids: two unset
   * ids are equal, and two set ids are equal exactly when their values are.
   * `!=` negates it.
   */
  lemma ComponentEquality(a: NetworkIdComponent, b: NetworkIdComponent)
    ensures !a.IsValid() && !b.IsValid() ==> a == b
    ensures a.IsValid() && b.IsValid() ==> (a == b <==> a.GetNetworkId() == b.GetNetworkId())
    ensures a.IsValid() != b.IsValid() ==> a != b
  {
  }

  /** Comparing with a raw value: true exactly for a set id with that value. */
  lemma ValueEquality(a: NetworkIdComponent, n: u32)
    ensures a.EqualsValue(n) <==> a.IsValid() && a.GetNetworkId() == n
  {
  }

  /** Setting then resetting, or resetting then setting, leaves the obvious state. */
  lemma SetResetRoundTrip(a: NetworkIdComponent, n: u32, m: u32)
    ensures a.SetNetworkId(n).Reset() == Unset
    ensures a.Reset().SetNetworkId(n) == FromNetworkId(n)
    ensures a.SetNetworkId(m).SetNetworkId(n) == FromNetworkId(n)
  {
  }

  /**
   * The getter does not tell an unset id from a set id of value `INDEX_NONE`:
   * both answer `0xFFFFFFFF`, while the components differ.
   */
  lemma GetterConflatesIndexNone()
    ensures Unset.GetNetworkId() == FromNetworkId(IndexNone).GetNetworkId()
    ensures Unset != FromNetworkId(IndexNone)
  {
  }

  /** The outcome of `NetSerialize`: the returned flag and `bOutSuccess`. */
  datatype SerializeOutcome = SerializeOutcome(returned: bool, success: bool, value: NetworkIdComponent)

  /**
   * `NetSerialize`: saving writes the optional id and keeps the component;
   * loading replaces it with the value read. Both report success.
   */
  function NetSerialize(c: NetworkIdComponent, saving: bool, loaded: Option<u32>): (r: SerializeOutcome)
    ensures r.returned && r.success
    ensures saving ==> r.value == c
    ensures !saving ==> r.value.networkId == loaded
  {
    SerializeOutcome(true, true, if saving then c else NetworkIdComponent(loaded))
  }

  /** A receiver that loads what the sender saved ends up with the sender's id, whatever it held. */
  lemma NetSerializeRoundTrip(sender: NetworkIdComponent, receiver: NetworkIdComponent)
    ensures NetSerialize(receiver, false, NetSerialize(sender, true, None).value.networkId).value == sender
  {
  }
}
