// The networking actor component's list of network-owned entities: a
// replicated array of network ids, re-sorted ascending by network id after
// every addition and removal, plus the per-entity info record it sends.

module Networking {
  import opened Wrappers
  import opened NetworkIds

  /** The sort key: `GetNetworkId()`, so an unset id sorts as `0xFFFFFFFF`. */
  function Key(c: NetworkIdComponent): int
  {
    c.GetNetworkId() as int
  }

  predicate SortedByKey(s: seq<NetworkIdComponent>)
  {
    forall i, j :: 0 <= i < j < |s| ==> Key(s[i]) <= Key(s[j])
  }

  /** `x` placed before the first element with a larger key. */
  function InsertByKey(x: NetworkIdComponent, s: seq<NetworkIdComponent>): (r: seq<NetworkIdComponent>)
    ensures |r| == |s| + 1
  {
    if s == [] || Key(x) <= Key(s[0]) then [x] + s
    else [s[0]] + InsertByKey(x, s[1..])
  }

  /** The smaller of `x`'s key and the first key of `s`. */
  function LeastKey(x: NetworkIdComponent, s: seq<NetworkIdComponent>): int
  {
    if s == [] || Key(x) <= Key(s[0]) then Key(x) else Key(s[0])
  }

  /** Inserting adds exactly `x` to the elements. */
  lemma {:induction false} InsertByKeyCounts(x: NetworkIdComponent, s: seq<NetworkIdComponent>)
    ensures multiset(InsertByKey(x, s)) == multiset(s) + multiset{x}
  {
    if s != [] && Key(x) > Key(s[0]) {
      InsertByKeyCounts(x, s[1..]);
      assert s == [s[0]] + s[1..];
    }
  }

  /** Inserting into a sorted list puts nothing below the smaller of `x`'s key and the list's first key. */
  lemma {:induction false} InsertByKeyAbove(x: NetworkIdComponent, s: seq<NetworkIdComponent>)
    requires SortedByKey(s)
    ensures forall k :: 0 <= k < |s| + 1 ==> Key(InsertByKey(x, s)[k]) >= LeastKey(x, s)
  {
    if s != [] && Key(x) > Key(s[0]) {
      InsertByKeyAbove(x, s[1..]);
      var rest := InsertByKey(x, s[1..]);
      assert InsertByKey(x, s) == [s[0]] + rest;
      assert s[1..] != [] ==> Key(s[0]) <= Key(s[1..][0]);
    }
  }

  /** Inserting into a list sorted by key keeps it sorted. */
  lemma {:induction false} InsertByKeySorted(x: NetworkIdComponent, s: seq<NetworkIdComponent>)
    requires SortedByKey(s)
    ensures SortedByKey(InsertByKey(x, s))
  {
    if s != [] && Key(x) > Key(s[0]) {
      var rest := InsertByKey(x, s[1..]);
      var r := InsertByKey(x, s);
      InsertByKeySorted(x, s[1..]);
      InsertByKeyAbove(x, s[1..]);
      assert r == [s[0]] + rest;
      assert s[1..] != [] ==> Key(s[0]) <= Key(s[1..][0]);
      forall i, j | 0 <= i < j < |r|
        ensures Key(r[i]) <= Key(r[j])
      {
        assert r[j] == rest[j - 1];
        if i > 0 {
          assert r[i] == rest[i - 1];
        }
      }
    }
  }

  /** A reference sort: the list rebuilt by inserting its elements one by one. */
  function SortByKey(s: seq<NetworkIdComponent>): (r: seq<NetworkIdComponent>)
    ensures SortedByKey(r)
    ensures multiset(r) == multiset(s)
  {
    if s == [] then []
    else
      assert s == s[..|s| - 1] + [s[|s| - 1]];
      var sorted := SortByKey(s[..|s| - 1]);
      InsertByKeySorted(s[|s| - 1], sorted);
      InsertByKeyCounts(s[|s| - 1], sorted);
      InsertByKey(s[|s| - 1], sorted)
  }

  /** The list without any element equal to `x`, the rest in order. */
  function RemoveAll(s: seq<NetworkIdComponent>, x: NetworkIdComponent): (r: seq<NetworkIdComponent>)
  {
    if s == [] then []
    else if s[0] == x then RemoveAll(s[1..], x)
    else [s[0]] + RemoveAll(s[1..], x)
  }

  /** `RemoveAll` drops every copy of `x` and keeps every other element as often as before. */
  lemma {:induction false} RemoveAllCounts(s: seq<NetworkIdComponent>, x: NetworkIdComponent)
    ensures multiset(RemoveAll(s, x))[x] == 0
    ensures forall y :: y != x ==> multiset(RemoveAll(s, x))[y] == multiset(s)[y]
  {
    if s != [] {
      RemoveAllCounts(s[1..], x);
      assert s == [s[0]] + s[1..];
    }
  }

  /** `FNetworkedEntityInfo`: a network id with the world and entity names. */
  datatype NetworkedEntityInfo = NetworkedEntityInfo(networkId: NetworkIdComponent, worldName: string, entityName: string)

  const DefaultWorldName := "DefaultFlecsWorld"

  function DefaultEntityInfo(): (r: NetworkedEntityInfo)
    ensures !r.networkId.IsValid() && r.worldName == DefaultWorldName && r.entityName == ""
  {
    NetworkedEntityInfo(Unset, DefaultWorldName, "")
  }

  /**
   * `FNetworkedEntityInfo::NetSerialize`: the three fields are saved or
   * loaded in turn, and success is reported whatever the id serialiser said.
   */
  function InfoNetSerialize(info: NetworkedEntityInfo, saving: bool, loaded: NetworkedEntityInfo): (r: (bool, bool, NetworkedEntityInfo))
    ensures r.0 && r.1
    ensures saving ==> r.2 == info
    ensures !saving ==> r.2 == loaded
  {
    var id := NetSerialize(info.networkId, saving, loaded.networkId.networkId);
    (true, true, NetworkedEntityInfo(id.value, if saving then info.worldName else loaded.worldName,
                                    if saving then info.entityName else loaded.entityName))
  }

  /** `UFlecsNetworkingActorComponent`'s owned-entity list. */
  class NetworkingActorComponent {
    var networkOwnedEntities: seq<NetworkIdComponent>

    constructor()
      ensures networkOwnedEntities == []
    {
      networkOwnedEntities := [];
    }

    /**
     * `AddNetworkOwnedEntity`: the id must be set; it is appended without
     * de-duplication and the list is re-sorted by network id.
     */
    method AddNetworkOwnedEntity(e: NetworkIdComponent)
      requires e.IsValid()
      modifies this
      ensures SortedByKey(networkOwnedEntities)
      ensures multiset(networkOwnedEntities) == multiset(old(networkOwnedEntities)) + multiset{e}
      ensures |networkOwnedEntities| == |old(networkOwnedEntities)| + 1
      ensures forall y :: HasNetworkOwnedEntity(y) <==> old(HasNetworkOwnedEntity(y)) || y == e
    {
      ghost var before := networkOwnedEntities;
      networkOwnedEntities := SortByKey(networkOwnedEntities + [e]);
      assert |multiset(networkOwnedEntities)| == |old(networkOwnedEntities)| + 1;
      forall y
        ensures y in networkOwnedEntities <==> y in before || y == e
      {
        assert y in networkOwnedEntities <==> y in multiset(networkOwnedEntities);
        assert y in before + [e] <==> y in multiset(before + [e]);
      }
    }

    /** `RemoveNetworkOwnedEntity`: every equal element goes; the rest stay, re-sorted. */
    method RemoveNetworkOwnedEntity(e: NetworkIdComponent)
      modifies this
      ensures SortedByKey(networkOwnedEntities)
      ensures e !in networkOwnedEntities
      ensures forall y :: y != e ==> multiset(networkOwnedEntities)[y] == multiset(old(networkOwnedEntities))[y]
      ensures forall y :: HasNetworkOwnedEntity(y) <==> old(HasNetworkOwnedEntity(y)) && y != e
    {
      ghost var before := networkOwnedEntities;
      RemoveAllCounts(networkOwnedEntities, e);
      networkOwnedEntities := SortByKey(RemoveAll(networkOwnedEntities, e));
      forall y
        ensures y in networkOwnedEntities <==> y in before && y != e
      {
        RemovedIsNotOwned(before, e, y);
      }
    }

    /** `ClearNetworkOwnedEntities`. */
    method ClearNetworkOwnedEntities()
      modifies this
      ensures networkOwnedEntities == []
    {
      networkOwnedEntities := [];
    }

    /** `GetNetworkOwnedEntities`: the list as a set. */
    function GetNetworkOwnedEntities(): (r: set<NetworkIdComponent>)
      reads this
      ensures forall x :: x in r <==> exists i :: 0 <= i < |networkOwnedEntities| && networkOwnedEntities[i] == x
    {
      set x | x in networkOwnedEntities
    }

    /** `HasNetworkOwnedEntity`. */
    predicate HasNetworkOwnedEntity(e: NetworkIdComponent)
      reads this
    {
      e in GetNetworkOwnedEntities()
    }
  }

  /** The list after an addition holds the added id. */
  lemma AddedIsOwned(s: seq<NetworkIdComponent>, e: NetworkIdComponent)
    ensures e in SortByKey(s + [e])
  {
    assert e in multiset(SortByKey(s + [e]));
  }

  /** The list after a removal holds exactly the other ids it held before. */
  lemma RemovedIsNotOwned(s: seq<NetworkIdComponent>, e: NetworkIdComponent, y: NetworkIdComponent)
    ensures y in SortByKey(RemoveAll(s, e)) <==> y in s && y != e
  {
    RemoveAllCounts(s, e);
    assert y in SortByKey(RemoveAll(s, e)) <==> y in multiset(RemoveAll(s, e));
    assert y in s <==> y in multiset(s);
  }
}
