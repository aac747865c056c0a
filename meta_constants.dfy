// The constant tables shared by enum and bitmask reflection.
//
// An enum or bitmask keeps its constants twice: in a map keyed by the
// constant's value, and in a vector in the order the constants were added.
// Re-adding a constant entity first removes its old entry from both: the map
// entry by key, the vector entry by shifting the later elements left.

module MetaConstants {
  import opened MetaTypes

  /**
   * A constant: its name, its value and the constant entity. (The enum
   * record carries the value in a signed or an unsigned field depending on
   * the underlying type, the other field being zero; one field stands for
   * both here.)
   */
  datatype Constant = Constant(name: string, value: int, constant: Entity)

  /** The map a vector of constants describes: each constant under its value. */
  function MapOf(s: seq<Constant>): (m: map<int, Constant>)
    ensures forall k :: k in m ==> m[k].value == k
    ensures forall i :: 0 <= i < |s| ==> s[i].value in m
    decreases |s|
  {
    if |s| == 0 then map[]
    else MapOf(s[..|s| - 1])[s[|s| - 1].value := s[|s| - 1]]
  }

  /** No two constants share a value, and no constant entity is listed twice. */
  predicate Distinct(s: seq<Constant>)
  {
    forall i, j :: 0 <= i < j < |s| ==> s[i].value != s[j].value && s[i].constant != s[j].constant
  }

  /** The index of the first constant for entity e, or the length when there is none. */
  function FirstWith(s: seq<Constant>, e: Entity): (i: nat)
    ensures i <= |s|
    ensures i < |s| ==> s[i].constant == e
    ensures forall j :: 0 <= j < i ==> s[j].constant != e
  {
    if |s| == 0 then 0
    else if s[0].constant == e then 0
    else 1 + FirstWith(s[1..], e)
  }

  /** The vector after the element at i is removed, the others keeping their order. */
  function RemoveAt(s: seq<Constant>, i: nat): (r: seq<Constant>)
    requires i < |s|
    ensures |r| == |s| - 1
    ensures forall j :: 0 <= j < i ==> r[j] == s[j]
    ensures forall j :: i <= j < |r| ==> r[j] == s[j + 1]
  {
    s[..i] + s[i + 1..]
  }

  /** The vector after the first constant for e, if any, is removed. */
  function RemoveFirst(s: seq<Constant>, e: Entity): (r: seq<Constant>)
  {
    if FirstWith(s, e) < |s| then RemoveAt(s, FirstWith(s, e)) else s
  }

  /** The map without the entries of constant entity e. */
  function WithoutConstant(m: map<int, Constant>, e: Entity): (r: map<int, Constant>)
    ensures forall k :: k in r <==> k in m && m[k].constant != e
    ensures forall k :: k in r ==> r[k] == m[k]
  {
    map k | k in m && m[k].constant != e :: m[k]
  }

  /**
   * The shift loop that removes element i: every later element moves one
   * place left, then the last element is dropped.
   */
  method ShiftOut(s: seq<Constant>, i: nat) returns (r: seq<Constant>)
    requires i < |s|
    ensures r == RemoveAt(s, i)
  {
    r := s;
    var j := i;
    while j < |s| - 1
      invariant i <= j <= |s| - 1 && |r| == |s|
      invariant forall k :: 0 <= k < i ==> r[k] == s[k]
      invariant forall k :: i <= k < j ==> r[k] == s[k + 1]
      invariant forall k :: j <= k < |s| ==> r[k] == s[k]
    {
      r := r[j := r[j + 1]];
      j := j + 1;
    }
    r := r[..|r| - 1];
  }

  /** Every map entry comes from the vector. */
  lemma {:induction false} MapOfFrom(s: seq<Constant>, k: int)
    requires k in MapOf(s)
    ensures exists i :: 0 <= i < |s| && s[i] == MapOf(s)[k]
    decreases |s|
  {
    if |s| > 0 && k != s[|s| - 1].value {
      MapOfFrom(s[..|s| - 1], k);
      var i :| 0 <= i < |s| - 1 && s[..|s| - 1][i] == MapOf(s[..|s| - 1])[k];
      assert s[i] == MapOf(s)[k];
    }
  }

  /** With distinct values, each constant of the vector is the map entry under its value. */
  lemma {:induction false} MapOfAt(s: seq<Constant>, i: nat)
    requires Distinct(s) && i < |s|
    ensures MapOf(s)[s[i].value] == s[i]
    decreases |s|
  {
    if i < |s| - 1 {
      MapOfAt(s[..|s| - 1], i);
    }
  }

  /** Appending a constant adds it to the map under its value. */
  lemma MapOfAppend(s: seq<Constant>, c: Constant)
    ensures MapOf(s + [c]) == MapOf(s)[c.value := c]
  {
    assert (s + [c])[..|s|] == s;
  }

  /** Dropping one element keeps a vector distinct. */
  lemma RemoveAtDistinct(s: seq<Constant>, i: nat)
    requires Distinct(s) && i < |s|
    ensures Distinct(RemoveAt(s, i))
  {
    var r := RemoveAt(s, i);
    forall a, b | 0 <= a < b < |r|
      ensures r[a].value != r[b].value && r[a].constant != r[b].constant
    {
      var a' := if a < i then a else a + 1;
      var b' := if b < i then b else b + 1;
      assert r[a] == s[a'] && r[b] == s[b'] && a' < b';
    }
  }

  /** Without a constant for e in the vector, the map has no entry for e either. */
  lemma MapOfWithout(s: seq<Constant>, e: Entity)
    requires FirstWith(s, e) == |s|
    ensures WithoutConstant(MapOf(s), e) == MapOf(s)
  {
    var m := MapOf(s);
    forall k | k in m
      ensures m[k].constant != e
    {
      MapOfFrom(s, k);
    }
  }

  /** Every entry of the shortened vector's map is an entry of the map without e. */
  lemma RemoveAtEntries(s: seq<Constant>, e: Entity)
    requires Distinct(s) && FirstWith(s, e) < |s|
    ensures var w := WithoutConstant(MapOf(s), e);
      forall k :: k in MapOf(RemoveAt(s, FirstWith(s, e))) ==> k in w && MapOf(RemoveAt(s, FirstWith(s, e)))[k] == w[k]
  {
    var idx := FirstWith(s, e);
    var r := RemoveAt(s, idx);
    var mr := MapOf(r);
    forall k | k in mr
      ensures k in WithoutConstant(MapOf(s), e) && mr[k] == MapOf(s)[k]
    {
      MapOfFrom(r, k);
      var i :| 0 <= i < |r| && r[i] == mr[k];
      var j := if i < idx then i else i + 1;
      assert r[i] == s[j] && j != idx;
      MapOfAt(s, j);
      assert s[j].constant != s[idx].constant;
    }
  }

  /** Every entry of the map without e is an entry of the shortened vector's map. */
  lemma RemoveAtKeys(s: seq<Constant>, e: Entity)
    requires FirstWith(s, e) < |s|
    ensures forall k :: k in WithoutConstant(MapOf(s), e) ==> k in MapOf(RemoveAt(s, FirstWith(s, e)))
  {
    var idx := FirstWith(s, e);
    var r := RemoveAt(s, idx);
    var m := MapOf(s);
    forall k | k in WithoutConstant(m, e)
      ensures k in MapOf(r)
    {
      MapOfFrom(s, k);
      var j :| 0 <= j < |s| && s[j] == m[k];
      var i := if j < idx then j else j - 1;
      assert r[i] == s[j];
    }
  }

  /**
   * Removing the first constant for e from a distinct vector describes the
   * map without e's entries.
   */
  lemma MapOfRemoveFirst(s: seq<Constant>, e: Entity)
    requires Distinct(s)
    ensures MapOf(RemoveFirst(s, e)) == WithoutConstant(MapOf(s), e)
  {
    if FirstWith(s, e) == |s| {
      MapOfWithout(s, e);
    } else {
      RemoveAtEntries(s, e);
      RemoveAtKeys(s, e);
      assert MapOf(RemoveFirst(s, e)) == WithoutConstant(MapOf(s), e);
    }
  }

  lemma {:induction false} FirstWithUnique(s: seq<Constant>, e: Entity, i: nat)
    requires i <= |s| && (i < |s| ==> s[i].constant == e)
    requires forall j :: 0 <= j < i ==> s[j].constant != e
    ensures FirstWith(s, e) == i
  {
    var k := FirstWith(s, e);
    assert k < |s| ==> s[k].constant == e;
    assert i < |s| ==> s[i].constant == e;
  }

  /** The search loop: the first vector index holding a constant for e. */
  method FindConstant(s: seq<Constant>, e: Entity) returns (i: nat)
    ensures i == FirstWith(s, e)
  {
    i := 0;
    while i < |s| && s[i].constant != e
      invariant i <= |s|
      invariant forall j :: 0 <= j < i ==> s[j].constant != e
    {
      i := i + 1;
    }
    FirstWithUnique(s, e, i);
  }

  /** After the first constant for e is removed from a distinct vector, no constant for e is left. */
  lemma RemoveFirstClears(s: seq<Constant>, e: Entity)
    requires Distinct(s)
    ensures Distinct(RemoveFirst(s, e))
    ensures forall j :: 0 <= j < |RemoveFirst(s, e)| ==> RemoveFirst(s, e)[j].constant != e
  {
    var idx := FirstWith(s, e);
    if idx < |s| {
      RemoveAtDistinct(s, idx);
      var r := RemoveAt(s, idx);
      forall j | 0 <= j < |r|
        ensures r[j].constant != e
      {
        var j' := if j < idx then j else j + 1;
        assert r[j] == s[j'] && j' != idx;
      }
    }
  }

  /** Finds the first constant for e and, if there is one, shifts it out. */
  method ShiftOutFirst(s: seq<Constant>, e: Entity) returns (r: seq<Constant>)
    ensures r == RemoveFirst(s, e)
  {
    var i := FindConstant(s, e);
    r := s;
    if i < |s| {
      r := ShiftOut(s, i);
    }
  }

  /**
   * The conflict loop: whether some constant of the map has the value v,
   * visiting the keys in an unspecified order.
   */
  method FindValue(m: map<int, Constant>, v: int) returns (found: bool)
    requires forall k :: k in m ==> m[k].value == k
    ensures found <==> v in m
  {
    var keys := m.Keys;
    while keys != {}
      invariant keys <= m.Keys
      invariant v in m ==> v in keys
      decreases |keys|
    {
      assert (forall x :: x !in keys) ==> keys == {};
      var k :| k in keys;
      keys := keys - {k};
      if m[k].value == v {
        return true;
      }
    }
    return false;
  }

  /** A distinct vector and its map: the state both tables keep. */
  predicate Tables(m: map<int, Constant>, s: seq<Constant>)
  {
    Distinct(s) && m == MapOf(s)
  }

  /** The map entry for e sits, in a distinct vector, at the first index holding e. */
  lemma EntryIsFirst(s: seq<Constant>, e: Entity, k: int)
    requires Distinct(s) && k in MapOf(s) && MapOf(s)[k].constant == e
    ensures FirstWith(s, e) < |s| && s[FirstWith(s, e)].value == k
  {
    MapOfFrom(s, k);
    var j :| 0 <= j < |s| && s[j] == MapOf(s)[k];
    var idx := FirstWith(s, e);
    assert idx <= j;
    assert idx < |s| && s[idx].constant == e;
  }

  /**
   * The state of the removal loop once the keys outside `keys` have been
   * visited: their entries for e are gone from the map, and the vector has
   * lost its element for e once that element's key was visited.
   */
  ghost predicate Removing(m: map<int, Constant>, s: seq<Constant>, e: Entity, keys: set<int>, m': map<int, Constant>, s': seq<Constant>)
  {
    && keys <= m.Keys
    && (forall x :: x in m' <==> x in m && (x in keys || m[x].constant != e))
    && (forall x :: x in m' ==> m'[x] == m[x])
    && s' == (if FirstWith(s, e) < |s| && s[FirstWith(s, e)].value !in keys then RemoveFirst(s, e) else s)
  }

  /** One visit of the removal loop keeps its state. */
  lemma RemovingStep(m: map<int, Constant>, s: seq<Constant>, e: Entity, keys: set<int>, m': map<int, Constant>, s': seq<Constant>, k: int)
    requires Tables(m, s) && Removing(m, s, e, keys, m', s') && k in keys
    ensures k in m'
    ensures m'[k].constant == e ==> Removing(m, s, e, keys - {k}, m' - {k}, RemoveFirst(s', e))
    ensures m'[k].constant != e ==> Removing(m, s, e, keys - {k}, m', s')
  {
    var idx := FirstWith(s, e);
    if idx < |s| {
      MapOfAt(s, idx);
    }
    if m'[k].constant == e {
      EntryIsFirst(s, e, k);
    }
  }

  /** When every key has been visited, the loop has removed exactly e's entries. */
  lemma RemovingDone(m: map<int, Constant>, s: seq<Constant>, e: Entity, m': map<int, Constant>, s': seq<Constant>)
    requires Tables(m, s) && Removing(m, s, e, {}, m', s')
    ensures m' == WithoutConstant(m, e) && s' == RemoveFirst(s, e) && Tables(m', s')
  {
    MapOfRemoveFirst(s, e);
    RemoveFirstClears(s, e);
    assert forall x :: x in m' <==> x in WithoutConstant(m, e);
  }

  /**
   * The removal loop: every map entry for the constant entity e is removed,
   * visiting the keys in an unspecified order, and for each one the first
   * vector element for e is shifted out.
   */
  method RemoveEntries(m: map<int, Constant>, s: seq<Constant>, e: Entity) returns (m': map<int, Constant>, s': seq<Constant>)
    requires Tables(m, s)
    ensures m' == WithoutConstant(m, e)
    ensures s' == RemoveFirst(s, e)
    ensures Tables(m', s')
  {
    m', s' := m, s;
    var keys := m.Keys;
    while keys != {}
      invariant Removing(m, s, e, keys, m', s')
      decreases |keys|
    {
      assert (forall x :: x !in keys) ==> keys == {};
      var k :| k in keys;
      RemovingStep(m, s, e, keys, m', s', k);
      keys := keys - {k};
      if m'[k].constant == e {
        m' := m' - {k};
        s' := ShiftOutFirst(s', e);
      }
    }
    RemovingDone(m, s, e, m', s');
  }
}
