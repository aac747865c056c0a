// `FFlecsId`: a 64-bit Flecs id with validity, ordering, pair accessors and
// a text form "FlecsId=<decimal>" used by property import and export.
//
// The pair layout follows the Flecs id encoding: the top four bits hold the
// id flags, a pair carries the pair flag (bit 63), the first element sits in
// bits 32..59 and the second element in the low 32 bits. A plain entity id
// keeps its index in the low 32 bits and its generation in bits 32..47.

module FlecsIds {
  import opened Wrappers

  const P32: nat := 0x1_0000_0000
  const P60: nat := 0x1000_0000_0000_0000
  const P63: nat := 0x8000_0000_0000_0000
  const P64: nat := 0x1_0000_0000_0000_0000

  /** `uint64`. */
  newtype u64 = x: int | 0 <= x < 0x1_0000_0000_0000_0000

  datatype FlecsId = FlecsId(id: u64)
  {
    predicate IsValid() { id != 0 }

    /** The four flag bits are exactly the pair flag. */
    predicate IsPair() { id as int / P60 == 8 }

    /** The first element of a pair (the relationship): the bits between the flags and the low word. */
    function GetFirst(): (r: FlecsId)
      requires IsPair()
      ensures r.id as int < 0x1000_0000
    {
      FlecsId(((id as int % P60) / P32) as u64)
    }

    /** The second element of a pair (the target): the low 32 bits. */
    function GetSecond(): (r: FlecsId)
      requires IsPair()
      ensures r.id as int < P32
    {
      FlecsId((id as int % P32) as u64)
    }

    function GetRelation(): (r: FlecsId)
      requires IsPair()
      ensures r == GetFirst()
    {
      GetFirst()
    }

    function GetTarget(): (r: FlecsId)
      requires IsPair()
      ensures r == GetSecond()
    {
      GetSecond()
    }

    /** Whether this pair has the given relationship. */
    predicate HasRelation(rel: FlecsId)
      requires IsPair()
    {
      GetFirst() == rel
    }

    /** Whether this pair has the given target: the second element is compared. */
    predicate HasTarget(target: FlecsId)
      requires IsPair()
    {
      GetSecond() == target
    }

    /** The entity index: `Id & ECS_ENTITY_MASK`, the low 32 bits. */
    function GetIndex(): (r: nat)
      requires !IsPair()
      ensures r < P32
      ensures r == id as int % P32
    {
      id as int % P32
    }

    /** The generation: `ECS_GENERATION`, bits 32..47. */
    function GetGeneration(): (r: nat)
      requires !IsPair()
      ensures r < 0x1_0000
      ensures r == (id as int / P32) % 0x1_0000
    {
      (id as int / P32) % 0x1_0000
    }
  }

  /** `Null()`: the id 0. */
  const Null := FlecsId(0)

  /**
   * `MakePair(first, second)`: the pair flag OR'ed onto the first element
   * shifted up 32 bits (wrapping at 64 bits) plus the low word of the second.
   */
  function MakePair(first: FlecsId, second: FlecsId): (r: FlecsId)
    ensures r.id as int >= P63
  {
    FlecsId((P63 + (first.id as int * P32) % P64 % P63 + second.id as int % P32) as u64)
  }

  /**
   * `HasTarget` as written compares the pair's FIRST element with the
   * argument, exactly as `HasRelation` does.
   */
  predicate HasTargetAsWritten(p: FlecsId, target: FlecsId)
    requires p.IsPair()
  {
    p.HasRelation(target)
  }

  lemma NullInvalid()
    ensures !Null.IsValid()
    ensures forall x: FlecsId :: x.IsValid() <==> x != Null
  {
  }

  /** The six comparison operators agree with the unsigned order on the 64-bit id. */
  predicate Less(a: FlecsId, b: FlecsId) { a.id < b.id }
  predicate LessEq(a: FlecsId, b: FlecsId) { a.id <= b.id }

  lemma OrderIsTotal(a: FlecsId, b: FlecsId, c: FlecsId)
    ensures Less(a, b) || a == b || Less(b, a)
    ensures !(Less(a, b) && Less(b, a))
    ensures LessEq(a, b) <==> Less(a, b) || a == b
    ensures Less(a, b) && Less(b, c) ==> Less(a, c)
  {
  }

  /** A pair built from an in-range first and second element gives them back. */
  lemma MakePairRoundTrip(first: FlecsId, second: FlecsId)
    requires first.id as int < 0x1000_0000 && second.id as int < P32
    ensures MakePair(first, second).IsPair()
    ensures MakePair(first, second).GetFirst() == first
    ensures MakePair(first, second).GetSecond() == second
    ensures MakePair(first, second).IsValid()
  {
  }

  /**
   * The as-written `HasTarget` answers for the relationship: on the pair
   * (1, 2) it rejects the target 2 and accepts 1.
   */
  lemma HasTargetChecksFirstAsWritten()
    ensures MakePair(FlecsId(1), FlecsId(2)).IsPair()
    ensures !HasTargetAsWritten(MakePair(FlecsId(1), FlecsId(2)), FlecsId(2))
    ensures HasTargetAsWritten(MakePair(FlecsId(1), FlecsId(2)), FlecsId(1))
  {
    MakePairRoundTrip(FlecsId(1), FlecsId(2));
  }

  /** The corrected `HasTarget` recognises the target of a pair built by `MakePair`. */
  lemma HasTargetOfPair(first: FlecsId, second: FlecsId, x: FlecsId)
    requires first.id as int < 0x1000_0000 && second.id as int < P32
    ensures MakePair(first, second).IsPair()
    ensures MakePair(first, second).HasTarget(x) <==> x == second
    ensures MakePair(first, second).HasRelation(x) <==> x == first
  {
    MakePairRoundTrip(first, second);
  }

  // ---- Text form ------------------------------------------------------------

  const Key := "FlecsId="

  predicate IsDigit(c: char) { '0' <= c <= '9' }

  function DigitChar(d: nat): (c: char)
    requires d < 10
    ensures IsDigit(c)
  {
    ['0', '1', '2', '3', '4', '5', '6', '7', '8', '9'][d]
  }

  function DigitValue(c: char): (d: nat)
    requires IsDigit(c)
    ensures d < 10
  {
    (c as int - '0' as int) as nat
  }

  /** `%llu`: the decimal digits of n, most significant first, without leading zeros. */
  function Decimal(n: nat): (s: string)
    ensures |s| > 0
    ensures forall i :: 0 <= i < |s| ==> IsDigit(s[i])
    decreases n
  {
    if n < 10 then [DigitChar(n)] else Decimal(n / 10) + [DigitChar(n % 10)]
  }

  /** The number a run of digits denotes. */
  function DigitsValue(ds: string): nat
    requires forall i :: 0 <= i < |ds| ==> IsDigit(ds[i])
  {
    if ds == [] then 0 else DigitsValue(ds[..|ds| - 1]) * 10 + DigitValue(ds[|ds| - 1])
  }

  /** The longest run of digits at the start of s. */
  function LeadingDigits(s: string): (ds: string)
    ensures |ds| <= |s| && ds == s[..|ds|]
    ensures forall i :: 0 <= i < |ds| ==> IsDigit(ds[i])
    ensures |ds| < |s| ==> !IsDigit(s[|ds|])
  {
    if |s| > 0 && IsDigit(s[0]) then [s[0]] + LeadingDigits(s[1..]) else []
  }

  /**
   * `FParse::Value`'s integer reading: an optional '-', then the leading
   * digits, accumulated in a signed 64-bit value that wraps around and is
   * negated when signed; the `uint64` overload reads back those 64 bits.
   */
  function ParseU64(s: string): u64
  {
    if s != [] && s[0] == '-' then
      var m := DigitsValue(LeadingDigits(s[1..])) % P64;
      if m == 0 then 0 else (P64 - m) as u64
    else (DigitsValue(LeadingDigits(s)) % P64) as u64
  }

  /** ASCII upper-casing, as the case-insensitive search compares characters. */
  function ToUpper(c: char): char
  {
    if 'a' <= c <= 'z' then (c as int - 32) as char else c
  }

  /** A letter or a digit: the characters a match may not follow. */
  predicate IsAlnum(c: char)
  {
    'A' <= c <= 'Z' || 'a' <= c <= 'z' || IsDigit(c)
  }

  /** Equal texts when upper-cased. */
  predicate SameIgnoringCase(a: string, b: string)
  {
    |a| == |b| && forall k :: 0 <= k < |a| ==> ToUpper(a[k]) == ToUpper(b[k])
  }

  /** `key` matches at `i`, ignoring case, at the start of `s` or after a character that is no letter or digit. */
  predicate OccursAt(s: string, key: string, i: nat)
  {
    i + |key| <= |s| && (i == 0 || !IsAlnum(s[i - 1])) && SameIgnoringCase(s[i..i + |key|], key)
  }

  /** The search from position `i` on. */
  function FindFrom(s: string, key: string, i: nat): (r: Option<nat>)
    requires i <= |s|
    ensures r.Some? ==> i <= r.value && OccursAt(s, key, r.value)
    ensures r.Some? ==> forall j: nat :: i <= j < r.value ==> !OccursAt(s, key, j)
    ensures r.None? ==> forall j: nat :: i <= j ==> !OccursAt(s, key, j)
    decreases |s| - i
  {
    if i + |key| > |s| then None
    else if OccursAt(s, key, i) then Some(i)
    else if i == |s| then None
    else FindFrom(s, key, i + 1)
  }

  /** `FCString::Strifind`: the first position where `key` occurs in `s`. */
  function Find(s: string, key: string): (r: Option<nat>)
    ensures r.Some? ==> OccursAt(s, key, r.value)
    ensures r.Some? ==> forall i: nat :: i < r.value ==> !OccursAt(s, key, i)
    ensures r.None? ==> forall i: nat :: !OccursAt(s, key, i)
  {
    FindFrom(s, key, 0)
  }

  /** `ExportTextItem`: "FlecsId=" followed by the decimal id. */
  function ExportText(x: FlecsId): (s: string)
    ensures |s| > |Key| && s[..|Key|] == Key
  {
    Key + Decimal(x.id as nat)
  }

  /** The value `ImportTextItem` reads from a buffer, if the key occurs in it. */
  function ImportValue(buffer: string): (r: Option<u64>)
    ensures r.None? <==> Find(buffer, Key).None?
  {
    match Find(buffer, Key)
    case None => None
    case Some(i) => Some(ParseU64(buffer[i + |Key|..]))
  }

  /** A property cell holding one `FFlecsId`, as text import updates it in place. */
  class IdCell {
    var id: FlecsId

    constructor(x: FlecsId)
      ensures id == x
    {
      id := x;
    }

    /** `ImportTextItem`: on finding the key the id is overwritten and true returned; otherwise nothing changes. */
    method ImportTextItem(buffer: string) returns (ok: bool)
      modifies this
      ensures ok <==> ImportValue(buffer).Some?
      ensures ok ==> id == FlecsId(ImportValue(buffer).value)
      ensures !ok ==> id == old(id)
    {
      var v := ImportValue(buffer);
      if v.Some? {
        id := FlecsId(v.value);
        ok := true;
      } else {
        ok := false;
      }
    }
  }

  lemma {:induction false} DigitsValueOfDecimal(n: nat)
    ensures DigitsValue(Decimal(n)) == n
    decreases n
  {
    if n >= 10 {
      var s := Decimal(n / 10) + [DigitChar(n % 10)];
      assert s[..|s| - 1] == Decimal(n / 10);
      DigitsValueOfDecimal(n / 10);
    }
  }

  lemma {:induction false} LeadingDigitsOfRun(ds: string, rest: string)
    requires forall i :: 0 <= i < |ds| ==> IsDigit(ds[i])
    requires rest == [] || !IsDigit(rest[0])
    ensures LeadingDigits(ds + rest) == ds
    decreases |ds|
  {
    if ds != [] {
      assert (ds + rest)[1..] == ds[1..] + rest;
      LeadingDigitsOfRun(ds[1..], rest);
    }
  }

  /** Importing an exported id restores it and reports success. */
  lemma ExportImportRoundTrip(x: FlecsId)
    ensures ImportValue(ExportText(x)) == Some(x.id)
  {
    var n := x.id as nat;
    var d := Decimal(n);
    assert SameIgnoringCase(Key, Key);
    ImportReadsAfterKey(Key, d);
    ParseDigits(n);
  }

  /**
   * The key is found in any letter case: a buffer that starts with a
   * case variant of it reads the value that follows.
   */
  lemma ImportReadsAfterKey(k: string, rest: string)
    requires SameIgnoringCase(k, Key)
    ensures ImportValue(k + rest) == Some(ParseU64(rest))
  {
    var s := k + rest;
    assert s[0..|Key|] == k;
    assert OccursAt(s, Key, 0);
    assert s[|Key|..] == rest;
  }

  /** A key glued to the end of a word is not a match. */
  lemma KeyNeedsWordStart(p: string, rest: string)
    requires p != [] && IsAlnum(p[|p| - 1])
    ensures !OccursAt(p + Key + rest, Key, |p|)
  {
    assert (p + Key + rest)[|p| - 1] == p[|p| - 1];
  }

  /**
   * Decimal text wraps around at 64 bits, and a leading '-' gives the
   * two's-complement bits of the negated value: "-1" reads as the largest
   * `uint64`, and 2^64 + 5 reads as 5.
   */
  lemma ParseWraps(n: nat)
    ensures ParseU64(Decimal(n)) as int == n % P64
    ensures ParseU64(['-'] + Decimal(n)) as int == (P64 - n % P64) % P64
  {
    ParseDigits(n);
    assert (['-'] + Decimal(n))[1..] == Decimal(n);
  }

  /** The leading digits of a decimal text are all of it, and denote its number. */
  lemma ParseDigits(n: nat)
    ensures DigitsValue(LeadingDigits(Decimal(n))) == n
  {
    LeadingDigitsOfRun(Decimal(n), []);
    assert Decimal(n) + [] == Decimal(n);
    DigitsValueOfDecimal(n);
  }

  /** `Id & ECS_ENTITY_MASK` and `ECS_GENERATION` split the low 48 bits of an entity id. */
  lemma IndexGenerationRecompose(x: FlecsId)
    requires !x.IsPair()
    ensures x.id as int % (P32 * 0x1_0000) == x.GetGeneration() * P32 + x.GetIndex()
    ensures x.id as int < P32 * 0x1_0000 ==> x.id as int == x.GetGeneration() * P32 + x.GetIndex()
  {
    var v := x.id as int;
    assert v == (v / P32) * P32 + v % P32;
    assert v / P32 == ((v / P32) / 0x1_0000) * 0x1_0000 + (v / P32) % 0x1_0000;
    assert v == ((v / P32) / 0x1_0000) * (P32 * 0x1_0000) + ((v / P32) % 0x1_0000) * P32 + v % P32;
  }

  /** An entity id built from a generation and an index gives both back. */
  lemma EntityIdRoundTrip(generation: nat, index: nat)
    requires generation < 0x1_0000 && index < P32
    ensures var x := FlecsId((generation * P32 + index) as u64);
      !x.IsPair() && x.GetIndex() == index && x.GetGeneration() == generation
  {
    var v := generation * P32 + index;
    assert v % P32 == index;
    assert v / P32 == generation;
  }

  /** A buffer without the key is refused, whatever else it holds. */
  lemma ImportWithoutKey(buffer: string)
    requires forall i: nat :: !OccursAt(buffer, Key, i)
    ensures ImportValue(buffer).None?
  {
  }
}
