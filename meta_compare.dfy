// The compare/equals hooks the meta addon installs on primitive types.
//
// Two families exist. The wide integer types (u32, u64, uptr, i32, i64, iptr,
// entity, id) compare with `(a > b) - (a < b)`, which is exactly -1, 0 or 1.
// The narrow types (bool, char, byte, u8, u16, i8, i16) are promoted to `int`
// and subtracted, so only the sign of the result is meaningful. Strings are
// compared first by pointer, then by NULL-ness, then with strcmp.

module MetaCompare {

  /** The integer types whose hooks use the `(a > b) - (a < b)` form. */
  datatype WideKind = U32 | U64 | UPtr | I32 | I64 | IPtr | EntityKind | IdKind

  /** The integer types whose hooks subtract the promoted operands. */
  datatype NarrowKind = Bool | Char | Byte | U8 | U16 | I8 | I16

  /** Pointer-sized types are taken to be 64 bits wide. */
  predicate InWideRange(k: WideKind, v: int)
  {
    match k
    case U32 => 0 <= v < 0x1_0000_0000
    case U64 | UPtr | EntityKind | IdKind => 0 <= v < 0x1_0000_0000_0000_0000
    case I32 => -0x8000_0000 <= v < 0x8000_0000
    case I64 | IPtr => -0x8000_0000_0000_0000 <= v < 0x8000_0000_0000_0000
  }

  /** `char` is taken to be signed, as on the platforms the plugin targets. */
  predicate InNarrowRange(k: NarrowKind, v: int)
  {
    match k
    case Bool => 0 <= v <= 1
    case Char | I8 => -128 <= v < 128
    case Byte | U8 => 0 <= v < 256
    case U16 => 0 <= v < 0x1_0000
    case I16 => -0x8000 <= v < 0x8000
  }

  /** A C relational operator yields the int 0 or 1. */
  function CBool(b: bool): int { if b then 1 else 0 }

  /** The wide comparator: `(a > b) - (a < b)`. */
  function CompareWide(k: WideKind, a: int, b: int): (r: int)
    requires InWideRange(k, a) && InWideRange(k, b)
    ensures -1 <= r <= 1
    ensures r == 0 <==> a == b
    ensures r < 0 <==> a < b
    ensures r > 0 <==> a > b
  {
    CBool(a > b) - CBool(a < b)
  }

  /** Every wide `equals` hook is `compare(...) == 0`. */
  function EqualsWide(k: WideKind, a: int, b: int): (r: bool)
    requires InWideRange(k, a) && InWideRange(k, b)
    ensures r <==> a == b
  {
    CompareWide(k, a, b) == 0
  }

  /** The narrow comparator: `(int)a - (int)b`; the operands fit in an int, so no overflow. */
  function CompareNarrow(k: NarrowKind, a: int, b: int): (r: int)
    requires InNarrowRange(k, a) && InNarrowRange(k, b)
    ensures -0x1_0000 < r < 0x1_0000
    ensures r == 0 <==> a == b
    ensures r < 0 <==> a < b
  {
    a - b
  }

  function EqualsNarrow(k: NarrowKind, a: int, b: int): (r: bool)
    requires InNarrowRange(k, a) && InNarrowRange(k, b)
    ensures r <==> a == b
  {
    CompareNarrow(k, a, b) == 0
  }

  /** Swapping the operands negates the wide comparator. */
  lemma CompareWideAntisymmetric(k: WideKind, a: int, b: int)
    requires InWideRange(k, a) && InWideRange(k, b)
    ensures CompareWide(k, a, b) == -CompareWide(k, b, a)
  {
  }

  /** The wide comparator is a total order: it is transitive on "not greater". */
  lemma CompareWideTransitive(k: WideKind, a: int, b: int, c: int)
    requires InWideRange(k, a) && InWideRange(k, b) && InWideRange(k, c)
    requires CompareWide(k, a, b) <= 0 && CompareWide(k, b, c) <= 0
    ensures CompareWide(k, a, c) <= 0
  {
  }

  // ---------------------------------------------------------------------
  // Strings

  /**
   * A `const char*` value: NULL, or a pointer to NUL-terminated text. The text
   * holds the bytes before the terminator.
   */
  datatype CString = Null | Ptr(addr: nat, text: seq<int>)

  /** C pointer equality. */
  predicate SamePointer(a: CString, b: CString)
  {
    (a.Null? && b.Null?) || (a.Ptr? && b.Ptr? && a.addr == b.addr)
  }

  /** Two pointers to the same address see the same text. */
  predicate Coherent(a: CString, b: CString)
  {
    a.Ptr? && b.Ptr? && a.addr == b.addr ==> a.text == b.text
  }

  /**
   * strcmp on the bytes before the terminators: a prefix sorts first, and
   * otherwise the first differing byte decides. C fixes only the sign of
   * strcmp's result, so the model returns -1, 0 or 1.
   */
  function StrCmp(s: seq<int>, t: seq<int>): (r: int)
    decreases |s|
  {
    if s == [] && t == [] then 0
    else if s == [] then -1
    else if t == [] then 1
    else if s[0] < t[0] then -1
    else if s[0] > t[0] then 1
    else StrCmp(s[1..], t[1..])
  }

  /** `ecs_compare_string`. */
  function CompareString(a: CString, b: CString): (r: int)
    ensures SamePointer(a, b) ==> r == 0
    ensures !SamePointer(a, b) && a.Null? ==> r == -1
    ensures !SamePointer(a, b) && a.Ptr? && b.Null? ==> r == 1
    ensures a.Ptr? && b.Ptr? && a.addr != b.addr ==> r == StrCmp(a.text, b.text)
  {
    if SamePointer(a, b) then 0
    else if a.Null? then -1
    else if b.Null? then 1
    else StrCmp(a.text, b.text)
  }

  /** `ecs_equals_string`. */
  function EqualsString(a: CString, b: CString): (r: bool)
  {
    CompareString(a, b) == 0
  }

  lemma {:induction false} StrCmpZeroIff(s: seq<int>, t: seq<int>)
    ensures StrCmp(s, t) == 0 <==> s == t
    decreases |s|
  {
    if s != [] && t != [] && s[0] == t[0] {
      StrCmpZeroIff(s[1..], t[1..]);
      assert s == [s[0]] + s[1..] && t == [t[0]] + t[1..];
    }
  }

  lemma {:induction false} StrCmpAntisymmetric(s: seq<int>, t: seq<int>)
    ensures StrCmp(s, t) == -StrCmp(t, s)
    decreases |s|
  {
    if s != [] && t != [] && s[0] == t[0] {
      StrCmpAntisymmetric(s[1..], t[1..]);
    }
  }

  /**
   * Two strings compare equal exactly when both are NULL or both are non-NULL
   * with the same text, whether or not they share a pointer.
   */
  lemma EqualsStringIff(a: CString, b: CString)
    requires Coherent(a, b)
    ensures EqualsString(a, b) <==> (a.Null? && b.Null?) || (a.Ptr? && b.Ptr? && a.text == b.text)
  {
    if a.Ptr? && b.Ptr? {
      StrCmpZeroIff(a.text, b.text);
    }
  }

  /** Swapping the operands negates the string comparator. */
  lemma CompareStringAntisymmetric(a: CString, b: CString)
    requires Coherent(a, b)
    ensures CompareString(a, b) == -CompareString(b, a)
  {
    if a.Ptr? && b.Ptr? && a.addr != b.addr {
      StrCmpAntisymmetric(a.text, b.text);
    }
  }
}
