// The query generator's input kinds. Each kind fixes, when it is built, the
// kind of value it hands to the Flecs query builder: an id, a string
// expression, or a custom call of its own (pairs and the name component).
// Pair inputs turn their two halves into the two arguments of one
// `with(first, second)` call; strings go to the builder as freshly copied,
// NUL-terminated byte strings.

module QueryInputs {
  import opened Wrappers
  import opened CollectionCalls

  /** `EQueryReturnType`. */
  datatype ReturnType = StringReturn | FlecsIdReturn | CustomBuilderReturn

  /**
   * The concrete `FFlecsQueryGeneratorInputType_*` structs with their
   * fields; a struct or enum pointer that may be null is an `Option`.
   */
  datatype Input =
    | ScriptStructInput(scriptStruct: Option<string>)
    | ScriptEnumInput(scriptEnum: Option<string>)
    | StringInput(inputString: string)
    | FlecsIdInput(flecsId: EntityId)
    | EnumConstantInput(enumClass: string, enumValue: int)
    | WildcardInput
    | AnyInput
    | PairInput(first: Input, second: Input)
    | NameComponentInput

  /**
   * What the inputs ask the world: the entity registered for a script
   * struct, for a script enum, and for one constant of a script enum (the
   * null id when there is none).
   */
  datatype QueryWorld = QueryWorld(
    structEntity: string -> EntityId,
    enumEntity: string -> EntityId,
    constantEntity: (string, int) -> EntityId)

  /** The ids of Flecs's built-in `flecs::Wildcard` and `flecs::Any` entities. */
  datatype Builtins = Builtins(wildcard: EntityId, any: EntityId)

  /**
   * The return type each input's constructor assigns; the string input
   * keeps the base struct's default.
   */
  function ReturnTypeOf(i: Input): ReturnType
  {
    match i
    case StringInput(_) => StringReturn
    case PairInput(_, _) => CustomBuilderReturn
    case NameComponentInput => CustomBuilderReturn
    case _ => FlecsIdReturn
  }

  /**
   * `GetFlecsIdOutput`; `None` where a check fails: a null struct or enum,
   * an enum constant with no entity, and every kind that does not override
   * the base struct's failing default.
   */
  function IdOutput(i: Input, w: QueryWorld, b: Builtins): (r: Option<EntityId>)
    ensures r.Some? ==> ReturnTypeOf(i) == FlecsIdReturn
    ensures i.FlecsIdInput? ==> r == Some(i.flecsId)
    ensures i.WildcardInput? ==> r == Some(b.wildcard)
    ensures i.AnyInput? ==> r == Some(b.any)
  {
    match i
    case ScriptStructInput(s) => if s.Some? then Some(w.structEntity(s.value)) else None
    case ScriptEnumInput(e) => if e.Some? then Some(w.enumEntity(e.value)) else None
    case FlecsIdInput(id) => Some(id)
    case EnumConstantInput(c, v) =>
      var id := w.constantEntity(c, v);
      if id != 0 then Some(id) else None
    case WildcardInput => Some(b.wildcard)
    case AnyInput => Some(b.any)
    case _ => None
  }

  /** `GetStringOutput`: only the string input overrides it, returning its text unchanged. */
  function StringOutput(i: Input): (r: Option<string>)
    ensures r.Some? <==> ReturnTypeOf(i) == StringReturn
    ensures i.StringInput? ==> r == Some(i.inputString)
  {
    match i
    case StringInput(s) => Some(s)
    case _ => None
  }

  /**
   * Every input that declares an id or a string return type provides that
   * output (a failed check aside), and a custom-builder input provides
   * neither.
   */
  lemma OutputsFollowReturnType(i: Input, w: QueryWorld, b: Builtins)
    ensures ReturnTypeOf(i) == CustomBuilderReturn ==> IdOutput(i, w, b).None? && StringOutput(i).None?
    ensures ReturnTypeOf(i) == FlecsIdReturn ==> StringOutput(i).None?
    ensures ReturnTypeOf(i) == FlecsIdReturn && !i.EnumConstantInput? && !i.ScriptStructInput? && !i.ScriptEnumInput?
      ==> IdOutput(i, w, b).Some?
  {
  }

  /** Wildcard and Any hand out the same id whatever the world. */
  lemma BuiltinsIgnoreWorld(w1: QueryWorld, w2: QueryWorld, b: Builtins)
    ensures IdOutput(WildcardInput, w1, b) == IdOutput(WildcardInput, w2, b) == Some(b.wildcard)
    ensures IdOutput(AnyInput, w1, b) == IdOutput(AnyInput, w2, b) == Some(b.any)
  {
  }

  /** `FCStringAnsi::Strlen`: the number of characters before the first NUL. */
  function Strlen(s: seq<char>): (n: nat)
    ensures n <= |s|
    ensures forall k :: 0 <= k < n ==> s[k] != '\0'
    ensures n < |s| ==> s[n] == '\0'
  {
    if s == [] || s[0] == '\0' then 0 else 1 + Strlen(s[1..])
  }

  /** A C string's text: everything before its terminator. */
  function CStringText(c: seq<char>): (r: seq<char>)
    ensures |r| <= |c|
  {
    c[..Strlen(c)]
  }

  /** The text holds no NUL character. */
  predicate NoNul(s: string)
  {
    forall k :: 0 <= k < |s| ==> s[k] != '\0'
  }

  /**
   * The owned copy handed to the builder: the converted buffer (the text
   * followed by a terminator) is measured with `Strlen` and its first
   * `Length + 1` characters are copied.
   */
  function OwnedCopy(s: string): (r: seq<char>)
    ensures |r| >= 1 && r[|r| - 1] == '\0'
  {
    var buf := s + ['\0'];
    assert buf[|buf| - 1] == '\0';
    buf[..Strlen(buf) + 1]
  }

  /** The copy is the text up to its first NUL plus one terminator. */
  lemma OwnedCopyShape(s: string)
    ensures OwnedCopy(s) == s[..Strlen(s)] + ['\0']
    ensures |OwnedCopy(s)| == Strlen(s) + 1
  {
    StrlenOfTerminated(s);
    TerminatedPrefix(s, Strlen(s));
  }

  /**
   * Cutting a terminated text just after a NUL at position `n` (or just
   * after its own terminator) keeps its first `n` characters and a terminator.
   */
  lemma TerminatedPrefix(s: string, n: nat)
    requires n <= |s|
    requires n < |s| ==> s[n] == '\0'
    ensures (s + ['\0'])[..n + 1] == s[..n] + ['\0']
  {
    var buf := s + ['\0'];
    var a, b := buf[..n + 1], s[..n] + ['\0'];
    assert |a| == |b|;
    assert forall k :: 0 <= k < |a| ==> a[k] == b[k];
  }

  /** Reading the copy back as a C string gives the text up to its first NUL. */
  lemma OwnedCopyText(s: string)
    ensures CStringText(OwnedCopy(s)) == s[..Strlen(s)]
  {
    var p := s[..Strlen(s)];
    OwnedCopyShape(s);
    StrlenPrefix(p);
    assert (p + ['\0'])[..|p|] == p;
  }

  /** A text with no NUL is copied whole and reads back unchanged. */
  lemma OwnedCopyWhole(s: string)
    requires NoNul(s)
    ensures OwnedCopy(s) == s + ['\0']
    ensures CStringText(OwnedCopy(s)) == s
  {
    OwnedCopyShape(s);
    OwnedCopyText(s);
    StrlenNoNul(s);
    assert s[..|s|] == s;
  }

  /** Appending a terminator does not move the first NUL. */
  lemma {:induction false} StrlenOfTerminated(s: string)
    ensures Strlen(s + ['\0']) == Strlen(s)
  {
    if s != [] && s[0] != '\0' {
      assert (s + ['\0'])[1..] == s[1..] + ['\0'];
      StrlenOfTerminated(s[1..]);
    }
  }

  /** A text with no NUL is measured whole. */
  lemma {:induction false} StrlenNoNul(s: string)
    requires NoNul(s)
    ensures Strlen(s) == |s|
  {
    if s != [] {
      StrlenNoNul(s[1..]);
    }
  }

  /** A copy's text up to its terminator is the prefix it was cut at. */
  lemma StrlenPrefix(p: string)
    requires NoNul(p)
    ensures Strlen(p + ['\0']) == |p|
  {
    StrlenOfTerminated(p);
    StrlenNoNul(p);
  }

  /** An argument of a pair's `with(first, second)` call. */
  datatype Arg = IdArg(id: EntityId) | StrArg(cstr: seq<char>)

  /** The calls the inputs make on the Flecs query builder. */
  datatype BuilderCall =
    | WithId(id: EntityId)
    | WithExpr(cstr: seq<char>)
    | WithPairCall(firstArg: Arg, secondArg: Arg)
    | WithNameComponentCall

  /** One half of a pair as a `with` argument: its id, or an owned copy of its string. */
  function PairArg(i: Input, w: QueryWorld, b: Builtins): (r: Option<Arg>)
    ensures r.Some? && r.value.IdArg? ==> ReturnTypeOf(i) == FlecsIdReturn && IdOutput(i, w, b) == Some(r.value.id)
    ensures r.Some? && r.value.StrArg? ==> ReturnTypeOf(i) == StringReturn && r.value.cstr == OwnedCopy(StringOutput(i).value)
    ensures ReturnTypeOf(i) == CustomBuilderReturn ==> r.None?
  {
    match ReturnTypeOf(i)
    case FlecsIdReturn =>
      var id := IdOutput(i, w, b);
      if id.Some? then Some(IdArg(id.value)) else None
    case StringReturn =>
      var s := StringOutput(i);
      if s.Some? then Some(StrArg(OwnedCopy(s.value))) else None
    case CustomBuilderReturn => None
  }

  /**
   * The pair input's `CustomBuilderOutput`: neither half may itself be a
   * custom builder; otherwise exactly one `with(first, second)` call whose
   * arguments are of the halves' own kinds.
   */
  function PairCall(first: Input, second: Input, w: QueryWorld, b: Builtins): (r: Option<BuilderCall>)
    ensures ReturnTypeOf(first) == CustomBuilderReturn || ReturnTypeOf(second) == CustomBuilderReturn ==> r.None?
    ensures r.Some? ==> r.value.WithPairCall?
  {
    if ReturnTypeOf(first) == CustomBuilderReturn || ReturnTypeOf(second) == CustomBuilderReturn then None
    else
      var a := PairArg(first, w, b);
      var c := PairArg(second, w, b);
      if a.Some? && c.Some? then Some(WithPairCall(a.value, c.value)) else None
  }

  /**
   * A pair's call carries an id argument exactly where that half returns an
   * id, and a string argument exactly where it returns a string; id halves
   * pass their id, string halves an owned copy of their string.
   */
  lemma PairArgumentKinds(first: Input, second: Input, w: QueryWorld, b: Builtins)
    requires PairCall(first, second, w, b).Some?
    ensures var c := PairCall(first, second, w, b).value;
      && (c.firstArg.IdArg? <==> ReturnTypeOf(first) == FlecsIdReturn)
      && (c.firstArg.StrArg? <==> ReturnTypeOf(first) == StringReturn)
      && (c.secondArg.IdArg? <==> ReturnTypeOf(second) == FlecsIdReturn)
      && (c.secondArg.StrArg? <==> ReturnTypeOf(second) == StringReturn)
      && (c.firstArg.IdArg? ==> IdOutput(first, w, b) == Some(c.firstArg.id))
      && (c.secondArg.IdArg? ==> IdOutput(second, w, b) == Some(c.secondArg.id))
      && (c.firstArg.StrArg? ==> c.firstArg.cstr == OwnedCopy(first.inputString))
      && (c.secondArg.StrArg? ==> c.secondArg.cstr == OwnedCopy(second.inputString))
  {
  }

  /**
   * A pair of two id or string halves whose outputs exist always makes its
   * one call: the checks only reject custom-builder halves and failed
   * lookups.
   */
  lemma PairCallMade(first: Input, second: Input, w: QueryWorld, b: Builtins)
    requires ReturnTypeOf(first) != CustomBuilderReturn && ReturnTypeOf(second) != CustomBuilderReturn
    requires ReturnTypeOf(first) == FlecsIdReturn ==> IdOutput(first, w, b).Some?
    requires ReturnTypeOf(second) == FlecsIdReturn ==> IdOutput(second, w, b).Some?
    ensures PairCall(first, second, w, b).Some?
  {
    OutputsFollowReturnType(first, w, b);
    OutputsFollowReturnType(second, w, b);
  }

  /**
   * `CustomBuilderOutput`: the pair's call, the name component's single
   * `with_name_component` call, and a failed check for every other kind.
   */
  function CustomOutput(i: Input, w: QueryWorld, b: Builtins): (r: Option<BuilderCall>)
    ensures r.Some? ==> ReturnTypeOf(i) == CustomBuilderReturn
    ensures i.NameComponentInput? ==> r == Some(WithNameComponentCall)
    ensures i.PairInput? ==> r == PairCall(i.first, i.second, w, b)
  {
    match i
    case PairInput(f, s) => PairCall(f, s, w, b)
    case NameComponentInput => Some(WithNameComponentCall)
    case _ => None
  }
}
