// `TFlecsQueryBuilderBase`: a fluent editor of a query definition. It keeps
// a cursor, `LastTermIndex`, on one term; adding a term moves the cursor to
// it, and the operator, in/out and `Second` calls edit the term under the
// cursor, each checking first that the cursor is a valid index.
//
// The `Without` overloads as written negate the term under the cursor BEFORE
// appending the new one, so the previous term is excluded and the new one is
// required; on an empty definition their check fails. The intended meaning,
// the one the template pair helpers and Flecs's own `without` have, is to
// append the new term and negate it. `WithoutAsWritten` models the code;
// `Without`, used by the rest of this module, the intended behaviour.

module QueryBuilders {
  import opened Wrappers
  import opened CollectionCalls
  import opened QueryInputs
  import opened QueryDefinitions

  /** The inputs the `With`/`Without`/`Second` overloads build: ids, non-null structs and enums, strings, enum constants. */
  predicate TermInput(i: Input)
  {
    || i.FlecsIdInput?
    || (i.ScriptStructInput? && i.scriptStruct.Some?)
    || i.StringInput?
    || (i.ScriptEnumInput? && i.scriptEnum.Some?)
    || i.EnumConstantInput?
  }

  /** `Oper`'s edit: term `k` gets the operator; every other term and every other part of term `k` stays. */
  function SetOper(terms: seq<TermExpr>, k: int, op: Operator): (r: seq<TermExpr>)
    requires 0 <= k < |terms|
    ensures |r| == |terms|
    ensures r[k].oper == Some(op) && r[k].input == terms[k].input && r[k].children == terms[k].children
    ensures forall j :: 0 <= j < |terms| && j != k ==> r[j] == terms[j]
  {
    terms[k := terms[k].(oper := Some(op))]
  }

  /** Setting the same operator twice is setting it once. */
  lemma SetOperIdempotent(terms: seq<TermExpr>, k: int, op: Operator)
    requires 0 <= k < |terms|
    ensures SetOper(SetOper(terms, k, op), k, op) == SetOper(terms, k, op)
  {
    var once := SetOper(terms, k, op);
    assert once[k].(oper := Some(op)) == once[k];
  }

  /** `InOutExpression`'s edit: one in/out child appended to term `k`'s children; nothing else changes. */
  function AddInOut(terms: seq<TermExpr>, k: int, kind: InOutKind, stage: bool): (r: seq<TermExpr>)
    requires 0 <= k < |terms|
    ensures |r| == |terms|
    ensures r[k].children == terms[k].children + [InOutChild(kind, stage)]
    ensures r[k].input == terms[k].input && r[k].oper == terms[k].oper
    ensures forall j :: 0 <= j < |terms| && j != k ==> r[j] == terms[j]
  {
    terms[k := terms[k].(children := terms[k].children + [InOutChild(kind, stage)])]
  }

  /**
   * `Second`'s edit: term `k`'s input becomes the pair of its old input and
   * the new one; the term count, its operator and children and every other
   * term stay.
   */
  function MakePair(terms: seq<TermExpr>, k: int, second: Input): (r: seq<TermExpr>)
    requires 0 <= k < |terms|
    ensures |r| == |terms|
    ensures r[k].input == PairInput(terms[k].input, second)
    ensures r[k].oper == terms[k].oper && r[k].children == terms[k].children
    ensures forall j :: 0 <= j < |terms| && j != k ==> r[j] == terms[j]
  {
    terms[k := terms[k].(input := PairInput(terms[k].input, second))]
  }

  /** The terms after the `Without` overloads as written; `None` where their check on the cursor fails. */
  function WithoutTermsAsWritten(terms: seq<TermExpr>, last: int, i: Input): (r: Option<seq<TermExpr>>)
    ensures r.Some? <==> 0 <= last < |terms|
  {
    if 0 <= last < |terms| then Some(SetOper(terms, last, Not) + [NewTerm(i)]) else None
  }

  /** The terms after the intended `Without`: the new term appended and negated. */
  function WithoutTerms(terms: seq<TermExpr>, i: Input): (r: seq<TermExpr>)
  {
    terms + [TermExpr(i, Some(Not), [])]
  }

  /**
   * As written, `Without` negates the term under the cursor and leaves the
   * new term's operator untouched; it cannot start a definition.
   */
  lemma WithoutAsWrittenNegatesPrevious(terms: seq<TermExpr>, last: int, i: Input)
    ensures terms == [] ==> WithoutTermsAsWritten(terms, last, i).None?
    ensures 0 <= last < |terms| ==>
      var r := WithoutTermsAsWritten(terms, last, i).value;
      && |r| == |terms| + 1
      && r[last].oper == Some(Not) && r[last].input == terms[last].input
      && r[|terms|] == NewTerm(i)
  {
  }

  /**
   * The intended `Without` keeps every earlier term as it was and adds one
   * negated term for the input, whatever the cursor; negating it once more,
   * as the template overload does, changes nothing.
   */
  lemma WithoutNegatesNewTerm(terms: seq<TermExpr>, i: Input)
    ensures |WithoutTerms(terms, i)| == |terms| + 1
    ensures WithoutTerms(terms, i)[..|terms|] == terms
    ensures WithoutTerms(terms, i)[|terms|] == TermExpr(i, Some(Not), [])
    ensures SetOper(WithoutTerms(terms, i), |terms|, Not) == WithoutTerms(terms, i)
  {
    var r := WithoutTerms(terms, i);
    assert r[|terms|].(oper := Some(Not)) == r[|terms|];
  }

  /**
   * A query "with A, without X": as written the definition reads "not A,
   * X", and a lone "without X" fails its check, where "A, not X" and
   * "not X" are meant.
   */
  lemma WithoutExampleAsWritten()
    ensures var a := NewTerm(FlecsIdInput(5));
      var x := FlecsIdInput(6);
      && WithoutTermsAsWritten([a], 0, x) == Some([TermExpr(FlecsIdInput(5), Some(Not), []), TermExpr(x, None, [])])
      && WithoutTerms([a], x) == [TermExpr(FlecsIdInput(5), None, []), TermExpr(x, Some(Not), [])]
      && WithoutTermsAsWritten([], -1, x).None?
      && WithoutTerms([], x) == [TermExpr(x, Some(Not), [])]
  {
    var a := NewTerm(FlecsIdInput(5));
    var x := FlecsIdInput(6);
    assert SetOper([a], 0, Not) == [TermExpr(FlecsIdInput(5), Some(Not), [])];
    assert WithoutTermsAsWritten([a], 0, x) == Some([TermExpr(FlecsIdInput(5), Some(Not), [])] + [NewTerm(x)]);
    assert NewTerm(x) == TermExpr(x, None, []);
    assert [TermExpr(FlecsIdInput(5), Some(Not), [])] + [NewTerm(x)] == [TermExpr(FlecsIdInput(5), Some(Not), []), TermExpr(x, None, [])];
  }

  /** `TFlecsQueryBuilderBase` over the definition it edits. */
  class QueryBuilder {
    const definition: QueryDefinition
    var lastTermIndex: int

    /** A builder over `d` whose cursor starts at -1 (no term). */
    constructor(d: QueryDefinition)
      ensures definition == d && lastTermIndex == -1
    {
      definition := d;
      lastTermIndex := -1;
    }

    /** The definition's settings other than its terms are as they were. */
    twostate predicate SettingsKept()
      reads this, definition
    {
      && definition.cacheType == old(definition.cacheType)
      && definition.flags == old(definition.flags)
      && definition.detectChanges == old(definition.detectChanges)
      && definition.otherExpressions == old(definition.otherExpressions)
    }

    /** `AddTerm`: one term appended, and the cursor moved onto it. */
    method AddTerm(t: TermExpr)
      modifies this, definition
      ensures definition.terms == old(definition.terms) + [t]
      ensures lastTermIndex == |old(definition.terms)| && definition.IsValidTermIndex(lastTermIndex)
      ensures SettingsKept()
    {
      definition.AddQueryTerm(t);
      lastTermIndex := definition.GetLastTermIndex();
    }

    /**
     * `TermAt`: the check is on the cursor as it was, not on the new index;
     * the cursor then moves to `i`, valid or not.
     */
    method TermAt(i: int)
      requires definition.IsValidTermIndex(lastTermIndex)
      modifies this
      ensures lastTermIndex == i
    {
      lastTermIndex := i;
    }

    /** `Cache`: only the cache kind changes. */
    method Cache(c: CacheType)
      modifies definition
      ensures definition.cacheType == c
      ensures definition.terms == old(definition.terms) && definition.flags == old(definition.flags)
      ensures definition.detectChanges == old(definition.detectChanges)
      ensures definition.otherExpressions == old(definition.otherExpressions)
    {
      definition.cacheType := c;
    }

    /** `DetectChanges`: only the change-detection switch changes. */
    method DetectChanges(b: bool)
      modifies definition
      ensures definition.detectChanges == b
      ensures definition.terms == old(definition.terms) && definition.flags == old(definition.flags)
      ensures definition.cacheType == old(definition.cacheType)
      ensures definition.otherExpressions == old(definition.otherExpressions)
    {
      definition.detectChanges := b;
    }

    /** Both `Flags` overloads (the enum one casts to the byte): only the flags change. */
    method Flags(f: Byte)
      modifies definition
      ensures definition.flags == f
      ensures definition.terms == old(definition.terms) && definition.cacheType == old(definition.cacheType)
      ensures definition.detectChanges == old(definition.detectChanges)
      ensures definition.otherExpressions == old(definition.otherExpressions)
    {
      definition.flags := f;
    }

    /** `Oper`: checked cursor; only that term's operator changes. */
    method Oper(op: Operator)
      requires definition.IsValidTermIndex(lastTermIndex)
      modifies definition
      ensures definition.terms == SetOper(old(definition.terms), lastTermIndex, op)
      ensures SettingsKept()
    {
      definition.terms := SetOper(definition.terms, lastTermIndex, op);
    }

    method And()
      requires definition.IsValidTermIndex(lastTermIndex)
      modifies definition
      ensures definition.terms == SetOper(old(definition.terms), lastTermIndex, QueryDefinitions.And)
      ensures SettingsKept()
    {
      Oper(QueryDefinitions.And);
    }

    method Or()
      requires definition.IsValidTermIndex(lastTermIndex)
      modifies definition
      ensures definition.terms == SetOper(old(definition.terms), lastTermIndex, QueryDefinitions.Or)
      ensures SettingsKept()
    {
      Oper(QueryDefinitions.Or);
    }

    method Not()
      requires definition.IsValidTermIndex(lastTermIndex)
      modifies definition
      ensures definition.terms == SetOper(old(definition.terms), lastTermIndex, QueryDefinitions.Not)
      ensures SettingsKept()
    {
      Oper(QueryDefinitions.Not);
    }

    method Optional()
      requires definition.IsValidTermIndex(lastTermIndex)
      modifies definition
      ensures definition.terms == SetOper(old(definition.terms), lastTermIndex, QueryDefinitions.Optional)
      ensures SettingsKept()
    {
      Oper(QueryDefinitions.Optional);
    }

    method AndFrom()
      requires definition.IsValidTermIndex(lastTermIndex)
      modifies definition
      ensures definition.terms == SetOper(old(definition.terms), lastTermIndex, QueryDefinitions.AndFrom)
      ensures SettingsKept()
    {
      Oper(QueryDefinitions.AndFrom);
    }

    method OrFrom()
      requires definition.IsValidTermIndex(lastTermIndex)
      modifies definition
      ensures definition.terms == SetOper(old(definition.terms), lastTermIndex, QueryDefinitions.OrFrom)
      ensures SettingsKept()
    {
      Oper(QueryDefinitions.OrFrom);
    }

    /** `InOutExpression`: checked cursor; one in/out child appended to that term. */
    method InOutExpression(kind: InOutKind, stage: bool)
      requires definition.IsValidTermIndex(lastTermIndex)
      modifies definition
      ensures definition.terms == AddInOut(old(definition.terms), lastTermIndex, kind, stage)
      ensures SettingsKept()
    {
      definition.terms := AddInOut(definition.terms, lastTermIndex, kind, stage);
    }

    /** `In`: read, unstaged. */
    method In()
      requires definition.IsValidTermIndex(lastTermIndex)
      modifies definition
      ensures definition.terms == AddInOut(old(definition.terms), lastTermIndex, Read, false)
      ensures SettingsKept()
    {
      InOutExpression(Read, false);
    }

    /** `Out`: write, unstaged. */
    method Out()
      requires definition.IsValidTermIndex(lastTermIndex)
      modifies definition
      ensures definition.terms == AddInOut(old(definition.terms), lastTermIndex, Write, false)
      ensures SettingsKept()
    {
      InOutExpression(Write, false);
    }

    /** `InOut`: read/write, unstaged. */
    method InOut()
      requires definition.IsValidTermIndex(lastTermIndex)
      modifies definition
      ensures definition.terms == AddInOut(old(definition.terms), lastTermIndex, ReadWrite, false)
      ensures SettingsKept()
    {
      InOutExpression(ReadWrite, false);
    }

    /** `Read`: read, staged. */
    method ReadStaged()
      requires definition.IsValidTermIndex(lastTermIndex)
      modifies definition
      ensures definition.terms == AddInOut(old(definition.terms), lastTermIndex, Read, true)
      ensures SettingsKept()
    {
      InOutExpression(Read, true);
    }

    /** `Write`: write, staged. */
    method WriteStaged()
      requires definition.IsValidTermIndex(lastTermIndex)
      modifies definition
      ensures definition.terms == AddInOut(old(definition.terms), lastTermIndex, Write, true)
      ensures SettingsKept()
    {
      InOutExpression(Write, true);
    }

    /** `ReadWrite`: read/write, staged. */
    method ReadWriteStaged()
      requires definition.IsValidTermIndex(lastTermIndex)
      modifies definition
      ensures definition.terms == AddInOut(old(definition.terms), lastTermIndex, ReadWrite, true)
      ensures SettingsKept()
    {
      InOutExpression(ReadWrite, true);
    }

    /** `Filter`: unstaged. */
    method FilterTerm()
      requires definition.IsValidTermIndex(lastTermIndex)
      modifies definition
      ensures definition.terms == AddInOut(old(definition.terms), lastTermIndex, Filter, false)
      ensures SettingsKept()
    {
      InOutExpression(Filter, false);
    }

    /** `InOutNone`: unstaged. */
    method InOutNoneTerm()
      requires definition.IsValidTermIndex(lastTermIndex)
      modifies definition
      ensures definition.terms == AddInOut(old(definition.terms), lastTermIndex, InOutNone, false)
      ensures SettingsKept()
    {
      InOutExpression(InOutNone, false);
    }

    /** The `With` overloads: one fresh term for the input, with the cursor on it. */
    method With(i: Input)
      requires TermInput(i)
      modifies this, definition
      ensures definition.terms == old(definition.terms) + [NewTerm(i)]
      ensures lastTermIndex == |old(definition.terms)|
      ensures SettingsKept()
    {
      AddTerm(NewTerm(i));
      lastTermIndex := definition.GetLastTermIndex();
    }

    /** The non-template `Without` overloads as written: negate the term under the cursor, then append. */
    method WithoutAsWritten(i: Input)
      requires TermInput(i)
      requires definition.IsValidTermIndex(lastTermIndex)
      modifies this, definition
      ensures definition.terms == WithoutTermsAsWritten(old(definition.terms), old(lastTermIndex), i).value
      ensures lastTermIndex == |old(definition.terms)|
      ensures SettingsKept()
    {
      Not();
      AddTerm(NewTerm(i));
      lastTermIndex := definition.GetLastTermIndex();
    }

    /**
     * The template `Without<T>` as written: the non-template overload, then
     * `Not` on the new term, so the new term and the one under the old
     * cursor are both negated.
     */
    method WithoutTypedAsWritten(i: Input)
      requires TermInput(i)
      requires definition.IsValidTermIndex(lastTermIndex)
      modifies this, definition
      ensures definition.terms == SetOper(WithoutTermsAsWritten(old(definition.terms), old(lastTermIndex), i).value, |old(definition.terms)|, QueryDefinitions.Not)
      ensures lastTermIndex == |old(definition.terms)|
      ensures SettingsKept()
    {
      WithoutAsWritten(i);
      Not();
    }

    /** `Without`, as intended: the new term appended and negated, the cursor on it. */
    method Without(i: Input)
      requires TermInput(i)
      modifies this, definition
      ensures definition.terms == WithoutTerms(old(definition.terms), i)
      ensures lastTermIndex == |old(definition.terms)|
      ensures SettingsKept()
    {
      AddTerm(NewTerm(i));
      Not();
    }

    /**
     * `Without<T>` over the intended `Without`: the extra `Not` lands on the
     * already negated new term and changes nothing.
     */
    method WithoutTyped(i: Input)
      requires TermInput(i)
      modifies this, definition
      ensures definition.terms == WithoutTerms(old(definition.terms), i)
      ensures lastTermIndex == |old(definition.terms)|
      ensures SettingsKept()
    {
      ghost var before := definition.terms;
      Without(i);
      Not();
      WithoutNegatesNewTerm(before, i);
    }

    /** The `Second` overloads: checked cursor; that term's input becomes a pair with the new input second. */
    method Second(i: Input)
      requires TermInput(i)
      requires definition.IsValidTermIndex(lastTermIndex)
      modifies definition
      ensures definition.terms == MakePair(old(definition.terms), lastTermIndex, i)
      ensures SettingsKept()
    {
      definition.terms := MakePair(definition.terms, lastTermIndex, i);
    }

    /** `WithPair(first, second)`: exactly one new term, the pair, with the cursor on it. */
    method WithPair(first: Input, second: Input)
      requires TermInput(first) && TermInput(second)
      modifies this, definition
      ensures definition.terms == old(definition.terms) + [NewTerm(PairInput(first, second))]
      ensures lastTermIndex == |old(definition.terms)|
      ensures SettingsKept()
    {
      With(first);
      Second(second);
      assert definition.terms == MakePair(old(definition.terms) + [NewTerm(first)], |old(definition.terms)|, second);
    }

    /** `WithoutPair(first, second)` over the intended `Without`: one new negated pair term. */
    method WithoutPair(first: Input, second: Input)
      requires TermInput(first) && TermInput(second)
      modifies this, definition
      ensures definition.terms == WithoutTerms(old(definition.terms), PairInput(first, second))
      ensures lastTermIndex == |old(definition.terms)|
      ensures SettingsKept()
    {
      Without(first);
      Second(second);
      assert definition.terms == MakePair(WithoutTerms(old(definition.terms), first), |old(definition.terms)|, second);
    }

    /** `ModifyLastTerm`: checked cursor; the modifier's result replaces that term. */
    method ModifyLastTerm(modifier: TermExpr -> TermExpr)
      requires definition.IsValidTermIndex(lastTermIndex)
      modifies definition
      ensures definition.terms == old(definition.terms)[lastTermIndex := modifier(old(definition.terms)[lastTermIndex])]
      ensures SettingsKept()
    {
      definition.terms := definition.terms[lastTermIndex := modifier(definition.terms[lastTermIndex])];
    }

    /** `AddExpression`: appends to the definition's other expressions only. */
    method AddExpression(e: OtherExpression)
      modifies definition
      ensures definition.otherExpressions == old(definition.otherExpressions) + [e]
      ensures definition.terms == old(definition.terms)
      ensures definition.cacheType == old(definition.cacheType) && definition.flags == old(definition.flags)
      ensures definition.detectChanges == old(definition.detectChanges)
    {
      definition.AddAdditionalExpression(e);
    }
  }
}
