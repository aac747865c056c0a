// `FFlecsQueryTerm::ApplyToQueryBuilder`: a term hands its input to the Flecs
// query builder in exactly one of three ways, chosen by the input's return
// type: `with(id)`, `with(expression)` on an owned copy of the string, or the
// input's own custom call.

module QueryTerms {
  import opened Wrappers
  import opened CollectionCalls
  import opened QueryInputs

  /**
   * The builder call a term makes; `None` where a check on the way fails
   * (an input with no output of its declared kind).
   */
  function TermCall(i: Input, w: QueryWorld, b: Builtins): (r: Option<BuilderCall>)
    ensures r.Some? ==> (r.value.WithId? <==> ReturnTypeOf(i) == FlecsIdReturn)
    ensures r.Some? ==> (r.value.WithExpr? <==> ReturnTypeOf(i) == StringReturn)
    ensures r.Some? ==> (r.value.WithPairCall? || r.value.WithNameComponentCall? <==> ReturnTypeOf(i) == CustomBuilderReturn)
  {
    match ReturnTypeOf(i)
    case FlecsIdReturn =>
      var id := IdOutput(i, w, b);
      if id.Some? then Some(WithId(id.value)) else None
    case StringReturn =>
      var s := StringOutput(i);
      if s.Some? then Some(WithExpr(OwnedCopy(s.value))) else None
    case CustomBuilderReturn => CustomOutput(i, w, b)
  }

  /**
   * An id term passes the input's id; a string term passes a terminated
   * copy whose text is the input's string (up to any NUL it holds); a
   * custom term makes the input's own call.
   */
  lemma TermCallArguments(i: Input, w: QueryWorld, b: Builtins)
    ensures ReturnTypeOf(i) == FlecsIdReturn ==>
      (TermCall(i, w, b).Some? <==> IdOutput(i, w, b).Some?)
      && (TermCall(i, w, b).Some? ==> TermCall(i, w, b).value.id == IdOutput(i, w, b).value)
    ensures i.StringInput? ==>
      && TermCall(i, w, b).Some?
      && TermCall(i, w, b).value.cstr == i.inputString[..Strlen(i.inputString)] + ['\0']
      && (NoNul(i.inputString) ==> CStringText(TermCall(i, w, b).value.cstr) == i.inputString)
    ensures ReturnTypeOf(i) == CustomBuilderReturn ==> TermCall(i, w, b) == CustomOutput(i, w, b)
  {
    if i.StringInput? {
      OwnedCopyShape(i.inputString);
      if NoNul(i.inputString) {
        OwnedCopyWhole(i.inputString);
      }
    }
  }

  /** The query builder, as the log of calls made on it. */
  class QueryBuilderLog {
    var calls: seq<BuilderCall>

    constructor()
      ensures calls == []
    {
      calls := [];
    }

    /**
     * `ApplyToQueryBuilder`: one call appended when the term's checks pass,
     * reported by `ok`; nothing appended otherwise.
     */
    method ApplyTerm(i: Input, w: QueryWorld, b: Builtins) returns (ok: bool)
      modifies this
      ensures ok <==> TermCall(i, w, b).Some?
      ensures ok ==> calls == old(calls) + [TermCall(i, w, b).value]
      ensures !ok ==> calls == old(calls)
    {
      var rt := ReturnTypeOf(i);
      if rt == FlecsIdReturn {
        var id := IdOutput(i, w, b);
        if id.None? {
          return false;
        }
        calls := calls + [WithId(id.value)];
      } else if rt == StringReturn {
        var s := StringOutput(i);
        if s.None? {
          return false;
        }
        var owned := OwnedCopy(s.value);
        calls := calls + [WithExpr(owned)];
      } else {
        var c := CustomOutput(i, w, b);
        if c.None? {
          return false;
        }
        calls := calls + [c.value];
      }
      return true;
    }
  }
}
