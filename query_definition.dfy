// `FFlecsQueryDefinition`: the editable description of a query. It holds a
// list of term expressions (an input, an operator and in/out children), the
// cache kind, a byte of query flags, the change-detection switch and a list
// of further expressions, and offers index-checked access to the terms.

module QueryDefinitions {
  import opened Wrappers
  import opened CollectionCalls
  import opened QueryInputs

  /** `EFlecsQueryOperator`, as far as the builder sets it. */
  datatype Operator = And | Or | Not | Optional | AndFrom | OrFrom

  /** `EFlecsQueryInOut`. */
  datatype InOutKind = InOutDefault | InOutNone | Read | Write | ReadWrite | Filter

  /** `FFlecsExpressionInOut`: an in/out child of a term and whether it is staged. */
  datatype InOutChild = InOutChild(inOut: InOutKind, stage: bool)

  /**
   * `FFlecsQueryTermExpression`: the term's input, its operator (`None`
   * while the builder has not set one, so the term keeps its default) and
   * its children.
   */
  datatype TermExpr = TermExpr(input: Input, oper: Option<Operator>, children: seq<InOutChild>)

  /** A freshly made term expression: only its input is set. */
  function NewTerm(i: Input): (t: TermExpr)
    ensures t.input == i && t.oper.None? && t.children == []
  {
    TermExpr(i, None, [])
  }

  /** `EFlecsQueryCacheType`. */
  datatype CacheType = CacheDefault | CacheAuto | CacheAll | CacheNone

  /** An entry of `OtherExpressions`; the expression kinds are not part of this model. */
  datatype OtherExpression = OtherExpression(description: string)

  /** `EFlecsQueryFlags::None`. */
  const NoFlags: Byte := 0

  /** `FFlecsQueryDefinition`. */
  class QueryDefinition {
    var terms: seq<TermExpr>
    var cacheType: CacheType
    var flags: Byte
    var detectChanges: bool
    var otherExpressions: seq<OtherExpression>

    /** The defaults: no terms, no other expressions, default caching, no flags, no change detection. */
    constructor()
      ensures terms == [] && otherExpressions == []
      ensures cacheType == CacheDefault && flags == NoFlags && !detectChanges
    {
      terms := [];
      cacheType := CacheDefault;
      flags := NoFlags;
      detectChanges := false;
      otherExpressions := [];
    }

    /** `AddQueryTerm`: one term appended, nothing else changed. */
    method AddQueryTerm(t: TermExpr)
      modifies this
      ensures terms == old(terms) + [t]
      ensures cacheType == old(cacheType) && flags == old(flags) && detectChanges == old(detectChanges)
      ensures otherExpressions == old(otherExpressions)
      ensures GetNumTerms() == old(GetNumTerms()) + 1 && GetTermAt(GetLastTermIndex()) == t
      ensures forall i :: IsValidTermIndex(i) <==> old(IsValidTermIndex(i)) || i == old(GetNumTerms())
    {
      terms := terms + [t];
    }

    /** `AddAdditionalExpression`: appends to the other expressions only. */
    method AddAdditionalExpression(e: OtherExpression)
      modifies this
      ensures otherExpressions == old(otherExpressions) + [e]
      ensures terms == old(terms) && cacheType == old(cacheType) && flags == old(flags)
      ensures detectChanges == old(detectChanges)
    {
      otherExpressions := otherExpressions + [e];
    }

    /** `GetNumTerms`. */
    function GetNumTerms(): (n: nat)
      reads this
      ensures n == |terms|
    {
      |terms|
    }

    /** `IsValidTermIndex`: `TArray::IsValidIndex`. */
    predicate IsValidTermIndex(i: int)
      reads this
    {
      0 <= i < |terms|
    }

    /** `GetLastTermIndex`: checked to have terms; the index of the last one. */
    function GetLastTermIndex(): (r: int)
      reads this
      requires terms != []
      ensures IsValidTermIndex(r) && !IsValidTermIndex(r + 1)
    {
      |terms| - 1
    }

    /** `GetTermAt`: checked to be a valid index. */
    function GetTermAt(i: int): (t: TermExpr)
      reads this
      requires IsValidTermIndex(i)
      ensures t == terms[i]
    {
      terms[i]
    }

    /** `GetLastTerm`: checked to have terms. */
    function GetLastTerm(): (t: TermExpr)
      reads this
      requires terms != []
      ensures t == GetTermAt(GetLastTermIndex())
    {
      terms[|terms| - 1]
    }
  }

  /** Exactly the indices `0 .. Num() - 1` are valid, and the last index is the greatest of them. */
  lemma ValidIndices(d: QueryDefinition, i: int)
    requires d.terms != []
    ensures d.IsValidTermIndex(i) <==> 0 <= i <= d.GetLastTermIndex()
    ensures d.GetLastTermIndex() == d.GetNumTerms() - 1
  {
  }
}
