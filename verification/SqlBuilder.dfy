/** ParamBuilder, and the text shapes that every emitter of the query package shares. */
module SqlBuilder {
  import opened Prelude
  import opened Json
  import opened Sql
  import opened SqlReading

  // ---------------------------------------------------------------- the shared parameter list

  /** ParamBuilder: an append-only list of bound values with `$1`, `$2`, ... numbering. */
  class ParamBuilder {
    var params: seq<Bind>

    constructor ()
      ensures params == []
    {
      params := [];
    }

    method Push(value: Bind) returns (placeholder: Tok)
      modifies this
      ensures params == old(params) + [value]
      ensures placeholder == Dollar(|params|)
    {
      params := params + [value];
      placeholder := Dollar(|params|);
    }
  }

  /** Emitted text and the parameter list after it. */
  datatype Emitted = Emitted(toks: seq<Tok>, params: seq<Bind>)

  /** `jsonb_extract_path_text(data, $n)`. */
  function JsonPath(n: nat): seq<Tok> {
    [Word("jsonb_extract_path_text"), LP] + (Join([[Word("data")], [Dollar(n)]], [Comma]) + [RP])
  }

  function Parens(p: seq<Tok>): seq<Tok> { [LP] + p + [RP] }

  // ---------------------------------------------------------------- reading the shapes back

  lemma BindAt(ps: seq<Bind>, v: Bind, qs: seq<Bind>)
    requires ps + [v] <= qs
    ensures BindOf(qs, |ps| + 1) == match v { case TextBind(t) => Scalar(t) case UuidBind(u) => Scalar(u) }
  {
    assert qs[|ps|] == (ps + [v])[|ps|];
  }

  lemma JsonPathReads(n: nat)
    ensures AsPrimary(JsonPath(n), Call("jsonb_extract_path_text", [Column("data"), Param(n)]))
  {
    ReadAtom(Word("data"));
    ReadAtom(Dollar(n));
    PrimaryIsNegation([Word("data")], Column("data"));
    PrimaryIsNegation([Dollar(n)], Param(n));
    NegationIsConjunction([Word("data")], Column("data"));
    NegationIsConjunction([Dollar(n)], Param(n));
    ConjunctionIsCondition([Word("data")], Column("data"));
    ConjunctionIsCondition([Dollar(n)], Param(n));
    ReadCall("jsonb_extract_path_text", [[Word("data")], [Dollar(n)]], [Column("data"), Param(n)]);
  }

  lemma JsonPathValue(name: string, db: Db, row: Row, ps: seq<Bind>, qs: seq<Bind>)
    requires ps + [TextBind(name)] <= qs
    ensures Eval(Call("jsonb_extract_path_text", [Column("data"), Param(|ps| + 1)]), db, row, qs)
            == JsonText(db, Lookup(row.data, name))
  {
    BindAt(ps, TextBind(name), qs);
    var args := [Column("data"), Param(|ps| + 1)];
    assert Eval(args[1], db, row, qs) == Scalar(name);
  }

  lemma ParenthesisedReads(p: seq<Tok>, e: Expr)
    requires AsPredicate(p, e) && |p| > 0 && p[0] != KNot
    ensures AsPrimary(Parens(p), e)
  {
    PredicateIsCondition(p, e);
    ReadParen(p, e);
  }

  lemma NotReads(p: seq<Tok>, e: Expr)
    requires AsPrimary(p, e) && p != [] && p[0] == LP
    ensures AsPrimary(Parens([KNot] + p), Not(e))
  {
    PrimaryIsNegation(p, e);
    ReadNegation(p, e);
    NegationIsConjunction([KNot] + p, Not(e));
    ConjunctionIsCondition([KNot] + p, Not(e));
    ReadParen([KNot] + p, Not(e));
  }

  lemma AndReads(texts: seq<seq<Tok>>, es: seq<Expr>)
    requires AllNegations(texts, es) && |texts| > 0
    ensures AsPrimary(Parens(Join(texts, [KAnd])), AndTree(es))
  {
    ReadAndJoin(texts, es);
    ConjunctionIsCondition(Join(texts, [KAnd]), AndTree(es));
    ReadParen(Join(texts, [KAnd]), AndTree(es));
  }

  lemma OrReads(texts: seq<seq<Tok>>, es: seq<Expr>)
    requires AllNegations(texts, es) && |texts| > 0
    ensures AsPrimary(Parens(Join(texts, [KOr])), OrTree(es))
  {
    ReadOrJoin(texts, es);
    ReadParen(Join(texts, [KOr]), OrTree(es));
  }

  lemma AppendAssoc<T>(a: seq<T>, b: seq<T>, c: seq<T>)
    ensures a + (b + c) == a + b + c
  {
  }

  lemma PrimaryIsPredicate(p: seq<Tok>, e: Expr)
    requires AsPrimary(p, e)
    ensures AsPredicate(p, e)
  {
    PrimaryIsOperand(p, e);
    OperandIsPredicate(p, e);
  }

  lemma AndClause(texts: seq<seq<Tok>>, es: seq<Expr>, db: Db, row: Row, qs: seq<Bind>)
    requires AllNegations(texts, es) && |texts| > 0
    ensures AsPrimary(Parens(Join(texts, [KAnd])), AndTree(es)) && AsPredicate(Parens(Join(texts, [KAnd])), AndTree(es))
    ensures Truth(AndTree(es), db, row, qs) == All3(Truths(es, db, row, qs))
  {
    hide AsPrimary, AsPredicate, AsNegation, Eval, Join;
    AndReads(texts, es);
    PrimaryIsPredicate(Parens(Join(texts, [KAnd])), AndTree(es));
    TruthOfAnd(es, db, row, qs);
  }

  lemma OrClause(texts: seq<seq<Tok>>, es: seq<Expr>, db: Db, row: Row, qs: seq<Bind>)
    requires AllNegations(texts, es) && |texts| > 0
    ensures AsPrimary(Parens(Join(texts, [KOr])), OrTree(es)) && AsPredicate(Parens(Join(texts, [KOr])), OrTree(es))
    ensures Truth(OrTree(es), db, row, qs) == Any3(Truths(es, db, row, qs))
  {
    hide AsPrimary, AsPredicate, AsNegation, Eval, Join;
    OrReads(texts, es);
    PrimaryIsPredicate(Parens(Join(texts, [KOr])), OrTree(es));
    TruthOfOr(es, db, row, qs);
  }

  lemma TruthOfBin(sym: string, l: Expr, r: Expr, db: Db, row: Row, qs: seq<Bind>)
    ensures Truth(Bin(sym, l, r), db, row, qs) == Compare(db, sym, Eval(l, db, row, qs), Eval(r, db, row, qs))
  {
    hide Compare;
  }

  lemma EvalOfCast(e: Expr, ty: string, db: Db, row: Row, qs: seq<Bind>)
    ensures Eval(Cast(e, ty), db, row, qs) == CastValue(db, ty, Eval(e, db, row, qs))
  {
  }

  lemma {:induction false} AllTruths(ts: seq<Tri>)
    ensures All3(ts) == True3 <==> forall i :: 0 <= i < |ts| ==> ts[i] == True3
    ensures All3(ts) == False3 <==> exists i :: 0 <= i < |ts| && ts[i] == False3
  {
    if |ts| > 0 {
      AllTruths(ts[1..]);
      if All3(ts[1..]) == False3 {
        var i :| 0 <= i < |ts[1..]| && ts[1..][i] == False3;
        assert ts[i + 1] == False3;
      }
      assert forall i :: 1 <= i < |ts| ==> ts[i] == ts[1..][i - 1];
    }
  }

  lemma {:induction false} AnyTruths(ts: seq<Tri>)
    ensures Any3(ts) == False3 <==> forall i :: 0 <= i < |ts| ==> ts[i] == False3
    ensures Any3(ts) == True3 <==> exists i :: 0 <= i < |ts| && ts[i] == True3
  {
    if |ts| > 0 {
      AnyTruths(ts[1..]);
      if Any3(ts[1..]) == True3 {
        var i :| 0 <= i < |ts[1..]| && ts[1..][i] == True3;
        assert ts[i + 1] == True3;
      }
      assert forall i :: 1 <= i < |ts| ==> ts[i] == ts[1..][i - 1];
    }
  }

  // ---------------------------------------------------------------- emitting a list of texts in order

  ghost function Prepend<E>(
    texts: seq<seq<Tok>>, r: Result<(seq<seq<Tok>>, seq<Bind>), E>): Result<(seq<seq<Tok>>, seq<Bind>), E> {
    match r { case Err(m) => Err(m) case Ok((more, qs)) => Ok((texts + more, qs)) }
  }

  lemma PrependNone<E>(r: Result<(seq<seq<Tok>>, seq<Bind>), E>)
    ensures Prepend([], r) == r
  {
    if r.Ok? { assert [] + r.value.0 == r.value.0; }
  }

  lemma PrependOne<E>(texts: seq<seq<Tok>>, t: seq<Tok>, r: Result<(seq<seq<Tok>>, seq<Bind>), E>)
    ensures Prepend(texts, Prepend([t], r)) == Prepend(texts + [t], r)
  {
    if r.Ok? { assert texts + ([t] + r.value.0) == texts + [t] + r.value.0; }
  }
}
