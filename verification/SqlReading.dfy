/** How the reader groups the text shapes the planner's emitters build. Each `As...` predicate says that
    the tokens `p`, wherever they stand in a query, are read at that level as exactly the tree `e`; the
    lemmas compose emitted text from its parts. */
module SqlReading {
  import opened Prelude
  import opened Sql

  /** Nothing at position `j` extends what stands before it at the named level. */
  predicate EndsPrimary(ts: seq<Tok>, j: nat) { j < |ts| ==> ts[j] != LP }

  predicate EndsOperand(ts: seq<Tok>, j: nat) { EndsPrimary(ts, j) && (j < |ts| ==> !ts[j].CastTo?) }

  predicate EndsPredicate(ts: seq<Tok>, j: nat) {
    EndsOperand(ts, j) && (j < |ts| ==> !ts[j].Op? && ts[j] != KIs && ts[j] != KIlike && ts[j] != KIn && ts[j] != KNot)
  }

  predicate EndsAnd(ts: seq<Tok>, j: nat) { EndsPredicate(ts, j) && (j < |ts| ==> ts[j] != KAnd) }

  predicate EndsOr(ts: seq<Tok>, j: nat) { EndsAnd(ts, j) && (j < |ts| ==> ts[j] != KOr) }

  /** `p`, standing anywhere with nothing after it that this level would still absorb, is read as `e`. */
  ghost predicate AsPrimary(p: seq<Tok>, e: Expr) {
    forall ts: seq<Tok>, i: nat :: At(ts, i, p) && EndsPrimary(ts, i + |p|) ==> ReadPrimary(ts, i) == Read(e, i + |p|)
  }

  ghost predicate AsOperand(p: seq<Tok>, e: Expr) {
    forall ts: seq<Tok>, i: nat :: At(ts, i, p) && EndsOperand(ts, i + |p|) ==> ReadOperand(ts, i) == Read(e, i + |p|)
  }

  ghost predicate AsPredicate(p: seq<Tok>, e: Expr) {
    forall ts: seq<Tok>, i: nat :: At(ts, i, p) && EndsPredicate(ts, i + |p|) ==>
      ReadPredicate(ts, i) == Read(e, i + |p|)
  }

  ghost predicate AsNegation(p: seq<Tok>, e: Expr) {
    |p| > 0 &&
    forall ts: seq<Tok>, i: nat :: At(ts, i, p) && EndsPredicate(ts, i + |p|) ==> ReadNot(ts, i) == Read(e, i + |p|)
  }

  ghost predicate AsConjunction(p: seq<Tok>, e: Expr) {
    |p| > 0 &&
    forall ts: seq<Tok>, i: nat :: At(ts, i, p) && EndsAnd(ts, i + |p|) ==> ReadAnd(ts, i) == Read(e, i + |p|)
  }

  ghost predicate AsCondition(p: seq<Tok>, e: Expr) {
    |p| > 0 &&
    forall ts: seq<Tok>, i: nat :: At(ts, i, p) && EndsOr(ts, i + |p|) ==> ReadOr(ts, i) == Read(e, i + |p|)
  }

  function AndTree(es: seq<Expr>): Expr
    requires |es| > 0
  {
    if |es| == 1 then es[0] else And(es[0], AndTree(es[1..]))
  }

  function OrTree(es: seq<Expr>): Expr
    requires |es| > 0
  {
    if |es| == 1 then es[0] else Or(es[0], OrTree(es[1..]))
  }

  // ---------------------------------------------------------------- single tokens

  function AtomOf(t: Tok): Option<Expr> {
    match t
    case Word(w) => Some(Column(w))
    case Quoted(w) => Some(Column(w))
    case Dollar(n) => Some(Param(n))
    case KTrue => Some(Lit(true))
    case KFalse => Some(Lit(false))
    case StrLit(s) => Some(Str(s))
    case _ => None
  }

  lemma ReadAtom(t: Tok)
    requires AtomOf(t).Some?
    ensures AsPrimary([t], AtomOf(t).value)
  {
    forall ts: seq<Tok>, i: nat | At(ts, i, [t]) && EndsPrimary(ts, i + |[t]|)
      ensures ReadPrimary(ts, i) == Read(AtomOf(t).value, i + |[t]|)
    {
      assert ts[i] == ts[i..i + 1][0];
    }
  }

  // ---------------------------------------------------------------- a phrase is also a phrase of the next level

  lemma PrimaryIsOperand(p: seq<Tok>, e: Expr)
    requires AsPrimary(p, e)
    ensures AsOperand(p, e)
  {
    forall ts: seq<Tok>, i: nat | At(ts, i, p) && EndsOperand(ts, i + |p|)
      ensures ReadOperand(ts, i) == Read(e, i + |p|)
    {
      assert ReadPrimary(ts, i) == Read(e, i + |p|);
    }
  }

  lemma OperandIsPredicate(p: seq<Tok>, e: Expr)
    requires AsOperand(p, e)
    ensures AsPredicate(p, e)
  {
    forall ts: seq<Tok>, i: nat | At(ts, i, p) && EndsPredicate(ts, i + |p|)
      ensures ReadPredicate(ts, i) == Read(e, i + |p|)
    {
      assert ReadOperand(ts, i) == Read(e, i + |p|);
    }
  }

  lemma PredicateIsNegation(p: seq<Tok>, e: Expr)
    requires AsPredicate(p, e) && |p| > 0 && p[0] != KNot
    ensures AsNegation(p, e)
  {
    forall ts: seq<Tok>, i: nat | At(ts, i, p) && EndsPredicate(ts, i + |p|)
      ensures ReadNot(ts, i) == Read(e, i + |p|)
    {
      assert ts[i] == ts[i..i + |p|][0];
      assert ReadPredicate(ts, i) == Read(e, i + |p|);
    }
  }

  lemma NegationIsConjunction(p: seq<Tok>, e: Expr)
    requires AsNegation(p, e)
    ensures AsConjunction(p, e)
  {
    forall ts: seq<Tok>, i: nat | At(ts, i, p) && EndsAnd(ts, i + |p|)
      ensures ReadAnd(ts, i) == Read(e, i + |p|)
    {
      assert ReadNot(ts, i) == Read(e, i + |p|);
    }
  }

  lemma ConjunctionIsCondition(p: seq<Tok>, e: Expr)
    requires AsConjunction(p, e)
    ensures AsCondition(p, e)
  {
    forall ts: seq<Tok>, i: nat | At(ts, i, p) && EndsOr(ts, i + |p|)
      ensures ReadOr(ts, i) == Read(e, i + |p|)
    {
      assert ReadAnd(ts, i) == Read(e, i + |p|);
    }
  }

  lemma PrimaryIsNegation(p: seq<Tok>, e: Expr)
    requires AsPrimary(p, e) && |p| > 0 && p[0] != KNot
    ensures AsNegation(p, e)
  {
    PrimaryIsOperand(p, e);
    OperandIsPredicate(p, e);
    PredicateIsNegation(p, e);
  }

  lemma PredicateIsCondition(p: seq<Tok>, e: Expr)
    requires AsPredicate(p, e) && |p| > 0 && p[0] != KNot
    ensures AsCondition(p, e)
  {
    PredicateIsNegation(p, e);
    NegationIsConjunction(p, e);
    ConjunctionIsCondition(p, e);
  }

  // ---------------------------------------------------------------- compound phrases

  lemma ReadParen(p: seq<Tok>, e: Expr)
    requires AsCondition(p, e)
    ensures AsPrimary([LP] + p + [RP], e)
  {
    var whole := [LP] + p + [RP];
    forall ts: seq<Tok>, i: nat | At(ts, i, whole) && EndsPrimary(ts, i + |whole|)
      ensures ReadPrimary(ts, i) == Read(e, i + |whole|)
    {
      AtSplit(ts, i, [LP] + p, [RP]);
      AtCons(ts, i, LP, p);
      AtCons(ts, i + 1 + |p|, RP, []);
      assert ReadOr(ts, i + 1) == Read(e, i + 1 + |p|);
    }
  }

  lemma ReadCastTo(p: seq<Tok>, e: Expr, ty: string)
    requires AsPrimary(p, e)
    ensures AsOperand(p + [CastTo(ty)], Cast(e, ty))
  {
    var whole := p + [CastTo(ty)];
    forall ts: seq<Tok>, i: nat | At(ts, i, whole) && EndsOperand(ts, i + |whole|)
      ensures ReadOperand(ts, i) == Read(Cast(e, ty), i + |whole|)
    {
      AtSplit(ts, i, p, [CastTo(ty)]);
      AtCons(ts, i + |p|, CastTo(ty), []);
      assert ReadPrimary(ts, i) == Read(e, i + |p|);
      assert ReadCasts(ts, i + |p| + 1, Cast(e, ty)) == Read(Cast(e, ty), i + |p| + 1);
    }
  }

  lemma OperandAt(p: seq<Tok>, e: Expr, ts: seq<Tok>, i: nat)
    requires AsOperand(p, e) && At(ts, i, p) && EndsOperand(ts, i + |p|)
    ensures ReadOperand(ts, i) == Read(e, i + |p|)
  {
  }

  lemma BinaryStep(ts: seq<Tok>, i: nat, l: Expr, j: nat, sym: string, r: Expr, k: nat)
    requires ReadOperand(ts, i) == Read(l, j)
    requires Has(ts, j, Op(sym)) && ReadOperand(ts, j + 1) == Read(r, k)
    ensures ReadPredicate(ts, i) == Read(Bin(sym, l, r), k)
  {
  }

  lemma BinaryAt(p: seq<Tok>, l: Expr, sym: string, q: seq<Tok>, r: Expr, ts: seq<Tok>, i: nat)
    requires AsOperand(p, l) && AsOperand(q, r)
    requires At(ts, i, p + [Op(sym)] + q) && EndsPredicate(ts, i + |p| + 1 + |q|)
    ensures ReadPredicate(ts, i) == Read(Bin(sym, l, r), i + |p| + 1 + |q|)
  {
    hide ReadOr, ReadAnd, ReadNot, ReadPredicate, ReadOperand, ReadPrimary, ReadList, ReadCasts, At;
    AtSplit(ts, i, p + [Op(sym)], q);
    AtSplit(ts, i, p, [Op(sym)]);
    AtCons(ts, i + |p|, Op(sym), []);
    OperandAt(p, l, ts, i);
    OperandAt(q, r, ts, i + |p| + 1);
    BinaryStep(ts, i, l, i + |p|, sym, r, i + |p| + 1 + |q|);
  }

  lemma ReadBinary(p: seq<Tok>, l: Expr, sym: string, q: seq<Tok>, r: Expr)
    requires AsOperand(p, l) && AsOperand(q, r)
    ensures AsPredicate(p + [Op(sym)] + q, Bin(sym, l, r))
  {
    var whole := p + [Op(sym)] + q;
    forall ts: seq<Tok>, i: nat | At(ts, i, whole) && EndsPredicate(ts, i + |whole|)
      ensures ReadPredicate(ts, i) == Read(Bin(sym, l, r), i + |whole|)
    {
      BinaryAt(p, l, sym, q, r, ts, i);
    }
  }

  function NullTest(negate: bool): seq<Tok> { if negate then [KIs, KNot, KNull] else [KIs, KNull] }

  lemma NullStep(ts: seq<Tok>, i: nat, l: Expr, j: nat, negate: bool)
    requires ReadOperand(ts, i) == Read(l, j) && At(ts, j, NullTest(negate))
    ensures ReadPredicate(ts, i) == Read(IsNull(l, negate), j + |NullTest(negate)|)
  {
    AtCons(ts, j, KIs, NullTest(negate)[1..]);
    AtCons(ts, j + 1, NullTest(negate)[1], NullTest(negate)[2..]);
    if negate { AtCons(ts, j + 2, KNull, []); }
  }

  lemma NullAt(p: seq<Tok>, l: Expr, negate: bool, ts: seq<Tok>, i: nat)
    requires AsOperand(p, l) && At(ts, i, p + NullTest(negate))
    ensures ReadPredicate(ts, i) == Read(IsNull(l, negate), i + |p| + |NullTest(negate)|)
  {
    hide ReadOr, ReadAnd, ReadNot, ReadPredicate, ReadOperand, ReadPrimary, ReadList, ReadCasts, At;
    AtSplit(ts, i, p, NullTest(negate));
    AtCons(ts, i + |p|, KIs, NullTest(negate)[1..]);
    OperandAt(p, l, ts, i);
    NullStep(ts, i, l, i + |p|, negate);
  }

  lemma ReadIsNull(p: seq<Tok>, l: Expr, negate: bool)
    requires AsOperand(p, l)
    ensures AsPredicate(p + NullTest(negate), IsNull(l, negate))
  {
    var whole := p + NullTest(negate);
    forall ts: seq<Tok>, i: nat | At(ts, i, whole) && EndsPredicate(ts, i + |whole|)
      ensures ReadPredicate(ts, i) == Read(IsNull(l, negate), i + |whole|)
    {
      NullAt(p, l, negate, ts, i);
    }
  }

  function IlikeTest(negate: bool): seq<Tok> { if negate then [KNot, KIlike] else [KIlike] }

  lemma IlikeStep(ts: seq<Tok>, i: nat, l: Expr, j: nat, negate: bool, r: Expr, k: nat)
    requires ReadOperand(ts, i) == Read(l, j)
    requires At(ts, j, IlikeTest(negate))
    requires ReadOperand(ts, j + |IlikeTest(negate)|) == Read(r, k)
    ensures ReadPredicate(ts, i) == Read(Ilike(l, r, negate), k)
  {
    AtCons(ts, j, IlikeTest(negate)[0], IlikeTest(negate)[1..]);
    if negate { AtCons(ts, j + 1, KIlike, []); }
  }

  lemma IlikeAt(p: seq<Tok>, l: Expr, negate: bool, q: seq<Tok>, r: Expr, ts: seq<Tok>, i: nat)
    requires AsOperand(p, l) && AsOperand(q, r)
    requires At(ts, i, p + IlikeTest(negate) + q) && EndsPredicate(ts, i + |p| + |IlikeTest(negate)| + |q|)
    ensures ReadPredicate(ts, i) == Read(Ilike(l, r, negate), i + |p| + |IlikeTest(negate)| + |q|)
  {
    hide ReadOr, ReadAnd, ReadNot, ReadPredicate, ReadOperand, ReadPrimary, ReadList, ReadCasts, At;
    AtSplit(ts, i, p + IlikeTest(negate), q);
    AtSplit(ts, i, p, IlikeTest(negate));
    AtCons(ts, i + |p|, IlikeTest(negate)[0], IlikeTest(negate)[1..]);
    OperandAt(p, l, ts, i);
    OperandAt(q, r, ts, i + |p| + |IlikeTest(negate)|);
    IlikeStep(ts, i, l, i + |p|, negate, r, i + |p| + |IlikeTest(negate)| + |q|);
  }

  lemma ReadIlike(p: seq<Tok>, l: Expr, negate: bool, q: seq<Tok>, r: Expr)
    requires AsOperand(p, l) && AsOperand(q, r)
    ensures AsPredicate(p + IlikeTest(negate) + q, Ilike(l, r, negate))
  {
    var whole := p + IlikeTest(negate) + q;
    forall ts: seq<Tok>, i: nat | At(ts, i, whole) && EndsPredicate(ts, i + |whole|)
      ensures ReadPredicate(ts, i) == Read(Ilike(l, r, negate), i + |whole|)
    {
      IlikeAt(p, l, negate, q, r, ts, i);
    }
  }

  lemma ListStep(ts: seq<Tok>, i: nat, e: Expr, j: nat, es: seq<Expr>, k: nat)
    requires ReadOr(ts, i) == Read(e, j)
    requires Has(ts, j, Comma) && ReadList(ts, j + 1) == Read(es, k)
    ensures ReadList(ts, i) == Read([e] + es, k)
  {
  }

  lemma ListEnd(ts: seq<Tok>, i: nat, e: Expr, j: nat)
    requires ReadOr(ts, i) == Read(e, j) && Has(ts, j, RP)
    ensures ReadList(ts, i) == Read([e], j + 1)
  {
  }

  lemma ConditionAt(p: seq<Tok>, e: Expr, ts: seq<Tok>, i: nat)
    requires AsCondition(p, e) && At(ts, i, p) && EndsOr(ts, i + |p|)
    ensures ReadOr(ts, i) == Read(e, i + |p|)
  {
  }

  ghost predicate AllConditions(ps: seq<seq<Tok>>, es: seq<Expr>) {
    |ps| == |es| && forall n :: 0 <= n < |ps| ==> AsCondition(ps[n], es[n])
  }

  /** A comma list up to its closing parenthesis. */
  lemma {:induction false} ReadItems(ps: seq<seq<Tok>>, es: seq<Expr>, ts: seq<Tok>, i: nat)
    requires AllConditions(ps, es) && |ps| > 0
    requires At(ts, i, Join(ps, [Comma]) + [RP])
    ensures ReadList(ts, i) == Read(es, i + |Join(ps, [Comma])| + 1)
    decreases |ps|
  {
    hide ReadOr, ReadAnd, ReadNot, ReadPredicate, ReadOperand, ReadPrimary, ReadList, ReadCasts, At;
    var p0, e0 := ps[0], es[0];
    if |ps| == 1 {
      AtSplit(ts, i, p0, [RP]);
      AtCons(ts, i + |p0|, RP, []);
      ConditionAt(p0, e0, ts, i);
      ListEnd(ts, i, e0, i + |p0|);
      assert es == [e0];
    } else {
      var tail := Join(ps[1..], [Comma]);
      assert Join(ps, [Comma]) + [RP] == p0 + ([Comma] + (tail + [RP]));
      AtSplit(ts, i, p0, [Comma] + (tail + [RP]));
      AtCons(ts, i + |p0|, Comma, tail + [RP]);
      ConditionAt(p0, e0, ts, i);
      ReadItems(ps[1..], es[1..], ts, i + |p0| + 1);
      ListStep(ts, i, e0, i + |p0|, es[1..], i + |p0| + 1 + |tail| + 1);
      assert es == [e0] + es[1..];
    }
  }

  function InTest(negate: bool): seq<Tok> { if negate then [KNot, KIn, LP] else [KIn, LP] }

  lemma PlainInStep(ts: seq<Tok>, i: nat, l: Expr, j: nat, es: seq<Expr>, k: nat)
    requires ReadOperand(ts, i) == Read(l, j) && Has(ts, j, KIn) && Has(ts, j + 1, LP)
    requires ReadList(ts, j + 2) == Read(es, k)
    ensures ReadPredicate(ts, i) == Read(InList(l, es, false), k)
  {
  }

  lemma NotInStep(ts: seq<Tok>, i: nat, l: Expr, j: nat, es: seq<Expr>, k: nat)
    requires ReadOperand(ts, i) == Read(l, j) && Has(ts, j, KNot) && Has(ts, j + 1, KIn) && Has(ts, j + 2, LP)
    requires ReadList(ts, j + 3) == Read(es, k)
    ensures ReadPredicate(ts, i) == Read(InList(l, es, true), k)
  {
  }

  lemma InStep(ts: seq<Tok>, i: nat, l: Expr, j: nat, negate: bool, es: seq<Expr>, k: nat)
    requires ReadOperand(ts, i) == Read(l, j)
    requires At(ts, j, InTest(negate))
    requires ReadList(ts, j + |InTest(negate)|) == Read(es, k)
    ensures ReadPredicate(ts, i) == Read(InList(l, es, negate), k)
  {
    hide ReadPredicate, ReadOperand, ReadList;
    if negate {
      AtCons(ts, j, KNot, [KIn, LP]);
      AtCons(ts, j + 1, KIn, [LP]);
      AtCons(ts, j + 2, LP, []);
      NotInStep(ts, i, l, j, es, k);
    } else {
      AtCons(ts, j, KIn, [LP]);
      AtCons(ts, j + 1, LP, []);
      PlainInStep(ts, i, l, j, es, k);
    }
  }

  lemma InAt(p: seq<Tok>, l: Expr, negate: bool, ps: seq<seq<Tok>>, es: seq<Expr>, ts: seq<Tok>, i: nat)
    requires AsOperand(p, l) && AllConditions(ps, es) && |ps| > 0
    requires At(ts, i, p + InTest(negate) + (Join(ps, [Comma]) + [RP]))
    ensures ReadPredicate(ts, i) == Read(InList(l, es, negate), i + |p| + |InTest(negate)| + |Join(ps, [Comma])| + 1)
  {
    hide ReadOr, ReadAnd, ReadNot, ReadPredicate, ReadOperand, ReadPrimary, ReadList, ReadCasts, At;
    AtSplit(ts, i, p + InTest(negate), Join(ps, [Comma]) + [RP]);
    AtSplit(ts, i, p, InTest(negate));
    AtCons(ts, i + |p|, InTest(negate)[0], InTest(negate)[1..]);
    OperandAt(p, l, ts, i);
    ReadItems(ps, es, ts, i + |p| + |InTest(negate)|);
    InStep(ts, i, l, i + |p|, negate, es, i + |p| + |InTest(negate)| + |Join(ps, [Comma])| + 1);
  }

  lemma ReadIn(p: seq<Tok>, l: Expr, negate: bool, ps: seq<seq<Tok>>, es: seq<Expr>)
    requires AsOperand(p, l) && AllConditions(ps, es) && |ps| > 0
    ensures AsPredicate(p + InTest(negate) + (Join(ps, [Comma]) + [RP]), InList(l, es, negate))
  {
    hide ReadPredicate, ReadList, AsOperand, AllConditions, Join, InTest;
    var whole := p + InTest(negate) + (Join(ps, [Comma]) + [RP]);
    forall ts: seq<Tok>, i: nat | At(ts, i, whole) && EndsPredicate(ts, i + |whole|)
      ensures ReadPredicate(ts, i) == Read(InList(l, es, negate), i + |whole|)
    {
      InAt(p, l, negate, ps, es, ts, i);
    }
  }

  lemma CallStep(ts: seq<Tok>, i: nat, f: string, es: seq<Expr>, k: nat)
    requires Has(ts, i, Word(f)) && Has(ts, i + 1, LP) && ReadList(ts, i + 2) == Read(es, k)
    ensures ReadPrimary(ts, i) == Read(Call(f, es), k)
  {
  }

  lemma ReadCall(f: string, ps: seq<seq<Tok>>, es: seq<Expr>)
    requires AllConditions(ps, es) && |ps| > 0
    ensures AsPrimary([Word(f), LP] + (Join(ps, [Comma]) + [RP]), Call(f, es))
  {
    hide ReadPrimary, ReadList;
    var items := Join(ps, [Comma]) + [RP];
    var whole := [Word(f), LP] + items;
    forall ts: seq<Tok>, i: nat | At(ts, i, whole) && EndsPrimary(ts, i + |whole|)
      ensures ReadPrimary(ts, i) == Read(Call(f, es), i + |whole|)
    {
      assert whole == [Word(f)] + ([LP] + items);
      AtCons(ts, i, Word(f), [LP] + items);
      AtCons(ts, i + 1, LP, items);
      ReadItems(ps, es, ts, i + 2);
      CallStep(ts, i, f, es, i + |whole|);
    }
  }

  lemma ReadNegation(p: seq<Tok>, e: Expr)
    requires AsNegation(p, e)
    ensures AsNegation([KNot] + p, Not(e))
  {
    forall ts: seq<Tok>, i: nat | At(ts, i, [KNot] + p) && EndsPredicate(ts, i + |[KNot] + p|)
      ensures ReadNot(ts, i) == Read(Not(e), i + |[KNot] + p|)
    {
      AtCons(ts, i, KNot, p);
      assert ReadNot(ts, i + 1) == Read(e, i + 1 + |p|);
    }
  }

  lemma AndStep(ts: seq<Tok>, i: nat, l: Expr, j: nat, r: Expr, k: nat)
    requires ReadNot(ts, i) == Read(l, j)
    requires Has(ts, j, KAnd) && ReadAnd(ts, j + 1) == Read(r, k)
    ensures ReadAnd(ts, i) == Read(And(l, r), k)
  {
  }

  lemma OrStep(ts: seq<Tok>, i: nat, l: Expr, j: nat, r: Expr, k: nat)
    requires ReadAnd(ts, i) == Read(l, j)
    requires Has(ts, j, KOr) && ReadOr(ts, j + 1) == Read(r, k)
    ensures ReadOr(ts, i) == Read(Or(l, r), k)
  {
  }

  lemma ReadAndPair(p: seq<Tok>, l: Expr, q: seq<Tok>, r: Expr)
    requires AsNegation(p, l) && AsConjunction(q, r)
    ensures AsConjunction(p + ([KAnd] + q), And(l, r))
  {
    hide ReadOr, ReadAnd, ReadNot, ReadPredicate, ReadOperand, ReadPrimary, ReadList, ReadCasts, At;
    var whole := p + ([KAnd] + q);
    forall ts: seq<Tok>, i: nat | At(ts, i, whole) && EndsAnd(ts, i + |whole|)
      ensures ReadAnd(ts, i) == Read(And(l, r), i + |whole|)
    {
      AtSplit(ts, i, p, [KAnd] + q);
      AtCons(ts, i + |p|, KAnd, q);
      assert ReadNot(ts, i) == Read(l, i + |p|);
      AndStep(ts, i, l, i + |p|, r, i + |whole|);
    }
  }

  lemma ReadOrPair(p: seq<Tok>, l: Expr, q: seq<Tok>, r: Expr)
    requires AsConjunction(p, l) && AsCondition(q, r)
    ensures AsCondition(p + ([KOr] + q), Or(l, r))
  {
    hide ReadOr, ReadAnd, ReadNot, ReadPredicate, ReadOperand, ReadPrimary, ReadList, ReadCasts, At;
    var whole := p + ([KOr] + q);
    forall ts: seq<Tok>, i: nat | At(ts, i, whole) && EndsOr(ts, i + |whole|)
      ensures ReadOr(ts, i) == Read(Or(l, r), i + |whole|)
    {
      AtSplit(ts, i, p, [KOr] + q);
      AtCons(ts, i + |p|, KOr, q);
      assert ReadAnd(ts, i) == Read(l, i + |p|);
      OrStep(ts, i, l, i + |p|, r, i + |whole|);
    }
  }

  ghost predicate AllNegations(ps: seq<seq<Tok>>, es: seq<Expr>) {
    |ps| == |es| && forall n :: 0 <= n < |ps| ==> AsNegation(ps[n], es[n])
  }

  /** Conjuncts joined by AND, however many, are read as their conjunction. */
  lemma {:induction false} ReadAndJoin(ps: seq<seq<Tok>>, es: seq<Expr>)
    requires AllNegations(ps, es) && |ps| > 0
    ensures AsConjunction(Join(ps, [KAnd]), AndTree(es))
    decreases |ps|
  {
    if |ps| == 1 {
      NegationIsConjunction(ps[0], es[0]);
    } else {
      ReadAndJoin(ps[1..], es[1..]);
      ReadAndPair(ps[0], es[0], Join(ps[1..], [KAnd]), AndTree(es[1..]));
      assert Join(ps, [KAnd]) == ps[0] + ([KAnd] + Join(ps[1..], [KAnd]));
    }
  }

  lemma {:induction false} ReadOrJoin(ps: seq<seq<Tok>>, es: seq<Expr>)
    requires AllNegations(ps, es) && |ps| > 0
    ensures AsCondition(Join(ps, [KOr]), OrTree(es))
    decreases |ps|
  {
    NegationIsConjunction(ps[0], es[0]);
    if |ps| == 1 {
      ConjunctionIsCondition(ps[0], es[0]);
    } else {
      ReadOrJoin(ps[1..], es[1..]);
      ReadOrPair(ps[0], es[0], Join(ps[1..], [KOr]), OrTree(es[1..]));
      assert Join(ps, [KOr]) == ps[0] + ([KOr] + Join(ps[1..], [KOr]));
    }
  }

  lemma ReadsWhole(p: seq<Tok>, e: Expr)
    requires AsCondition(p, e)
    ensures ReadWhere(p) == Some(e)
  {
    assert p[0..0 + |p|] == p;
    ConditionAt(p, e, p, 0);
  }

  /** A text has at most one reading. */
  lemma OneReading(p: seq<Tok>, a: Expr, b: Expr)
    requires AsPrimary(p, a) && AsPrimary(p, b)
    ensures a == b
  {
    assert p[0..0 + |p|] == p;
    assert At(p, 0, p) && EndsPrimary(p, 0 + |p|);
    assert ReadPrimary(p, 0) == Read(a, |p|);
  }

  // ---------------------------------------------------------------- evaluation of the joined trees

  function Truths(es: seq<Expr>, db: Db, row: Row, qs: seq<Bind>): (ts: seq<Tri>)
    ensures |ts| == |es|
  {
    seq(|es|, n requires 0 <= n < |es| => Truth(es[n], db, row, qs))
  }

  lemma {:induction false} TruthOfAnd(es: seq<Expr>, db: Db, row: Row, ps: seq<Bind>)
    requires |es| > 0
    ensures Truth(AndTree(es), db, row, ps) == All3(Truths(es, db, row, ps))
  {
    var ts := Truths(es, db, row, ps);
    if |es| == 1 {
      assert ts[1..] == [];
    } else {
      TruthOfAnd(es[1..], db, row, ps);
      assert ts[1..] == Truths(es[1..], db, row, ps);
    }
  }

  lemma {:induction false} TruthOfOr(es: seq<Expr>, db: Db, row: Row, ps: seq<Bind>)
    requires |es| > 0
    ensures Truth(OrTree(es), db, row, ps) == Any3(Truths(es, db, row, ps))
  {
    var ts := Truths(es, db, row, ps);
    if |es| == 1 {
      assert ts[1..] == [];
    } else {
      TruthOfOr(es[1..], db, row, ps);
      assert ts[1..] == Truths(es[1..], db, row, ps);
    }
  }
}
