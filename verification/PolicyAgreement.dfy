/** List never shows what Get refuses: the WHERE clause of the record policies, in three-valued logic,
    against the in-memory decision on the same record. */
module PolicyAgreement {
  import opened Prelude
  import opened Json
  import opened Sql
  import opened SqlReading
  import opened SqlBuilder
  import opened Permission
  import opened Snapshot
  import opened PolicySql

  // ---------------------------------------------------------------- the conditions both sides can read

  /** A field of `data`, not one of the five mapped columns and not a path. */
  predicate PlainField(name: string) {
    '.' !in name && name !in {"createdBy", "updatedBy", "status", "createdAt", "updatedAt"}
  }

  predicate TextOrMissing(v: Json) { v.JNull? || v.JStr? }

  predicate TextList(v: Json) { v.JArr? && forall i :: 0 <= i < |v.items| ==> v.items[i].JStr? }

  /** The one leaf on which the two sides part: SQL reads a list that is no list as empty, and `NOT IN ()`
      becomes the constant true, while in memory no list means no match. */
  predicate BareNotIn(c: Condition, ctx: Context)
    requires c.Leaf?
  {
    !IsContextAttribute(c.attribute) && c.op == NotIn && ResolveValue(c.value, ctx).JStr?
  }

  predicate LeafInScope(c: Condition, ctx: Context, data: Record)
    requires c.Leaf?
  {
    IsContextAttribute(c.attribute)
    || (PlainField(c.attribute) && TextOrMissing(Lookup(data, c.attribute))
        && c.op in {Eq, Neq, In, NotIn}
        && (ResolveValue(c.value, ctx).JStr? || TextList(ResolveValue(c.value, ctx))))
  }

  predicate InScope(c: Condition, ctx: Context, data: Record) {
    match c
    case Leaf(_, _, _) => LeafInScope(c, ctx, data) && !BareNotIn(c, ctx)
    case All(cs) => forall i :: 0 <= i < |cs| ==> InScope(cs[i], ctx, data)
    case Any(cs) => forall i :: 0 <= i < |cs| ==> InScope(cs[i], ctx, data)
  }

  /** Every record field the condition reads is present and not null. */
  predicate NoNulls(c: Condition, data: Record) {
    match c
    case Leaf(attribute, _, _) => IsContextAttribute(attribute) || Lookup(data, attribute) != JNull
    case All(cs) => forall i :: 0 <= i < |cs| ==> NoNulls(cs[i], data)
    case Any(cs) => forall i :: 0 <= i < |cs| ==> NoNulls(cs[i], data)
  }

  /** SQL's three-valued answer never contradicts the two-valued one. */
  predicate Agrees(t: Tri, b: bool) { (t == True3 ==> b) && (t == False3 ==> !b) }

  // ---------------------------------------------------------------- what the clause means in SQL

  function ColumnValue(name: string, db: Db, row: Row): Value {
    if name == "createdBy" then ColumnOf(row, "created_by")
    else if name == "updatedBy" then ColumnOf(row, "updated_by")
    else if name == "status" then ColumnOf(row, "status")
    else if name == "createdAt" then ColumnOf(row, "created_at")
    else if name == "updatedAt" then ColumnOf(row, "updated_at")
    else JsonText(db, Lookup(row.data, name))
  }

  /** Who wrote a record is a UUID and when is a time; everything else is text. */
  function TypeOf(name: string): ColType {
    if name in {"createdBy", "updatedBy"} then ColUuid
    else if name in {"createdAt", "updatedAt"} then ColTimestamptz
    else ColText
  }

  /** The ordering operators by the database's order, unknown when either side is null. */
  function OrderTruth(db: Db, op: Op, v: Value, w: Value): Tri {
    if v == Null || w == Null then Unknown
    else if op == Gt then Of(db.less(w, v))
    else if op == Gte then Of(db.less(w, v) || v == w)
    else if op == Lt then Of(db.less(v, w))
    else Of(db.less(v, w) || v == w)
  }

  function TextValue(v: Option<Json>): Value {
    match ScalarText(v) { case Some(t) => Scalar(t) case None => Null }
  }

  /** The value a placeholder stands for, with its cast. */
  function BoundValue(codec: Codec, ct: ColType, v: Option<Json>, db: Db): Value {
    match ct
    case ColUuid => (match UuidText(codec, v) { case Some(u) => Scalar(u) case None => Null })
    case ColTimestamptz => CastValue(db, "timestamptz", TextValue(v))
    case ColText => TextValue(v)
  }

  function InBound(codec: Codec, ct: ColType, db: Db, v: Value, values: seq<Json>): Tri {
    if |values| == 0 then False3
    else Or3(Compare(db, "=", v, BoundValue(codec, ct, Some(values[0]), db)), InBound(codec, ct, db, v, values[1..]))
  }

  function LeafTruth(codec: Codec, c: Condition, ctx: Context, db: Db, row: Row): Tri
    requires c.Leaf?
  {
    if IsContextAttribute(c.attribute) then Of(Holds(codec, c, JNull, ctx))
    else
      var v, ct, expected := ColumnValue(c.attribute, db, row), TypeOf(c.attribute), Expected(c.value, ctx);
      match c.op
      case Eq => Compare(db, "=", v, BoundValue(codec, ct, expected, db))
      case Neq => Compare(db, "!=", v, BoundValue(codec, ct, expected, db))
      case In => InBound(codec, ct, db, v, ListOf(expected))
      case NotIn => Not3(InBound(codec, ct, db, v, ListOf(expected)))
      case _ =>
        if ct == ColText && DecodesAsNumber(codec, expected) then
          OrderTruth(db, c.op, CastValue(db, "numeric", v), CastValue(db, "numeric", TextValue(expected)))
        else OrderTruth(db, c.op, v, BoundValue(codec, ct, expected, db))
  }

  function SqlTruth(codec: Codec, c: Condition, ctx: Context, db: Db, row: Row): Tri
    decreases c, 1
  {
    match c
    case Leaf(_, _, _) => LeafTruth(codec, c, ctx, db, row)
    case All(cs) => All3(SqlTruths(codec, cs, ctx, db, row))
    case Any(cs) => Any3(SqlTruths(codec, cs, ctx, db, row))
  }

  function SqlTruths(codec: Codec, cs: seq<Condition>, ctx: Context, db: Db, row: Row): (ts: seq<Tri>)
    ensures |ts| == |cs|
    decreases cs, 0
  {
    if |cs| == 0 then [] else [SqlTruth(codec, cs[0], ctx, db, row)] + SqlTruths(codec, cs[1..], ctx, db, row)
  }

  lemma {:induction false} SqlTruthsAt(codec: Codec, cs: seq<Condition>, ctx: Context, db: Db, row: Row, i: nat)
    requires i < |cs|
    ensures SqlTruths(codec, cs, ctx, db, row)[i] == SqlTruth(codec, cs[i], ctx, db, row)
    decreases |cs|
  {
    if i > 0 { SqlTruthsAt(codec, cs[1..], ctx, db, row, i - 1); }
  }

  /** (allow1 OR allow2 ...) AND NOT (deny1 OR deny2 ...), over the rows whose role gate is open. */
  function ClauseTruth(codec: Codec, rows: seq<PolicyRow>, ctx: Context, db: Db, row: Row): Tri {
    if |rows| == 0 || ctx.IsAdmin() then True3
    else And3(Any3(SqlTruths(codec, ConditionsOf(Gated(rows, ctx, Allowing)), ctx, db, row)),
              Not3(Any3(SqlTruths(codec, ConditionsOf(Gated(rows, ctx, Denying)), ctx, db, row))))
  }

  // ---------------------------------------------------------------- SQL's answer against the in-memory one

  /** Part by part: the truth values against the in-memory outcomes. */
  ghost predicate AgreeEach(codec: Codec, ts: seq<Tri>, cs: seq<Condition>, ctx: Context, data: Record) {
    && |ts| == |cs|
    && forall i :: 0 <= i < |cs| ==>
         && (InScope(cs[i], ctx, data) ==> Agrees(ts[i], Holds(codec, cs[i], JObj(data), ctx)))
         && (InScope(cs[i], ctx, data) && NoNulls(cs[i], data) ==> ts[i] != Unknown)
  }

  lemma AllAgrees(codec: Codec, ts: seq<Tri>, cs: seq<Condition>, ctx: Context, data: Record)
    requires AgreeEach(codec, ts, cs, ctx, data) && InScope(All(cs), ctx, data)
    ensures Agrees(All3(ts), Holds(codec, All(cs), JObj(data), ctx))
    ensures NoNulls(All(cs), data) ==> All3(ts) != Unknown
  {
    AllTruths(ts);
  }

  lemma AnyAgrees(codec: Codec, ts: seq<Tri>, cs: seq<Condition>, ctx: Context, data: Record)
    requires AgreeEach(codec, ts, cs, ctx, data) && InScope(Any(cs), ctx, data)
    ensures Agrees(Any3(ts), Holds(codec, Any(cs), JObj(data), ctx))
    ensures NoNulls(Any(cs), data) ==> Any3(ts) != Unknown
  {
    AnyTruths(ts);
  }

  lemma {:induction false} OneSegment(s: string)
    requires '.' !in s
    ensures Segments(s) == [s]
  {
    if |s| > 0 {
      OneSegment(s[1..]);
      assert [s[0]] + s[1..] == s;
    }
  }

  lemma ContextHasDot(s: string)
    ensures IsContextAttribute(s) ==> '.' in s
  {
    if IsContextAttribute(s) { assert s[4] == CONTEXT_PREFIX[4]; }
  }

  /** On a plain field the in-memory side reads the same stored value. */
  lemma PlainAttribute(c: Condition, ctx: Context, data: Record)
    requires c.Leaf? && PlainField(c.attribute)
    ensures !IsContextAttribute(c.attribute)
    ensures ResolveAttribute(JObj(data), c.attribute, ctx) == Lookup(data, c.attribute)
  {
    ContextHasDot(c.attribute);
    OneSegment(c.attribute);
    assert Walk(JObj(data), [c.attribute]) == Walk(Lookup(data, c.attribute), []);
  }

  lemma {:induction false} InBoundMeans(codec: Codec, db: Db, v: Json, values: seq<Json>)
    requires TextOrMissing(v) && |values| > 0 && TextList(JArr(values))
    ensures v == JNull ==> InBound(codec, ColText, db, JsonText(db, v), values) == Unknown
    ensures v.JStr? ==> InBound(codec, ColText, db, JsonText(db, v), values) == Of(ArrayHas(codec, values, v))
    decreases |values|
  {
    if |values| > 1 {
      InBoundMeans(codec, db, v, values[1..]);
      if ArrayHas(codec, values[1..], v) {
        var i :| 0 <= i < |values[1..]| && JsonEqual(codec, values[1..][i], v);
        assert values[i + 1] == values[1..][i];
      }
      assert forall i :: 1 <= i < |values| ==> values[i] == values[1..][i - 1];
    }
  }

  lemma MembershipAgrees(codec: Codec, db: Db, v: Json, values: seq<Json>, negate: bool)
    requires TextOrMissing(v) && TextList(JArr(values))
    ensures var t := Negated(negate, InBound(codec, ColText, db, JsonText(db, v), values));
            var op := if negate then NotIn else In;
            && Agrees(t, MatchOperator(codec, op, v, JArr(values)))
            && (v != JNull ==> t != Unknown)
  {
    if |values| > 0 { InBoundMeans(codec, db, v, values); }
  }

  lemma ContextLeaf(codec: Codec, c: Condition, ctx: Context, data: Record)
    requires c.Leaf? && IsContextAttribute(c.attribute)
    ensures Holds(codec, c, JNull, ctx) == Holds(codec, c, JObj(data), ctx)
  {
  }

  /** On the leaves in scope SQL agrees with the in-memory operator on every row, except exactly when a
      `notIn` is given a bare string. (An equality with a list never gets here: it does not compile.) */
  lemma LeafAgrees(codec: Codec, c: Condition, ctx: Context, db: Db, row: Row)
    requires c.Leaf? && LeafInScope(c, ctx, row.data)
    requires c.op in {Eq, Neq} && !IsContextAttribute(c.attribute) ==> ResolveValue(c.value, ctx).JStr?
    ensures Agrees(LeafTruth(codec, c, ctx, db, row), Holds(codec, c, JObj(row.data), ctx)) <==> !BareNotIn(c, ctx)
    ensures NoNulls(c, row.data) ==> LeafTruth(codec, c, ctx, db, row) != Unknown
  {
    if IsContextAttribute(c.attribute) {
      ContextLeaf(codec, c, ctx, row.data);
    } else {
      PlainAttribute(c, ctx, row.data);
      var v, expected := Lookup(row.data, c.attribute), ResolveValue(c.value, ctx);
      if expected.JArr? {
        MembershipAgrees(codec, db, v, expected.items, c.op == NotIn);
      }
    }
  }

  /** Compilation succeeds only where every equality has a scalar to compare with. */
  predicate Compilable(c: Condition, ctx: Context) {
    match c
    case Leaf(attribute, op, value) =>
      op in {Eq, Neq} && !IsContextAttribute(attribute) ==> !ResolveValue(value, ctx).JArr?
    case All(cs) => forall i :: 0 <= i < |cs| ==> Compilable(cs[i], ctx)
    case Any(cs) => forall i :: 0 <= i < |cs| ==> Compilable(cs[i], ctx)
  }

  lemma {:induction false} ConditionAgrees(codec: Codec, c: Condition, ctx: Context, db: Db, row: Row)
    requires InScope(c, ctx, row.data) && Compilable(c, ctx)
    ensures Agrees(SqlTruth(codec, c, ctx, db, row), Holds(codec, c, JObj(row.data), ctx))
    ensures NoNulls(c, row.data) ==> SqlTruth(codec, c, ctx, db, row) != Unknown
    decreases c, 1
  {
    match c
    case Leaf(_, _, _) => LeafAgrees(codec, c, ctx, db, row);
    case All(cs) =>
      ConditionsAgree(codec, cs, ctx, db, row);
      AllAgrees(codec, SqlTruths(codec, cs, ctx, db, row), cs, ctx, row.data);
    case Any(cs) =>
      ConditionsAgree(codec, cs, ctx, db, row);
      AnyAgrees(codec, SqlTruths(codec, cs, ctx, db, row), cs, ctx, row.data);
  }

  lemma {:induction false} ConditionsAgree(codec: Codec, cs: seq<Condition>, ctx: Context, db: Db, row: Row)
    requires forall i :: 0 <= i < |cs| ==> InScope(cs[i], ctx, row.data) && Compilable(cs[i], ctx)
    ensures AgreeEach(codec, SqlTruths(codec, cs, ctx, db, row), cs, ctx, row.data)
    decreases cs, 0
  {
    hide SqlTruth, SqlTruths, InScope, Compilable, NoNulls, Holds, Agrees;
    forall i | 0 <= i < |cs|
      ensures Agrees(SqlTruths(codec, cs, ctx, db, row)[i], Holds(codec, cs[i], JObj(row.data), ctx))
      ensures NoNulls(cs[i], row.data) ==> SqlTruths(codec, cs, ctx, db, row)[i] != Unknown
    {
      SqlTruthsAt(codec, cs, ctx, db, row, i);
      ConditionAgrees(codec, cs[i], ctx, db, row);
    }
  }

  // ---------------------------------------------------------------- reading the emitted text back

  lemma ColumnReads(name: string, ps: seq<Bind>, db: Db, row: Row, qs: seq<Bind>) returns (e: Expr)
    requires FieldExpression(name, ps).Ok? && FieldExpression(name, ps).value.params <= qs
    ensures AsPrimary(FieldExpression(name, ps).value.toks, e)
    ensures FieldExpression(name, ps).value.toks != [] && FieldExpression(name, ps).value.toks[0].Word?
    ensures FieldExpression(name, ps).value.ct == TypeOf(name)
    ensures Eval(e, db, row, qs) == ColumnValue(name, db, row)
  {
    match MappedColumn(name)
    case Some((column, ct)) =>
      ReadAtom(Word(column));
      e := Column(column);
    case None =>
      JsonPathReads(|ps| + 1);
      JsonPathValue(name, db, row, ps, qs);
      e := Call("jsonb_extract_path_text", [Column("data"), Param(|ps| + 1)]);
  }

  lemma ScalarReads(
    codec: Codec, ct: ColType, v: Option<Json>, ps: seq<Bind>, db: Db, row: Row, qs: seq<Bind>)
      returns (e: Expr)
    requires BindScalar(codec, ct, v, ps).Ok? && BindScalar(codec, ct, v, ps).value.params <= qs
    ensures AsOperand(BindScalar(codec, ct, v, ps).value.toks, e)
    ensures Eval(e, db, row, qs) == BoundValue(codec, ct, v, db)
  {
    var n := |ps| + 1;
    var em := BindScalar(codec, ct, v, ps).value;
    BindAt(ps, em.params[|ps|], qs);
    ReadAtom(Dollar(n));
    if ct == ColTimestamptz {
      ReadCastTo([Dollar(n)], Param(n), "timestamptz");
      assert [Dollar(n)] + [CastTo("timestamptz")] == em.toks;
      e := Cast(Param(n), "timestamptz");
    } else {
      PrimaryIsOperand([Dollar(n)], Param(n));
      e := Param(n);
    }
  }

  lemma {:induction false} ScalarsRead(
    codec: Codec, ct: ColType, values: seq<Json>, ps: seq<Bind>, db: Db, row: Row, qs: seq<Bind>, v: Value)
    returns (es: seq<Expr>)
    requires BindScalars(codec, ct, values, ps).Ok? && BindScalars(codec, ct, values, ps).value.1 <= qs
    ensures AllConditions(BindScalars(codec, ct, values, ps).value.0, es)
    ensures InValues(db, v, EvalSeq(es, db, row, qs)) == InBound(codec, ct, db, v, values)
    decreases |values|
  {
    hide AsOperand, AsCondition, AsPredicate, BindScalar, Eval, Compare, BoundValue;
    if |values| == 0 {
      es := [];
    } else {
      var em := BindScalar(codec, ct, Some(values[0]), ps).value;
      var e := ScalarReads(codec, ct, Some(values[0]), ps, db, row, qs);
      OperandIsPredicate(em.toks, e);
      DollarFirst(codec, ct, Some(values[0]), ps);
      PredicateIsCondition(em.toks, e);
      var rest := ScalarsRead(codec, ct, values[1..], em.params, db, row, qs, v);
      es := [e] + rest;
      assert es[1..] == rest;
      assert EvalSeq(es, db, row, qs)[1..] == EvalSeq(rest, db, row, qs);
    }
  }

  lemma DollarFirst(codec: Codec, ct: ColType, v: Option<Json>, ps: seq<Bind>)
    requires BindScalar(codec, ct, v, ps).Ok?
    ensures BindScalar(codec, ct, v, ps).value.toks != [] && BindScalar(codec, ct, v, ps).value.toks[0].Dollar?
  {
  }

  /** Emitted text read as one predicate that cannot be mistaken for a negation. */
  ghost predicate ReadsAs(em: Emitted, e: Expr) {
    AsPredicate(em.toks, e) && em.toks != [] && em.toks[0] != KNot
  }

  lemma EqualityReads(
    codec: Codec, c: Condition, ctx: Context, ps: seq<Bind>, db: Db, row: Row, qs: seq<Bind>, sym: string)
      returns (e: Expr)
    requires c.Leaf? && FieldExpression(c.attribute, ps).Ok?
    requires var r := CompileEquality(codec, FieldExpression(c.attribute, ps).value, sym, Expected(c.value, ctx));
             r.Ok? && r.value.params <= qs
    ensures ReadsAs(CompileEquality(codec, FieldExpression(c.attribute, ps).value, sym, Expected(c.value, ctx)).value,
            e)
    ensures Truth(e, db, row, qs)
            == Compare(db, sym, ColumnValue(c.attribute, db, row),
                       BoundValue(codec, TypeOf(c.attribute), Expected(c.value, ctx), db))
  {
    hide AsPrimary, AsOperand, AsPredicate, BindScalar, BoundValue, ColumnValue;
    var col := FieldExpression(c.attribute, ps).value;
    var l := ColumnReads(c.attribute, ps, db, row, qs);
    var r := ScalarReads(codec, col.ct, Expected(c.value, ctx), col.params, db, row, qs);
    var em := BindScalar(codec, col.ct, Expected(c.value, ctx), col.params).value;
    PrimaryIsOperand(col.toks, l);
    ReadBinary(col.toks, l, sym, em.toks, r);
    e := Bin(sym, l, r);
  }

  lemma MembershipReads(
    codec: Codec, c: Condition, ctx: Context, ps: seq<Bind>, db: Db, row: Row, qs: seq<Bind>, negate: bool)
      returns (e: Expr)
    requires c.Leaf? && FieldExpression(c.attribute, ps).Ok?
    requires var r :=
             CompileMembership(codec, FieldExpression(c.attribute, ps).value, negate, ListOf(Expected(c.value, ctx)));
             r.Ok? && r.value.params <= qs
    ensures ReadsAs(CompileMembership(codec, FieldExpression(c.attribute, ps).value, negate,
            ListOf(Expected(c.value, ctx))).value, e)
    ensures Truth(e, db, row, qs)
            == Negated(negate,
              InBound(codec, TypeOf(c.attribute), db, ColumnValue(c.attribute, db, row),
                ListOf(Expected(c.value, ctx))))
  {
    hide AsPrimary, AsOperand, AsPredicate, BindScalar, ColumnValue, AllConditions, Join;
    var col := FieldExpression(c.attribute, ps).value;
    var values := ListOf(Expected(c.value, ctx));
    if |values| == 0 {
      e := ConstantReads(negate);
    } else {
      var l := ColumnReads(c.attribute, ps, db, row, qs);
      var es := ScalarsRead(codec, col.ct, values, col.params, db, row, qs, ColumnValue(c.attribute, db, row));
      PrimaryIsOperand(col.toks, l);
      ReadIn(col.toks, l, negate, BindScalars(codec, col.ct, values, col.params).value.0, es);
      e := InList(l, es, negate);
    }
  }

  lemma ConstantReads(b: bool) returns (e: Expr)
    ensures AsPredicate([if b then KTrue else KFalse], e)
    ensures forall db, row, qs {:trigger Truth(e, db, row, qs)} :: Truth(e, db, row, qs) == Of(b)
  {
    var t := if b then KTrue else KFalse;
    e := Lit(b);
    ReadAtom(t);
    PrimaryIsOperand([t], e);
    OperandIsPredicate([t], e);
  }

  lemma TruthOfCasts(sym: string, l: Expr, r: Expr, ty: string, db: Db, row: Row, qs: seq<Bind>)
    ensures Truth(Bin(sym, Cast(l, ty), Cast(r, ty)), db, row, qs)
            == Compare(db, sym, CastValue(db, ty, Eval(l, db, row, qs)), CastValue(db, ty, Eval(r, db, row, qs)))
  {
    hide Compare, Eval, Truth;
    TruthOfBin(sym, Cast(l, ty), Cast(r, ty), db, row, qs);
    EvalOfCast(l, ty, db, row, qs);
    EvalOfCast(r, ty, db, row, qs);
  }

  lemma OrderingReads(
    codec: Codec, c: Condition, ctx: Context, ps: seq<Bind>, db: Db, row: Row, qs: seq<Bind>)
      returns (e: Expr)
    requires c.Leaf? && FieldExpression(c.attribute, ps).Ok?
    requires var r := CompileOrdering(codec, FieldExpression(c.attribute, ps).value, c.op, Expected(c.value, ctx));
             r.Ok? && r.value.params <= qs
    ensures ReadsAs(CompileOrdering(codec, FieldExpression(c.attribute, ps).value, c.op, Expected(c.value, ctx)).value,
            e)
    ensures var v, ct, expected := ColumnValue(c.attribute, db, row), TypeOf(c.attribute), Expected(c.value, ctx);
            Truth(e, db, row, qs) ==
            if ct == ColText && DecodesAsNumber(codec, expected) then
              OrderTruth(db, c.op, CastValue(db, "numeric", v), CastValue(db, "numeric", TextValue(expected)))
            else OrderTruth(db, c.op, v, BoundValue(codec, ct, expected, db))
  {
    hide OrderTruth, OrderSymbol;
    hide AsPrimary, AsOperand, AsPredicate, AsCondition, BindScalar, ColumnValue, Compare;
    var col := FieldExpression(c.attribute, ps).value;
    var v := Expected(c.value, ctx);
    var sym := OrderSymbol(c.op);
    var l := ColumnReads(c.attribute, ps, db, row, qs);
    PrimaryIsOperand(col.toks, l);
    if col.ct == ColText && DecodesAsNumber(codec, v) {
      var n := |col.params| + 1;
      OperandIsPredicate(col.toks, l);
      ParenthesisedReads(col.toks, l);
      ReadCastTo(Parens(col.toks), l, "numeric");
      ReadAtom(Dollar(n));
      ReadCastTo([Dollar(n)], Param(n), "numeric");
      BindAt(col.params, TextBind(ScalarText(v).value), qs);
      assert [Dollar(n)] + [CastTo("numeric")] == [Dollar(n), CastTo("numeric")];
      ReadBinary(Parens(col.toks) + [CastTo("numeric")], Cast(l, "numeric"), sym, [Dollar(n)] + [CastTo("numeric")],
                 Cast(Param(n), "numeric"));
      e := Bin(sym, Cast(l, "numeric"), Cast(Param(n), "numeric"));
      TruthOfCasts(sym, l, Param(n), "numeric", db, row, qs);
      OrderIsCompare(db, c.op, CastValue(db, "numeric", Eval(l, db, row, qs)),
                     CastValue(db, "numeric", Eval(Param(n), db, row, qs)));
    } else {
      var r := ScalarReads(codec, col.ct, v, col.params, db, row, qs);
      ReadBinary(col.toks, l, sym, BindScalar(codec, col.ct, v, col.params).value.toks, r);
      e := Bin(sym, l, r);
      OrderIsCompare(db, c.op, Eval(l, db, row, qs), Eval(r, db, row, qs));
    }
  }

  lemma OrderIsCompare(db: Db, op: Op, v: Value, w: Value)
    ensures Compare(db, OrderSymbol(op), v, w) == OrderTruth(db, op, v, w)
  {
  }

  lemma LeafReads(
    codec: Codec, c: Condition, ctx: Context, ps: seq<Bind>, db: Db, row: Row, qs: seq<Bind>)
      returns (e: Expr)
    requires c.Leaf?
    requires CompileLeaf(codec, c, ctx, ps).Ok? && CompileLeaf(codec, c, ctx, ps).value.params <= qs
    ensures ReadsAs(CompileLeaf(codec, c, ctx, ps).value, e)
    ensures Truth(e, db, row, qs) == LeafTruth(codec, c, ctx, db, row)
  {
    hide AsPredicate, FieldExpression, CompileEquality, CompileMembership, CompileOrdering, Compare, InBound,
      ColumnValue, BoundValue, Eval, Holds;
    if IsContextAttribute(c.attribute) {
      e := ConstantReads(Holds(codec, c, JNull, ctx));
    } else {
      match c.op {
        case Eq => e := EqualityReads(codec, c, ctx, ps, db, row, qs, "=");
        case Neq => e := EqualityReads(codec, c, ctx, ps, db, row, qs, "!=");
        case In => e := MembershipReads(codec, c, ctx, ps, db, row, qs, false);
        case NotIn => e := MembershipReads(codec, c, ctx, ps, db, row, qs, true);
        case _ => e := OrderingReads(codec, c, ctx, ps, db, row, qs);
      }
    }
  }

  lemma LeafCompilable(codec: Codec, c: Condition, ctx: Context, ps: seq<Bind>)
    requires c.Leaf? && CompileLeaf(codec, c, ctx, ps).Ok?
    ensures Compilable(c, ctx)
  {
  }

  // ---------------------------------------------------------------- whole conditions

  /** The text emitted for a condition is one predicate with the condition's SQL meaning. */
  lemma {:induction false} ConditionReads(
    codec: Codec, c: Condition, ctx: Context, ps: seq<Bind>, db: Db, row: Row, qs: seq<Bind>)
      returns (e: Expr)
    requires CompileCondition(codec, c, ctx, ps).Ok? && CompileCondition(codec, c, ctx, ps).value.params <= qs
    ensures ReadsAs(CompileCondition(codec, c, ctx, ps).value, e)
    ensures Truth(e, db, row, qs) == SqlTruth(codec, c, ctx, db, row)
    ensures Compilable(c, ctx)
    decreases c, 1
  {
    hide AsPredicate, CompileLeaf, CompileConditions, LeafTruth, Join;
    match c
    case Leaf(_, _, _) =>
      e := LeafReads(codec, c, ctx, ps, db, row, qs);
      LeafCompilable(codec, c, ctx, ps);
    case All(cs) =>
      if |cs| == 0 {
        e := ConstantReads(true);
      } else {
        var es := ConditionsRead(codec, cs, ctx, ps, db, row, qs);
        e := AndTree(es);
        AndClause(CompileConditions(codec, cs, ctx, ps).value.0, es, db, row, qs);
      }
    case Any(cs) =>
      if |cs| == 0 {
        e := ConstantReads(false);
      } else {
        var es := ConditionsRead(codec, cs, ctx, ps, db, row, qs);
        e := OrTree(es);
        OrClause(CompileConditions(codec, cs, ctx, ps).value.0, es, db, row, qs);
      }
  }

  lemma {:induction false} ConditionsRead(
    codec: Codec, cs: seq<Condition>, ctx: Context, ps: seq<Bind>, db: Db, row: Row, qs: seq<Bind>)
      returns (es: seq<Expr>)
    requires CompileConditions(codec, cs, ctx, ps).Ok? && CompileConditions(codec, cs, ctx, ps).value.1 <= qs
    ensures AllNegations(CompileConditions(codec, cs, ctx, ps).value.0, es)
    ensures Truths(es, db, row, qs) == SqlTruths(codec, cs, ctx, db, row)
    ensures forall i :: 0 <= i < |cs| ==> Compilable(cs[i], ctx)
    decreases cs, 0
  {
    hide AsPredicate, AsNegation, CompileCondition, SqlTruth, Truth, Compilable;
    if |cs| == 0 {
      es := [];
    } else {
      var em := CompileCondition(codec, cs[0], ctx, ps).value;
      var e := ConditionReads(codec, cs[0], ctx, ps, db, row, qs);
      PredicateIsNegation(em.toks, e);
      var rest := ConditionsRead(codec, cs[1..], ctx, em.params, db, row, qs);
      es := [e] + rest;
      assert Truths(es, db, row, qs) == [Truth(e, db, row, qs)] + Truths(rest, db, row, qs);
      assert forall i :: 1 <= i < |cs| ==> cs[i] == cs[1..][i - 1];
    }
  }

  // ---------------------------------------------------------------- the clause of a policy set

  lemma GatedHas(rows: seq<PolicyRow>, ctx: Context, effect: Effect, row: PolicyRow)
    ensures row in Gated(rows, ctx, effect) <==> row in rows && RoleGate(row, ctx) && row.effect == effect
  {
    KeepHas(rows, r => RoleGate(r, ctx) && r.effect == effect, row);
  }

  /** Some row of one effect matches in memory exactly when the disjunction of its gated conditions holds. */
  lemma SomeMatchIsAny(codec: Codec, rows: seq<PolicyRow>, ctx: Context, effect: Effect, data: Record)
    requires forall row :: row in rows ==> row.subject == "record"
    ensures SomeMatch(codec, rows, effect, ctx, Some(JObj(data)))
            == Holds(codec, Any(ConditionsOf(Gated(rows, ctx, effect))), JObj(data), ctx)
  {
    hide Gated;
    var gated := Gated(rows, ctx, effect);
    if SomeMatch(codec, rows, effect, ctx, Some(JObj(data))) {
      var row :| row in rows && row.effect == effect && Matches(codec, row, ctx, Some(JObj(data)));
      GatedHas(rows, ctx, effect, row);
      var i :| 0 <= i < |gated| && gated[i] == row;
      assert Holds(codec, ConditionsOf(gated)[i], JObj(data), ctx);
    }
    if Holds(codec, Any(ConditionsOf(gated)), JObj(data), ctx) {
      var i :| 0 <= i < |gated| && Holds(codec, ConditionsOf(gated)[i], JObj(data), ctx);
      GatedHas(rows, ctx, effect, gated[i]);
      assert Matches(codec, gated[i], ctx, Some(JObj(data)));
    }
  }

  predicate RowsInScope(rows: seq<PolicyRow>, ctx: Context, data: Record) {
    forall row :: row in rows ==>
      row.subject == "record" && (RoleGate(row, ctx) ==> InScope(RowCondition(row), ctx, data))
  }

  predicate RowsDefined(rows: seq<PolicyRow>, ctx: Context, data: Record) {
    forall row :: row in rows ==> (RoleGate(row, ctx) ==> NoNulls(RowCondition(row), data))
  }

  lemma GatedInScope(rows: seq<PolicyRow>, ctx: Context, effect: Effect, data: Record)
    requires RowsInScope(rows, ctx, data)
    ensures InScope(Any(ConditionsOf(Gated(rows, ctx, effect))), ctx, data)
    ensures RowsDefined(rows, ctx, data) ==> NoNulls(Any(ConditionsOf(Gated(rows, ctx, effect))), data)
  {
    hide Gated;
    var gated := Gated(rows, ctx, effect);
    forall i | 0 <= i < |gated| ensures gated[i] in rows && RoleGate(gated[i], ctx) {
      GatedHas(rows, ctx, effect, gated[i]);
    }
  }

  /** One side of the clause against the rows of that effect. */
  lemma SideAgrees(codec: Codec, rows: seq<PolicyRow>, ctx: Context, effect: Effect, db: Db, row: Row)
    requires RowsInScope(rows, ctx, row.data) && Compilable(Any(ConditionsOf(Gated(rows, ctx, effect))), ctx)
    ensures var t := Any3(SqlTruths(codec, ConditionsOf(Gated(rows, ctx, effect)), ctx, db, row));
            && Agrees(t, SomeMatch(codec, rows, effect, ctx, Some(JObj(row.data))))
            && (RowsDefined(rows, ctx, row.data) ==> t != Unknown)
  {
    hide Gated, InScope, Compilable, NoNulls, Holds, SomeMatch, SqlTruths, RowsDefined;
    var c := Any(ConditionsOf(Gated(rows, ctx, effect)));
    GatedInScope(rows, ctx, effect, row.data);
    ConditionAgrees(codec, c, ctx, db, row);
    SomeMatchIsAny(codec, rows, ctx, effect, row.data);
  }

  /** On rows whose conditions are in scope the clause is true only where the policies say Allow; when no
      field they read is absent or null, exactly there. */
  lemma ClauseAgrees(codec: Codec, rows: seq<PolicyRow>, ctx: Context, ps: seq<Bind>, db: Db, row: Row)
    requires RecordPolicyWhere(codec, rows, ctx, ps).Ok? && rows != [] && !ctx.IsAdmin()
    requires RowsInScope(rows, ctx, row.data)
    ensures ClauseTruth(codec, rows, ctx, db, row) == True3 ==>
            VerdictOf(codec, rows, ctx, Some(JObj(row.data))) == AllowVerdict
    ensures RowsDefined(rows, ctx, row.data) ==>
            (ClauseTruth(codec, rows, ctx, db, row) == True3 <==>
              VerdictOf(codec, rows, ctx, Some(JObj(row.data))) == AllowVerdict)
  {
    hide Gated, InScope, Compilable, RowsInScope, RowsDefined, Holds, SomeMatch, CompileConditions, SqlTruths;
    var allows, denies := Gated(rows, ctx, Allowing), Gated(rows, ctx, Denying);
    NothingGated(codec, rows, ctx, row.data);
    if |allows| == 0 {
      NoTruths(codec, ctx, db, row);
    } else {
      var r := CompileConditions(codec, ConditionsOf(allows), ctx, ps);
      AllCompilable(codec, ConditionsOf(allows), ctx, ps, db, row);
      SideAgrees(codec, rows, ctx, Allowing, db, row);
      if |denies| == 0 {
        NoTruths(codec, ctx, db, row);
        assert ConditionsOf(denies) == [];
      } else {
        AllCompilable(codec, ConditionsOf(denies), ctx, r.value.1, db, row);
        SideAgrees(codec, rows, ctx, Denying, db, row);
      }
    }
  }

  lemma NoTruths(codec: Codec, ctx: Context, db: Db, row: Row)
    ensures Any3(SqlTruths(codec, [], ctx, db, row)) == False3
  {
  }

  lemma AllCompilable(codec: Codec, cs: seq<Condition>, ctx: Context, ps: seq<Bind>, db: Db, row: Row)
    requires CompileConditions(codec, cs, ctx, ps).Ok?
    ensures Compilable(Any(cs), ctx)
  {
    var es := ConditionsRead(codec, cs, ctx, ps, db, row, CompileConditions(codec, cs, ctx, ps).value.1);
  }

  /** One side of the clause as text: the gated rows of one effect, joined by OR in parentheses. */
  lemma SideReads(
    codec: Codec, cs: seq<Condition>, ctx: Context, ps: seq<Bind>, db: Db, row: Row, qs: seq<Bind>)
      returns (e: Expr)
    requires |cs| > 0 && CompileConditions(codec, cs, ctx, ps).Ok?
             && CompileConditions(codec, cs, ctx, ps).value.1 <= qs
    ensures AsPrimary(Parens(Join(CompileConditions(codec, cs, ctx, ps).value.0, [KOr])), e)
    ensures Truth(e, db, row, qs) == Any3(SqlTruths(codec, cs, ctx, db, row))
  {
    hide AsPrimary, AsPredicate, CompileConditions, SqlTruths, Join;
    var es := ConditionsRead(codec, cs, ctx, ps, db, row, qs);
    OrClause(CompileConditions(codec, cs, ctx, ps).value.0, es, db, row, qs);
    e := OrTree(es);
  }

  lemma DenyOverrides(allow: seq<Tok>, a: Expr, deny: seq<Tok>, d: Expr)
    requires AsPrimary(allow, a) && AsPrimary(deny, d) && allow != [] && allow[0] == LP && deny != [] && deny[0] == LP
    ensures AsPrimary(Parens(allow + [KAnd] + ([KNot] + deny)), And(a, Not(d)))
  {
    hide AsPrimary, AsNegation, AsConjunction, AsCondition;
    PrimaryIsNegation(allow, a);
    PrimaryIsNegation(deny, d);
    ReadNegation(deny, d);
    NegationIsConjunction([KNot] + deny, Not(d));
    ReadAndPair(allow, a, [KNot] + deny, Not(d));
    assert allow + ([KAnd] + ([KNot] + deny)) == allow + [KAnd] + ([KNot] + deny);
    ConjunctionIsCondition(allow + [KAnd] + ([KNot] + deny), And(a, Not(d)));
    ReadParen(allow + [KAnd] + ([KNot] + deny), And(a, Not(d)));
  }

  /** The clause is one parenthesised condition (or a constant), whatever the policies are, and it has the
      clause's SQL meaning wherever it stands. */
  lemma ClauseReads(
    codec: Codec, rows: seq<PolicyRow>, ctx: Context, ps: seq<Bind>, db: Db, row: Row, qs: seq<Bind>)
      returns (e: Expr)
    requires RecordPolicyWhere(codec, rows, ctx, ps).Ok? && RecordPolicyWhere(codec, rows, ctx, ps).value.Some?
    requires RecordPolicyWhere(codec, rows, ctx, ps).value.value.params <= qs
    ensures AsPrimary(RecordPolicyWhere(codec, rows, ctx, ps).value.value.toks, e)
    ensures var toks := RecordPolicyWhere(codec, rows, ctx, ps).value.value.toks; toks != [] && toks[0] != KNot
    ensures Truth(e, db, row, qs) == ClauseTruth(codec, rows, ctx, db, row)
  {
    hide AsPrimary, CompileConditions, Gated, SqlTruths, Join;
    var allows, denies := Gated(rows, ctx, Allowing), Gated(rows, ctx, Denying);
    NoTruths(codec, ctx, db, row);
    if |allows| == 0 {
      assert ConditionsOf(allows) == [];
      ReadAtom(KFalse);
      e := Lit(false);
    } else {
      var (allowTexts, ps1) := CompileConditions(codec, ConditionsOf(allows), ctx, ps).value;
      var a := SideReads(codec, ConditionsOf(allows), ctx, ps, db, row, qs);
      if |denies| == 0 {
        assert ConditionsOf(denies) == [];
        e := a;
      } else {
        var (denyTexts, _) := CompileConditions(codec, ConditionsOf(denies), ctx, ps1).value;
        var d := SideReads(codec, ConditionsOf(denies), ctx, ps1, db, row, qs);
        DenyOverrides(Parens(Join(allowTexts, [KOr])), a, Parens(Join(denyTexts, [KOr])), d);
        TruthOfDenial(a, d, db, row, qs);
        e := And(a, Not(d));
      }
    }
  }

  lemma TruthOfDenial(a: Expr, d: Expr, db: Db, row: Row, qs: seq<Bind>)
    ensures Truth(And(a, Not(d)), db, row, qs) == And3(Truth(a, db, row, qs), Not3(Truth(d, db, row, qs)))
  {
    assert Eval(Not(d), db, row, qs) == FromTri(Not3(TriOf(Eval(d, db, row, qs))));
  }

  /** A side with no gated row matches nothing. */
  lemma NothingGated(codec: Codec, rows: seq<PolicyRow>, ctx: Context, data: Record)
    ensures |Gated(rows, ctx, Allowing)| == 0 ==> !SomeMatch(codec, rows, Allowing, ctx, Some(JObj(data)))
    ensures |Gated(rows, ctx, Denying)| == 0 ==> !SomeMatch(codec, rows, Denying, ctx, Some(JObj(data)))
  {
    hide Gated;
    forall row: PolicyRow
      ensures row in Gated(rows, ctx, Allowing) <==> row in rows && RoleGate(row, ctx) && row.effect == Allowing
      ensures row in Gated(rows, ctx, Denying) <==> row in rows && RoleGate(row, ctx) && row.effect == Denying
    {
      GatedHas(rows, ctx, Allowing, row);
      GatedHas(rows, ctx, Denying, row);
    }
  }

  // ---------------------------------------------------------------- List and Get

  /** Whether List's record-policy restriction keeps a row: no restriction, or a clause that is true on it. */
  ghost predicate Listed(
    codec: Codec, rows: seq<PolicyRow>, ctx: Context, ps: seq<Bind>, db: Db, row: Row, qs: seq<Bind>)
    requires RecordPolicyWhere(codec, rows, ctx, ps).Ok?
  {
    match RecordPolicyWhere(codec, rows, ctx, ps).value
    case None => true
    case Some(em) => exists e :: AsPrimary(em.toks, e) && Truth(e, db, row, qs) == True3
  }

  /** List never shows what Get refuses; and when no field the policies read is absent or null, List shows
      exactly what Get allows. Admin callers and entities without record policies are the unrestricted case. */
  lemma ListNeverShowsWhatGetRefuses(
    codec: Codec, s: PermissionSnapshot, ctx: Context, ps: seq<Bind>, db: Db, row: Row, qs: seq<Bind>)
    requires var rows := Group(s.recordByAction, "read");
             && RecordPolicyWhere(codec, rows, ctx, ps).Ok?
             && (RecordPolicyWhere(codec, rows, ctx, ps).value.Some? ==>
                   RecordPolicyWhere(codec, rows, ctx, ps).value.value.params <= qs)
             && RowsInScope(rows, ctx, row.data)
    ensures Listed(codec, Group(s.recordByAction, "read"), ctx, ps, db, row, qs)
            ==> CanPerformRecordCondition(codec, s, ctx, row.data, EntityAction.Read)
    ensures RowsDefined(Group(s.recordByAction, "read"), ctx, row.data) ==>
            (Listed(codec, Group(s.recordByAction, "read"), ctx, ps, db, row, qs)
             <==> CanPerformRecordCondition(codec, s, ctx, row.data, EntityAction.Read))
  {
    hide AsPrimary, VerdictOf, RowsInScope, RowsDefined, ClauseTruth, Truth;
    var rows := Group(s.recordByAction, "read");
    match RecordPolicyWhere(codec, rows, ctx, ps).value
    case None =>
    case Some(em) =>
      var e := ClauseReads(codec, rows, ctx, ps, db, row, qs);
      ClauseAgrees(codec, rows, ctx, ps, db, row);
      if Listed(codec, rows, ctx, ps, db, row, qs) {
        var e' :| AsPrimary(em.toks, e') && Truth(e', db, row, qs) == True3;
        OneReading(em.toks, e, e');
      }
  }

  lemma WorkflowHasDot(s: string)
    ensures WORKFLOW_PREFIX <= s ==> '.' in s
  {
    if WORKFLOW_PREFIX <= s { assert s[9] == WORKFLOW_PREFIX[9]; }
  }

  lemma BareNotInCompiles(codec: Codec, field: string, text: string, ctx: Context)
    requires PlainField(field)
    ensures CompileConditions(codec, [Leaf(field, NotIn, Literal(JStr(text)))], ctx, [])
            == Ok(([[KTrue]], [TextBind(field)]))
  {
    var c := Leaf(field, NotIn, Literal(JStr(text)));
    ContextHasDot(field);
    WorkflowHasDot(field);
    assert [] + [TextBind(field)] == [TextBind(field)];
    assert FieldExpression(field, []).value.params == [TextBind(field)];
    assert CompileLeaf(codec, c, ctx, []) == Ok(Emitted([KTrue], [TextBind(field)]));
    assert CompileCondition(codec, [c][0], ctx, []) == Ok(Emitted([KTrue], [TextBind(field)]));
    assert [c][1..] == [] && [[KTrue]] + [] == [[KTrue]];
    assert CompileConditions(codec, [], ctx, [TextBind(field)]) == Ok(([], [TextBind(field)]));
  }

  lemma OnlyAllow(policy: PolicyRow, ctx: Context)
    requires !policy.hasRoles && policy.effect == Allowing
    ensures Gated([policy], ctx, Allowing) == [policy] && Gated([policy], ctx, Denying) == []
  {
    KeepStep([policy], 0, r => RoleGate(r, ctx) && r.effect == Allowing);
    KeepStep([policy], 0, r => RoleGate(r, ctx) && r.effect == Denying);
    assert [policy][..1] == [policy];
  }

  /** Outside that scope it fails: with the one allow policy `field notIn "text"`, whose value is a bare
      string, List shows every row and Get refuses every record. */
  lemma BareNotInShowsWhatGetRefuses(
    codec: Codec, field: string, text: string, policy: PolicyRow, ctx: Context, db: Db, row: Row)
    requires !ctx.IsAdmin() && PlainField(field)
    requires !policy.hasRoles && policy.effect == Allowing && policy.subject == "record"
    requires policy.condition == Some(Leaf(field, NotIn, Literal(JStr(text))))
    ensures RecordPolicyWhere(codec, [policy], ctx, []).Ok?
    ensures Listed(codec, [policy], ctx, [], db, row, [TextBind(field)])
    ensures VerdictOf(codec, [policy], ctx, Some(JObj(row.data))) != AllowVerdict
  {
    OnlyAllow(policy, ctx);
    BareNotInCompiles(codec, field, text, ctx);
    assert ConditionsOf([policy]) == [policy.condition.value];
    ReadAtom(KTrue);
    PrimaryIsPredicate([KTrue], Lit(true));
    ParenthesisedReads([KTrue], Lit(true));
    assert Truth(Lit(true), db, row, [TextBind(field)]) == True3;
    assert !Matches(codec, policy, ctx, Some(JObj(row.data)));
  }

  /** The role `admin` lifts every record policy, and no other does. */
  lemma OnlyAdminsAreUnrestricted(codec: Codec, rows: seq<PolicyRow>, ctx: Context, ps: seq<Bind>)
    ensures RecordPolicyWhere(codec, rows, ctx, ps) == Ok(None) <==> rows == [] || "admin" in ctx.roles
  {
    hide CompileConditions, Gated;
  }

  // ---------------------------------------------------------------- which policies have a clause

  /** A value that can be bound for a column of this type: a UUID's text, or a text, a number, a boolean or null. */
  predicate Bindable(codec: Codec, ct: ColType, v: Json) {
    if ct == ColUuid then (v.JStr? && codec.uuid(v.s).Some?) || (v.JNull? && codec.uuid("").Some?)
    else v.JStr? || v.JNum? || v.JBool? || v.JNull?
  }

  /** Only attributes of the context and fields of the record itself have a clause, equality and ordering with a value
      that can be bound, membership with a list of such values, and ordering not for UUIDs. */
  predicate HasClause(codec: Codec, c: Condition, ctx: Context)
    requires c.Leaf?
  {
    var v, ct := ResolveValue(c.value, ctx), TypeOf(c.attribute);
    || IsContextAttribute(c.attribute)
    || (&& !("$workflow." <= c.attribute) && '.' !in c.attribute
        && match c.op
           case Eq => c.value != NoLiteral && Bindable(codec, ct, v)
           case Neq => c.value != NoLiteral && Bindable(codec, ct, v)
           case In => v.JArr? ==> forall i :: 0 <= i < |v.items| ==> Bindable(codec, ct, v.items[i])
           case NotIn => v.JArr? ==> forall i :: 0 <= i < |v.items| ==> Bindable(codec, ct, v.items[i])
           case HasItem => false
           case LacksItem => false
           case OtherOp(_) => false
           case _ => ct != ColUuid && c.value != NoLiteral && Bindable(codec, ct, v))
  }

  lemma {:induction false} BindsEach(codec: Codec, ct: ColType, values: seq<Json>, ps: seq<Bind>)
    ensures BindScalars(codec, ct, values, ps).Ok? <==> forall i :: 0 <= i < |values| ==> Bindable(codec, ct, values[i])
    decreases |values|
  {
    if |values| > 0 {
      var first := BindScalar(codec, ct, Some(values[0]), ps);
      if first.Ok? { BindsEach(codec, ct, values[1..], first.value.params); }
      forall i | 1 <= i < |values| ensures values[i] == values[1..][i - 1] {}
    }
  }

  /** A leaf compiles if and only if it has a clause. */
  lemma LeafCompilesExactly(codec: Codec, c: Condition, ctx: Context, ps: seq<Bind>)
    requires c.Leaf?
    ensures CompileLeaf(codec, c, ctx, ps).Ok? <==> HasClause(codec, c, ctx)
  {
    hide Holds, IsContextAttribute, BindScalars;
    if FieldExpression(c.attribute, ps).Ok? {
      var col, v := FieldExpression(c.attribute, ps).value, Expected(c.value, ctx);
      BindsEach(codec, col.ct, ListOf(v), col.params);
    }
  }
}
