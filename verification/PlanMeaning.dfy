/** What a planned list query selects: exactly the conjunction of tenant, not deleted, record policies,
    filters, JQL and cursor position, whatever those texts contain. */
module PlanMeaning {
  import opened Prelude
  import opened Metadata
  import opened Sql
  import opened SqlReading
  import opened SqlBuilder
  import opened Substring
  import opened SortKeys
  import opened ListFilters
  import opened Planner
  import Q = JqlQuery
  import P = Permission
  import S = Snapshot
  import W = PolicySql
  import A = PolicyAgreement

  /** What the parts before the cursor ask of a row. */
  predicate BelongsToList(
    codec: P.Codec, entity: Entity, view: Option<ListView>, tenant: string, input: ListInput, ctx: P.Context,
                   rows: seq<P.PolicyRow>, db: Db, row: Row)
  {
    && ColumnOf(row, "tenant_id") == Scalar(tenant)
    && ColumnOf(row, "deleted") == Bool(false)
    && A.ClauseTruth(codec, rows, ctx, db, row) == True3
    && PassesFilters(input.filters, OfferedFilters(view), ByName(entity.fields), db, row)
    && (input.jql.Some? ==> Q.QueryTruth(input.jql.value, entity, db, row) == True3)
  }

  function SortKey(entity: Entity, sort: ResolvedSort, db: Db, row: Row): Value {
    KeyValue(sort.field, Declared(ByName(entity.fields), sort.field), db, row)
  }

  function CursorKey(entity: Entity, sort: ResolvedSort, value: Option<string>, db: Db): Option<Value> {
    match value
    case Some(t) => Some(AsSortType(db, KeyType(sort.field, Declared(ByName(entity.fields), sort.field)), Scalar(t)))
    case None => None
  }

  predicate AfterCursor(
    entity: Entity, sort: ResolvedSort, cursor: Option<(Option<string>, string)>, db: Db, row: Row) {
    match cursor
    case None => true
    case Some((value, id)) =>
      CursorTruth(db, sort.descending, SortKey(entity, sort, db, row), ColumnOf(row, "id"),
                  CursorKey(entity, sort, value, db), Scalar(id)) == True3
  }

  // ---------------------------------------------------------------- groups of conditions

  /** Texts read one by one, all true of the row exactly when `holds`. */
  ghost predicate Reads(texts: seq<seq<Tok>>, es: seq<Expr>, db: Db, row: Row, qs: seq<Bind>, holds: bool) {
    AllNegations(texts, es) && (All3(Truths(es, db, row, qs)) == True3 <==> holds)
  }

  lemma {:induction false} AllTrueConcat(a: seq<Tri>, b: seq<Tri>)
    ensures All3(a + b) == True3 <==> All3(a) == True3 && All3(b) == True3
  {
    if |a| == 0 {
      assert a + b == b;
    } else {
      AllTrueConcat(a[1..], b);
      assert (a + b)[1..] == a[1..] + b;
    }
  }

  lemma ReadsMore(
    t1: seq<seq<Tok>>, e1: seq<Expr>, h1: bool, t2: seq<seq<Tok>>, e2: seq<Expr>, h2: bool, db: Db, row: Row,
    qs: seq<Bind>)
    requires Reads(t1, e1, db, row, qs, h1) && Reads(t2, e2, db, row, qs, h2)
    ensures Reads(t1 + t2, e1 + e2, db, row, qs, h1 && h2)
  {
    hide AsNegation, Truth;
    assert Truths(e1 + e2, db, row, qs) == Truths(e1, db, row, qs) + Truths(e2, db, row, qs);
    AllTrueConcat(Truths(e1, db, row, qs), Truths(e2, db, row, qs));
  }

  lemma ReadsOne(p: seq<Tok>, e: Expr, db: Db, row: Row, qs: seq<Bind>)
    requires AsNegation(p, e)
    ensures Reads([p], [e], db, row, qs, Truth(e, db, row, qs) == True3)
  {
    hide AsNegation, Truth;
    assert Truths([e], db, row, qs) == [Truth(e, db, row, qs)];
    AllOfOne(Truth(e, db, row, qs));
  }

  lemma AllOfOne(t: Tri)
    ensures All3([t]) == t
  {
    assert [t][1..] == [];
    assert All3([]) == True3;
  }

  lemma ReadsNone(db: Db, row: Row, qs: seq<Bind>)
    ensures Reads([], [], db, row, qs, true)
  {
  }

  // ---------------------------------------------------------------- part by part

  lemma TenantReads(tenant: string, db: Db, row: Row, qs: seq<Bind>) returns (es: seq<Expr>)
    requires [UuidBind(tenant)] <= qs
    ensures Reads([TenantIs(Dollar(1)), NOT_DELETED], es, db, row, qs,
                  ColumnOf(row, "tenant_id") == Scalar(tenant) && ColumnOf(row, "deleted") == Bool(false))
  {
    hide AsPrimary, AsOperand, AsNegation;
    BindAt([], UuidBind(tenant), qs);
    ReadAtom(Word("tenant_id"));
    ReadAtom(Dollar(1));
    ReadAtom(Word("deleted"));
    ReadAtom(KFalse);
    PrimaryIsOperand([Dollar(1)], Param(1));
    PrimaryIsOperand([KFalse], Lit(false));
    ComparisonReads([Word("tenant_id")], Column("tenant_id"), "=", [Dollar(1)], Param(1));
    ComparisonReads([Word("deleted")], Column("deleted"), "=", [KFalse], Lit(false));
    var t, d := Bin("=", Column("tenant_id"), Param(1)), Bin("=", Column("deleted"), Lit(false));
    ColumnsCompared(tenant, db, row, qs);
    ReadsOne(TenantIs(Dollar(1)), t, db, row, qs);
    ReadsOne(NOT_DELETED, d, db, row, qs);
    ReadsMore([TenantIs(Dollar(1))], [t], Truth(t, db, row, qs) == True3, [NOT_DELETED], [d],
      Truth(d, db, row, qs) == True3, db, row, qs);
    assert [TenantIs(Dollar(1))] + [NOT_DELETED] == [TenantIs(Dollar(1)), NOT_DELETED];
    es := [t] + [d];
  }

  lemma ColumnsCompared(tenant: string, db: Db, row: Row, qs: seq<Bind>)
    requires BindOf(qs, 1) == Scalar(tenant)
    ensures Truth(Bin("=", Column("tenant_id"), Param(1)), db, row, qs) == True3 <==>
            ColumnOf(row, "tenant_id") == Scalar(tenant)
    ensures Truth(Bin("=", Column("deleted"), Lit(false)), db, row, qs) == True3 <==>
            ColumnOf(row, "deleted") == Bool(false)
  {
    TruthOfBin("=", Column("tenant_id"), Param(1), db, row, qs);
    TruthOfBin("=", Column("deleted"), Lit(false), db, row, qs);
  }

  lemma PolicyReads(
    codec: P.Codec, rows: seq<P.PolicyRow>, ctx: P.Context, ps: seq<Bind>, db: Db, row: Row, qs: seq<Bind>)
      returns (es: seq<Expr>)
    requires PolicyPart(codec, rows, ctx, ps).Ok? && PolicyPart(codec, rows, ctx, ps).value.1 <= qs
    ensures Reads(Optional(PolicyPart(codec, rows, ctx, ps).value.0), es, db, row, qs,
            A.ClauseTruth(codec, rows, ctx, db, row) == True3)
  {
    hide AsPrimary, AsNegation, Truth;
    match W.RecordPolicyWhere(codec, rows, ctx, ps).value
    case None =>
      Unrestricted(codec, rows, ctx, ps, db, row);
      ReadsNone(db, row, qs);
      es := [];
    case Some(em) =>
      hide A.ClauseTruth, W.RecordPolicyWhere;
      var e := A.ClauseReads(codec, rows, ctx, ps, db, row, qs);
      PrimaryIsNegation(em.toks, e);
      ReadsOne(em.toks, e, db, row, qs);
      es := [e];
  }

  lemma Unrestricted(codec: P.Codec, rows: seq<P.PolicyRow>, ctx: P.Context, ps: seq<Bind>, db: Db, row: Row)
    requires W.RecordPolicyWhere(codec, rows, ctx, ps) == Ok(None)
    ensures A.ClauseTruth(codec, rows, ctx, db, row) == True3
  {
  }

  lemma JqlReads(
    jql: Option<string>, entity: Entity, ps: seq<Bind>, db: Db, row: Row, qs: seq<Bind>)
      returns (es: seq<Expr>)
    requires FoldKeepsMeta(db) && JqlPart(jql, entity, ps).Ok? && JqlPart(jql, entity, ps).value.params <= qs
    ensures Reads(Optional(JqlPart(jql, entity, ps).value.where), es, db, row, qs,
                  jql.Some? ==> Q.QueryTruth(jql.value, entity, db, row) == True3)
  {
    hide AsPrimary, AsNegation, Truth;
    match JqlPart(jql, entity, ps).value.where
    case None =>
      ReadsNone(db, row, qs);
      es := [];
    case Some(p) =>
      hide Q.CompileText, Q.QueryTruth;
      var e := Q.CompileTextMeans(jql.value, entity, ps, db, row, qs);
      PrimaryIsNegation(p, e);
      ReadsOne(p, e, db, row, qs);
      es := [e];
  }

  lemma FilterPartReads(
    filters: seq<(string, string)>, allowed: set<string>, fields: map<string, Field>, ps: seq<Bind>, db: Db, row: Row,
    qs: seq<Bind>)
      returns (es: seq<Expr>)
    requires FoldKeepsMeta(db) && FilterTexts(filters, allowed, fields, ps).1 <= qs
    ensures Reads(FilterTexts(filters, allowed, fields, ps).0, es, db, row, qs,
            PassesFilters(filters, allowed, fields, db, row))
  {
    hide FilterTexts, PassesFilters, AllNegations, Truths;
    es := FiltersRead(filters, allowed, fields, ps, db, row, qs);
  }

  lemma BodyReads(
    codec: P.Codec, entity: Entity, view: Option<ListView>, tenant: string, input: ListInput, ctx: P.Context,
                  rows: seq<P.PolicyRow>, db: Db, row: Row, qs: seq<Bind>) returns (es: seq<Expr>)
    requires FoldKeepsMeta(db)
    requires var b := BodyOf(codec, entity, view, tenant, input, ctx, rows); b.Ok? && b.value.params <= qs
    ensures Reads(BodyOf(codec, entity, view, tenant, input, ctx, rows).value.conditions, es, db, row, qs,
                  BelongsToList(codec, entity, view, tenant, input, ctx, rows, db, row))
  {
    hide Reads, PolicyPart, FilterTexts, JqlPart, PassesFilters, A.ClauseTruth, Q.QueryTruth, ByName, OfferedFilters;
    var (policy, ps1) := PolicyPart(codec, rows, ctx, [UuidBind(tenant)]).value;
    var allowed, fields := OfferedFilters(view), ByName(entity.fields);
    var (filters, ps2) := FilterTexts(input.filters, allowed, fields, ps1);
    var jql := JqlPart(input.jql, entity, ps2).value;
    var e1 := TenantReads(tenant, db, row, qs);
    var e2 := PolicyReads(codec, rows, ctx, [UuidBind(tenant)], db, row, qs);
    var e3 := FilterPartReads(input.filters, allowed, fields, ps1, db, row, qs);
    var e4 := JqlReads(input.jql, entity, ps2, db, row, qs);
    var h1 := ColumnOf(row, "tenant_id") == Scalar(tenant) && ColumnOf(row, "deleted") == Bool(false);
    var h2 := A.ClauseTruth(codec, rows, ctx, db, row) == True3;
    var h3 := PassesFilters(input.filters, allowed, fields, db, row);
    var h4 := input.jql.Some? ==> Q.QueryTruth(input.jql.value, entity, db, row) == True3;
    var head := [TenantIs(Dollar(1)), NOT_DELETED];
    ReadsMore(head, e1, h1, Optional(policy), e2, h2, db, row, qs);
    ReadsMore(head + Optional(policy), e1 + e2, h1 && h2, filters, e3, h3, db, row, qs);
    ReadsMore(head + Optional(policy) + filters, e1 + e2 + e3, h1 && h2
      && h3, Optional(jql.where), e4, h4, db, row, qs);
    es := e1 + e2 + e3 + e4;
  }

  lemma CursorPartReads(
    entity: Entity, sort: ResolvedSort, ps: seq<Bind>, cursor: Option<(Option<string>, string)>, db: Db, row: Row,
    qs: seq<Bind>)
    returns (es: seq<Expr>)
    requires var s := SortExpression(sort.field, Declared(ByName(entity.fields), sort.field), ps);
             CursorPart(sort, s, cursor).1 <= qs
    ensures var s := SortExpression(sort.field, Declared(ByName(entity.fields), sort.field), ps);
            Reads(Optional(CursorPart(sort, s, cursor).0), es, db, row, qs, AfterCursor(entity, sort, cursor, db, row))
  {
    hide AsPrimary, AsOperand, AsNegation, SortExpression, CursorCondition, CursorExpr, CursorTruth, Truth, Eval,
      KeyValue, ByName;
    var def := Declared(ByName(entity.fields), sort.field);
    var s := SortExpression(sort.field, def, ps);
    var k := SortExpressionReads(sort.field, def, ps, db, row, qs);
    var n := |s.params| + 1;
    match cursor
    case None =>
      ReadsNone(db, row, qs);
      es := [];
    case Some((None, id)) =>
      BindAt(s.params, UuidBind(id), qs);
      CursorAfterNullReads(s.toks, k, sort.descending, n);
      var e := CursorExpr(k, sort.descending, None, n);
      CursorExprTruth(k, sort.descending, None, n, db, row, qs);
      StartsWithParen(s.toks, sort.descending, None, Dollar(n));
      OneCondition(CursorCondition(s.toks, sort.descending, None, Dollar(n)), e, db, row, qs);
      es := [e];
    case Some((Some(v), id)) =>
      BindAt(s.params, TextBind(v), qs);
      BindAt(s.params + [TextBind(v)], UuidBind(id), qs);
      var ve := CastPlaceholderReads(n, s.ct, db, row, qs);
      CursorAfterValueReads(s.toks, k, sort.descending, [Dollar(n)] + SortSuffix(s.ct), ve, n + 1);
      var e := CursorExpr(k, sort.descending, Some(ve), n + 1);
      CursorExprTruth(k, sort.descending, Some(ve), n + 1, db, row, qs);
      StartsWithParen(s.toks, sort.descending, Some([Dollar(n)] + SortSuffix(s.ct)), Dollar(n + 1));
      OneCondition(CursorCondition(s.toks, sort.descending, Some([Dollar(n)] + SortSuffix(s.ct)), Dollar(n + 1)), e, db,
        row, qs);
      es := [e];
  }

  lemma OneCondition(p: seq<Tok>, e: Expr, db: Db, row: Row, qs: seq<Bind>)
    requires AsPrimary(p, e) && p != [] && p[0] != KNot
    ensures Reads([p], [e], db, row, qs, Truth(e, db, row, qs) == True3)
  {
    PrimaryIsNegation(p, e);
    ReadsOne(p, e, db, row, qs);
  }

  lemma StartsWithParen(key: seq<Tok>, descending: bool, v: Option<seq<Tok>>, idPh: Tok)
    ensures CursorCondition(key, descending, v, idPh) != [] && CursorCondition(key, descending, v, idPh)[0] == LP
  {
  }

  // ---------------------------------------------------------------- the whole plan

  lemma JoinedReads(texts: seq<seq<Tok>>, es: seq<Expr>, db: Db, row: Row, qs: seq<Bind>, holds: bool)
    requires Reads(texts, es, db, row, qs, holds) && |texts| > 0
    ensures |es| > 0
    ensures ReadWhere(Join(texts, [KAnd])) == Some(AndTree(es))
    ensures Truth(AndTree(es), db, row, qs) == True3 <==> holds
  {
    hide AsNegation, AsConjunction, AsCondition, Join, ReadWhere;
    ReadAndJoin(texts, es);
    ConjunctionIsCondition(Join(texts, [KAnd]), AndTree(es));
    ReadsWhole(Join(texts, [KAnd]), AndTree(es));
    AndClause(texts, es, db, row, qs);
  }

  /** A planned query: the parts it was made of. */
  datatype Planned = Planned(entity: Entity, view: Option<ListView>, tenant: string,
      cursor: Option<(Option<string>, string)>)

  function PartsOf(
    codec: P.Codec, entity: Option<Entity>, input: ListInput, ctx: P.Context, rows: seq<P.PolicyRow>): Planned
    requires PlanOf(codec, entity, input, ctx, rows).Ok?
  {
    Planned(entity.value, ChosenView(entity.value, input.listView).value, S.ScopedTenant(codec, ctx).value,
            ResolveCursor(codec, PlanOf(codec, entity, input, ctx, rows).value.sort, input.cursor).value)
  }

  /** The rows a plan selects, stated without its text. */
  predicate Selected(
    codec: P.Codec, p: Planned, input: ListInput, sort: ResolvedSort, ctx: P.Context, rows: seq<P.PolicyRow>, db: Db,
    row: Row) {
    && BelongsToList(codec, p.entity, p.view, p.tenant, input, ctx, rows, db, row)
    && AfterCursor(p.entity, sort, p.cursor, db, row)
  }

  /** The joined WHERE clause is read completely, as one condition; with its placeholders looked up in the
      plan's parameters it is TRUE of a row exactly when the row is in the list and after the cursor. */
  lemma PlanSelects(
    codec: P.Codec, entity: Option<Entity>, input: ListInput, ctx: P.Context, rows: seq<P.PolicyRow>, db: Db, row: Row)
      returns (e: Expr)
    requires FoldKeepsMeta(db) && PlanOf(codec, entity, input, ctx, rows).Ok?
    ensures var plan := PlanOf(codec, entity, input, ctx, rows).value;
            && ReadWhere(plan.where) == Some(e)
            && (Truth(e, db, row, plan.params) == True3
                <==> Selected(codec, PartsOf(codec, entity, input, ctx, rows), input, plan.sort, ctx, rows, db, row))
  {
    hide BodyOf, Reads, BelongsToList, AfterCursor, SortExpression, CursorPart, Join, ReadWhere, AndTree, SortFor,
      ByName, Truth;
    var plan := PlanOf(codec, entity, input, ctx, rows).value;
    var p := PartsOf(codec, entity, input, ctx, rows);
    var body := BodyOf(codec, p.entity, p.view, p.tenant, input, ctx, rows).value;
    var s := SortExpression(plan.sort.field, Declared(ByName(p.entity.fields), plan.sort.field), body.params);
    var after := CursorPart(plan.sort, s, p.cursor).0;
    var e1 := BodyReads(codec, p.entity, p.view, p.tenant, input, ctx, rows, db, row, plan.params);
    var e2 := CursorPartReads(p.entity, plan.sort, body.params, p.cursor, db, row, plan.params);
    var h1 := BelongsToList(codec, p.entity, p.view, p.tenant, input, ctx, rows, db, row);
    var h2 := AfterCursor(p.entity, plan.sort, p.cursor, db, row);
    ReadsMore(body.conditions, e1, h1, Optional(after), e2, h2, db, row, plan.params);
    BodyIsNotEmpty(codec, p.entity, p.view, p.tenant, input, ctx, rows);
    JoinedReads(body.conditions + Optional(after), e1 + e2, db, row, plan.params, h1 && h2);
    e := AndTree(e1 + e2);
  }

  lemma BodyIsNotEmpty(
    codec: P.Codec, entity: Entity, view: Option<ListView>, tenant: string, input: ListInput, ctx: P.Context,
    rows: seq<P.PolicyRow>)
    requires BodyOf(codec, entity, view, tenant, input, ctx, rows).Ok?
    ensures |BodyOf(codec, entity, view, tenant, input, ctx, rows).value.conditions| >= 2
  {
  }

  /** Containment: whatever the JQL, filters, sort and cursor are, a selected row belongs to the caller's
      tenant, is not deleted and satisfies the record-policy clause. */
  lemma SelectedRowsAreContained(
    codec: P.Codec, entity: Option<Entity>, input: ListInput, ctx: P.Context, rows: seq<P.PolicyRow>, db: Db, row: Row,
    e: Expr)
    requires FoldKeepsMeta(db) && PlanOf(codec, entity, input, ctx, rows).Ok?
    requires var plan := PlanOf(codec, entity, input, ctx, rows).value;
             ReadWhere(plan.where) == Some(e) && Truth(e, db, row, plan.params) == True3
    ensures S.ScopedTenant(codec, ctx).Ok? && ColumnOf(row, "tenant_id") == Scalar(S.ScopedTenant(codec, ctx).value)
    ensures ColumnOf(row, "deleted") == Bool(false)
    ensures A.ClauseTruth(codec, rows, ctx, db, row) == True3
  {
    hide BodyOf, FinishPlan, PassesFilters, A.ClauseTruth, Q.QueryTruth, AfterCursor, ReadWhere, Truth;
    var e' := PlanSelects(codec, entity, input, ctx, rows, db, row);
  }

  /** Every row a list request returns is one that Get would return to the same caller, when the read
      policies are within what both sides can evaluate. */
  lemma ListedRowsAreReadable(
    codec: P.Codec, entity: Option<Entity>, input: ListInput, ctx: P.Context, s: S.PermissionSnapshot, db: Db, row: Row,
    e: Expr)
    requires FoldKeepsMeta(db) && PlanOf(codec, entity, input, ctx, S.Group(s.recordByAction, "read")).Ok?
    requires var plan := PlanOf(codec, entity, input, ctx, S.Group(s.recordByAction, "read")).value;
             ReadWhere(plan.where) == Some(e) && Truth(e, db, row, plan.params) == True3
    requires A.RowsInScope(S.Group(s.recordByAction, "read"), ctx, row.data)
    ensures S.CanPerformRecordCondition(codec, s, ctx, row.data, S.EntityAction.Read)
  {
    hide FinishPlan, PassesFilters, A.ClauseTruth, ReadWhere, Truth, A.RowsInScope, W.RecordPolicyWhere, P.VerdictOf,
      FilterTexts, JqlPart;
    var rows := S.Group(s.recordByAction, "read");
    SelectedRowsAreContained(codec, entity, input, ctx, rows, db, row, e);
    if rows != [] && !ctx.IsAdmin() {
      A.ClauseAgrees(codec, rows, ctx, [UuidBind(S.ScopedTenant(codec, ctx).value)], db, row);
    }
  }
}
