/** PlanList: one WHERE clause out of tenant, policies, filters, JQL and cursor. Whatever the request says,
    the joined text is read as the conjunction of exactly those parts. */
module Planner {
  import opened Prelude
  import opened Metadata
  import opened Sql
  import opened SqlBuilder
  import opened Jql
  import opened SortKeys
  import opened ListFilters
  import Q = JqlQuery
  import P = Permission
  import S = Snapshot
  import W = PolicySql

  datatype Dir = Asc | Desc | OtherDir(text: string)

  datatype Cursor = Cursor(field: string, value: Option<string>, id: string, dir: Dir)

  /** A list request; a cursor that does not decode is `Some(None)`. */
  datatype ListInput = ListInput(
    limit: int, sort: Option<string>, filters: seq<(string, string)>, cursor: Option<Option<Cursor>>,
    listView: Option<string>, jql: Option<string>)

  datatype ResolvedSort = ResolvedSort(field: string, descending: bool)

  datatype PlanError =
    | EntityNotFound
    | NoTenant(tenant: S.ServiceError)
    | UnknownListView(name: string)
    | BadPolicy(policy: W.PolicySqlError)
    | BadJql(jql: JqlError)
    | InvalidCursor

  /** ORDER BY key ASC NULLS LAST or key DESC NULLS FIRST, then id ASC. */
  datatype OrderBy = OrderBy(key: seq<Tok>, descending: bool, nullsFirst: bool)

  datatype Plan = Plan(where: seq<Tok>, order: OrderBy, params: seq<Bind>, limit: int, sort: ResolvedSort)

  // ---------------------------------------------------------------- list view, limit and sort

  function FindView(views: seq<ListView>, name: string): Option<ListView> {
    if |views| == 0 then None
    else if views[0].name == name then Some(views[0])
    else FindView(views[1..], name)
  }

  function ChosenView(entity: Entity, name: Option<string>): Result<Option<ListView>, PlanError> {
    match name
    case Some(n) =>
      (match FindView(entity.listViews, n) { case Some(v) => Ok(Some(v)) case None => Err(UnknownListView(n)) })
    case None => Ok(if |entity.listViews| > 0 then Some(entity.listViews[0]) else None)
  }

  method ChooseView(entity: Entity, name: Option<string>) returns (r: Result<Option<ListView>, PlanError>)
    ensures r == ChosenView(entity, name)
  {
    if name.None? { return Ok(if |entity.listViews| > 0 then Some(entity.listViews[0]) else None); }
    var i := 0;
    while i < |entity.listViews|
      invariant 0 <= i <= |entity.listViews|
      invariant FindView(entity.listViews, name.value) == FindView(entity.listViews[i..], name.value)
    {
      assert entity.listViews[i..][1..] == entity.listViews[i + 1..];
      if entity.listViews[i].name == name.value { return Ok(Some(entity.listViews[i])); }
      i := i + 1;
    }
    return Err(UnknownListView(name.value));
  }

  function EffectiveLimit(view: Option<ListView>, limit: int): int {
    var most := match view { case Some(v) => v.maxLimit case None => 100 };
    if limit > most then most else limit
  }

  lemma {:induction false} FindsView(views: seq<ListView>, name: string)
    ensures FindView(views, name).None? <==> forall i :: 0 <= i < |views| ==> views[i].name != name
    ensures FindView(views, name).Some? ==>
              exists i :: 0 <= i < |views| && views[i] == FindView(views, name).value && views[i].name == name
                          && forall j :: 0 <= j < i ==> views[j].name != name
    decreases |views|
  {
    if |views| > 0 && views[0].name != name {
      FindsView(views[1..], name);
      if FindView(views, name).Some? {
        var i :| 0 <= i < |views[1..]| && views[1..][i] == FindView(views, name).value
                 && forall j :: 0 <= j < i ==> views[1..][j].name != name;
        assert views[i + 1] == views[1..][i];
        forall j | 0 <= j < i + 1 ensures views[j].name != name { if j > 0 { assert views[j] == views[1..][j - 1]; } }
      }
      forall i | 1 <= i < |views| ensures views[i] == views[1..][i - 1] {}
    }
  }

  /** The first view of the name that is asked for, an error if there is none; without a name the first view, if any. */
  lemma ViewChosenExactly(entity: Entity, name: Option<string>)
    ensures var r, views := ChosenView(entity, name), entity.listViews;
            match name
            case Some(n) =>
              && (r.Err? <==> forall i :: 0 <= i < |views| ==> views[i].name != n)
              && (r.Ok? ==> exists i :: 0 <= i < |views| && r.value == Some(views[i]) && views[i].name == n
                                        && forall j :: 0 <= j < i ==> views[j].name != n)
            case None => r.Ok? && (views == [] ==> r.value == None) && (views != [] ==> r.value == Some(views[0]))
  {
    if name.Some? { FindsView(entity.listViews, name.value); }
  }

  /** What was asked for, but no more than the view allows, or 100 without a view. */
  lemma LimitIsCapped(view: Option<ListView>, limit: int)
    ensures var n, most := EffectiveLimit(view, limit), if view.Some? then view.value.maxLimit else 100;
            n <= limit && n <= most && (n == limit || n == most)
  {
  }

  function OfferedFilters(view: Option<ListView>): set<string> {
    match view { case Some(v) => (set f | f in v.filters) case None => {} }
  }

  method AllowedFilterFields(view: Option<ListView>) returns (allowed: set<string>)
    ensures allowed == OfferedFilters(view)
  {
    allowed := {};
    if view.None? { return; }
    var fs := view.value.filters;
    var i := 0;
    while i < |fs|
      invariant 0 <= i <= |fs|
      invariant allowed == set f | f in fs[..i]
    {
      assert fs[..i + 1] == fs[..i] + [fs[i]];
      allowed := allowed + {fs[i]};
      i := i + 1;
    }
    assert fs[..|fs|] == fs;
  }

  function SortableNames(fields: seq<Field>): set<string> {
    {"createdAt", "updatedAt"} + (set i | 0 <= i < |fields| && fields[i].sortable :: fields[i].name)
  }

  method SortableFields(fields: seq<Field>) returns (names: set<string>)
    ensures names == SortableNames(fields)
  {
    names := {"createdAt", "updatedAt"};
    var i := 0;
    while i < |fields|
      invariant 0 <= i <= |fields|
      invariant names == {"createdAt", "updatedAt"} + (set k | 0 <= k < i && fields[k].sortable :: fields[k].name)
    {
      if fields[i].sortable { names := names + {fields[i].name}; }
      i := i + 1;
    }
  }

  function ParseSort(candidate: Option<string>, sortable: set<string>): Option<ResolvedSort> {
    match candidate
    case None => None
    case Some(c) =>
      var descending := "-" <= c;
      var field := if descending then c[1..] else c;
      if field in sortable then Some(ResolvedSort(field, descending)) else None
  }

  /** A JQL ORDER BY comes before the request's sort, that before the view's default, and newest first is last. */
  function SortFor(
    order: Option<JqlOrder>, sort: Option<string>, view: Option<ListView>, sortable: set<string>): ResolvedSort {
    var wanted :=
      match order
      case Some(o) => Some(if o.descending then "-" + o.field else o.field)
      case None => sort;
    match ParseSort(wanted, sortable)
    case Some(s) => s
    case None =>
      match ParseSort(match view { case Some(v) => v.defaultSort case None => None }, sortable)
      case Some(s) => s
      case None => ResolvedSort("createdAt", true)
  }

  /** A sort text: the field, after a minus sign when descending. */
  function SortText(field: string, descending: bool): string { if descending then "-" + field else field }

  lemma ParsesSort(field: string, descending: bool, sortable: set<string>)
    requires !("-" <= field)
    ensures ParseSort(Some(SortText(field, descending)), sortable)
            == if field in sortable then Some(ResolvedSort(field, descending)) else None
  {
    if descending { assert SortText(field, true)[1..] == field; }
  }

  /** Without a JQL order: a sortable field in the request decides, whatever the view says; an unsortable or absent one
      leaves it to the view's default; and when that is unsortable or absent too, the newest come first. */
  lemma SortWithoutJql(
    sort: Option<(string, bool)>, default: Option<(string, bool)>, view: Option<ListView>, sortable: set<string>)
    requires (sort.Some? ==> !("-" <= sort.value.0)) && (default.Some? ==> !("-" <= default.value.0))
    requires match default
             case Some((f, desc)) => view.Some? && view.value.defaultSort == Some(SortText(f, desc))
             case None => view.None? || view.value.defaultSort.None?
    ensures var asked := match sort { case Some((f, desc)) => Some(SortText(f, desc)) case None => None };
            SortFor(None, asked, view, sortable) ==
            if sort.Some? && sort.value.0 in sortable then ResolvedSort(sort.value.0, sort.value.1)
            else if default.Some? && default.value.0 in sortable then ResolvedSort(default.value.0, default.value.1)
            else ResolvedSort("createdAt", true)
  {
    if sort.Some? { ParsesSort(sort.value.0, sort.value.1, sortable); }
    if default.Some? { ParsesSort(default.value.0, default.value.1, sortable); }
    hide ParseSort, SortText;
    assert ParseSort(None, sortable) == None by { NothingParsed(sortable); }
  }

  lemma NothingParsed(sortable: set<string>)
    ensures ParseSort(None, sortable) == None
  {
  }

  /** The ORDER BY of an accepted JQL text is the sort of the plan. */
  lemma JqlOrderWins(text: string, entity: Entity, ps: seq<Bind>, sort: Option<string>, view: Option<ListView>)
    requires Q.CompileText(text, entity, ps).Ok? && Q.CompileText(text, entity, ps).value.order.Some?
    ensures var o := Q.CompileText(text, entity, ps).value.order.value;
            SortFor(Some(o), sort, view, SortableNames(entity.fields)) == ResolvedSort(o.field, o.descending)
  {
    hide Q.CompileText;
    Q.OrderIsPlain(text, entity, ps);
    var o := Q.CompileText(text, entity, ps).value.order.value;
    if o.descending { assert ("-" + o.field)[1..] == o.field; }
  }

  // ---------------------------------------------------------------- the parts of the WHERE clause

  datatype Body = Body(conditions: seq<seq<Tok>>, order: Option<JqlOrder>, params: seq<Bind>)

  function Optional(part: Option<seq<Tok>>): seq<seq<Tok>> {
    match part { case Some(p) => [p] case None => [] }
  }

  const NOT_DELETED: seq<Tok> := [Word("deleted")] + [Op("=")] + [KFalse]

  function TenantIs(ph: Tok): seq<Tok> { [Word("tenant_id")] + [Op("=")] + [ph] }

  function PolicyPart(
    codec: P.Codec, rows: seq<P.PolicyRow>, ctx: P.Context,
    ps: seq<Bind>): (r: Result<(Option<seq<Tok>>, seq<Bind>), PlanError>)
    ensures r.Ok? ==> ps <= r.value.1
  {
    match W.RecordPolicyWhere(codec, rows, ctx, ps)
    case Err(m) => Err(BadPolicy(m))
    case Ok(None) => Ok((None, ps))
    case Ok(Some(em)) => Ok((Some(em.toks), em.params))
  }

  function JqlPart(jql: Option<string>, entity: Entity, ps: seq<Bind>): (r: Result<Q.Compiled, PlanError>)
    ensures r.Ok? ==> ps <= r.value.params
  {
    match jql
    case None => Ok(Q.Compiled(None, None, ps))
    case Some(text) => (match Q.CompileText(text, entity, ps) { case Err(m) => Err(BadJql(m)) case Ok(c) => Ok(c) })
  }

  /** Everything but the cursor: tenant, not deleted, policies, filters, JQL, in this order. */
  function BodyOf(
    codec: P.Codec, entity: Entity, view: Option<ListView>, tenant: string, input: ListInput, ctx: P.Context,
                  rows: seq<P.PolicyRow>): Result<Body, PlanError>
  {
    match PolicyPart(codec, rows, ctx, [UuidBind(tenant)])
    case Err(m) => Err(m)
    case Ok((policy, ps1)) =>
      var (filters, ps2) := FilterTexts(input.filters, OfferedFilters(view), ByName(entity.fields), ps1);
      match JqlPart(input.jql, entity, ps2)
      case Err(m) => Err(m)
      case Ok(c) =>
        Ok(Body([TenantIs(Dollar(1)), NOT_DELETED] + Optional(policy) + filters + Optional(c.where), c.order, c.params))
  }

  function ResolveCursor(
    codec: P.Codec, sort: ResolvedSort,
    cursor: Option<Option<Cursor>>): Result<Option<(Option<string>, string)>, PlanError> {
    match cursor
    case None => Ok(None)
    case Some(None) => Err(InvalidCursor)
    case Some(Some(c)) =>
      if c.field != sort.field || c.dir != (if sort.descending then Desc else Asc) then Err(InvalidCursor)
      else match codec.uuid(c.id) { case None => Err(InvalidCursor) case Some(id) => Ok(Some((c.value, id))) }
  }

  /** The keyset condition of a cursor that fits the sort, and the parameters it adds. */
  function CursorPart(
    sort: ResolvedSort, s: SortRef, cursor: Option<(Option<string>, string)>): (r: (Option<seq<Tok>>, seq<Bind>))
    ensures s.params <= r.1
  {
    match cursor
    case None => (None, s.params)
    case Some((None, id)) =>
      (Some(CursorCondition(s.toks, sort.descending, None, Dollar(|s.params| + 1))), s.params + [UuidBind(id)])
    case Some((Some(v), id)) =>
      var n := |s.params| + 1;
      (Some(CursorCondition(s.toks, sort.descending, Some([Dollar(n)] + SortSuffix(s.ct)), Dollar(n + 1))),
       s.params + [TextBind(v)] + [UuidBind(id)])
  }

  function FinishPlan(
    codec: P.Codec, entity: Entity, view: Option<ListView>, input: ListInput, body: Body): Result<Plan, PlanError> {
    var sort := SortFor(body.order, input.sort, view, SortableNames(entity.fields));
    var s := SortExpression(sort.field, Declared(ByName(entity.fields), sort.field), body.params);
    match ResolveCursor(codec, sort, input.cursor)
    case Err(m) => Err(m)
    case Ok(cursor) =>
      var (after, ps) := CursorPart(sort, s, cursor);
      Ok(Plan(Join(body.conditions + Optional(after), [KAnd]), OrderBy(s.toks, sort.descending, sort.descending), ps,
              EffectiveLimit(view, input.limit), sort))
  }

  function PlanOf(
    codec: P.Codec, entity: Option<Entity>, input: ListInput, ctx: P.Context,
    rows: seq<P.PolicyRow>): Result<Plan, PlanError> {
    match entity
    case None => Err(EntityNotFound)
    case Some(en) =>
      match S.ScopedTenant(codec, ctx)
      case Err(m) => Err(NoTenant(m))
      case Ok(tenant) =>
        match ChosenView(en, input.listView)
        case Err(m) => Err(m)
        case Ok(view) =>
          match BodyOf(codec, en, view, tenant, input, ctx, rows)
          case Err(m) => Err(m)
          case Ok(body) => FinishPlan(codec, en, view, input, body)
  }

  // ---------------------------------------------------------------- PlanList, step by step

  method AppendBody(
    codec: P.Codec, entity: Entity, view: Option<ListView>, tenant: string, input: ListInput, ctx: P.Context,
                    rows: seq<P.PolicyRow>, params: ParamBuilder)
    returns (r: Result<(seq<seq<Tok>>, Option<JqlOrder>), PlanError>)
    requires params.params == []
    modifies params
    ensures match BodyOf(codec, entity, view, tenant, input, ctx, rows)
            case Err(m) => r == Err(m)
            case Ok(b) => r == Ok((b.conditions, b.order)) && params.params == b.params
  {
    hide W.RecordPolicyWhere, FilterTexts, Q.CompileText, ByName, OfferedFilters;
    var ph := params.Push(UuidBind(tenant));
    assert params.params == [UuidBind(tenant)];
    var conditions := [TenantIs(ph)];
    conditions := conditions + [NOT_DELETED];
    var policy := W.RecordPolicyWhereClause(codec, rows, ctx, params);
    if policy.Err? { return Err(BadPolicy(policy.error)); }
    if policy.value.Some? { conditions := conditions + [policy.value.value]; }
    assert conditions == [TenantIs(Dollar(1)), NOT_DELETED] + Optional(policy.value);
    var allowed := AllowedFilterFields(view);
    var fields := FieldsByName(entity.fields);
    var filters := AppendFilters(input.filters, allowed, fields, params);
    conditions := conditions + filters;
    ghost var soFar := conditions;
    assert soFar + [] == soFar;
    var order: Option<JqlOrder> := None;
    if input.jql.Some? {
      var c := Q.ParseAndCompileJQL(input.jql.value, entity, params);
      if c.Err? { return Err(BadJql(c.error)); }
      if c.value.0.Some? { conditions := conditions + [c.value.0.value]; }
      order := c.value.1;
    }
    return Ok((conditions, order));
  }

  /** The keyset step: a cursor for another sort, or one that does not decode, is an error. */
  method AppendCursor(
    codec: P.Codec, sort: ResolvedSort, key: seq<Tok>, ct: SortCol, cursor: Option<Option<Cursor>>,
    params: ParamBuilder)
    returns (r: Result<Option<seq<Tok>>, PlanError>)
    modifies params
    ensures match ResolveCursor(codec, sort, cursor)
            case Err(m) => r == Err(m)
            case Ok(c) => r.Ok? && (r.value, params.params) == CursorPart(sort, SortRef(key, ct, old(params.params)), c)
  {
    hide CursorCondition;
    if cursor.None? { return Ok(None); }
    if cursor.value.None? { return Err(InvalidCursor); }
    var c := cursor.value.value;
    var want := if sort.descending then Desc else Asc;
    if c.field != sort.field || c.dir != want { return Err(InvalidCursor); }
    var id := codec.uuid(c.id);
    if id.None? { return Err(InvalidCursor); }
    var valuePh: Option<seq<Tok>> := None;
    if c.value.Some? {
      var ph := params.Push(TextBind(c.value.value));
      valuePh := Some([ph] + SortSuffix(ct));
    }
    var idPh := params.Push(UuidBind(id.value));
    return Ok(Some(CursorCondition(key, sort.descending, valuePh, idPh)));
  }

  method PlanList(codec: P.Codec, entity: Option<Entity>, input: ListInput, ctx: P.Context, rows: seq<P.PolicyRow>)
    returns (r: Result<Plan, PlanError>)
    ensures r == PlanOf(codec, entity, input, ctx, rows)
  {
    hide BodyOf, SortExpression, CursorPart, ResolveCursor, Join, ByName, SortFor;
    if entity.None? { return Err(EntityNotFound); }
    var en := entity.value;
    var tenant := S.ScopedTenant(codec, ctx);
    if tenant.Err? { return Err(NoTenant(tenant.error)); }
    var view := ChooseView(en, input.listView);
    if view.Err? { return Err(view.error); }
    var limit := EffectiveLimit(view.value, input.limit);
    var params := new ParamBuilder();
    var body := AppendBody(codec, en, view.value, tenant.value, input, ctx, rows, params);
    if body.Err? { return Err(body.error); }
    var (conditions, order) := body.value;
    var sortable := SortableFields(en.fields);
    var sort := SortFor(order, input.sort, view.value, sortable);
    var fields := FieldsByName(en.fields);
    var key, ct := SortFieldExpression(sort.field, Declared(fields, sort.field), params);
    var after := AppendCursor(codec, sort, key, ct, input.cursor, params);
    if after.Err? { return Err(after.error); }
    conditions := conditions + Optional(after.value);
    return Ok(Plan(Join(conditions, [KAnd]), OrderBy(key, sort.descending, sort.descending), params.params, limit,
      sort));
  }
}
