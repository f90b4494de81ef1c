/** Following nextCursor to the end returns every row of the list once and in order. */
module Pagination {
  import opened Prelude
  import opened Json
  import opened Metadata
  import opened Sql
  import opened SqlReading
  import opened SqlBuilder
  import opened Substring
  import opened SortKeys
  import opened ListFilters
  import opened Planner
  import opened PlanMeaning
  import opened RowOrder
  import P = Permission
  import S = Snapshot

  // ---------------------------------------------------------------- the database's answer

  function ExprOf(toks: seq<Tok>): Expr {
    match ReadWhere(toks) { case Some(e) => e case None => Lit(false) }
  }

  function OrderOf(db: Db, plan: Plan): Order {
    Order(db, row => Eval(ExprOf(plan.order.key), db, row, plan.params), plan.order.descending, plan.order.nullsFirst)
  }

  /** SELECT ... WHERE ... ORDER BY ... */
  function Matching(db: Db, plan: Plan, table: seq<Row>): seq<Row> {
    Listing(OrderOf(db, plan), table, row => Truth(ExprOf(plan.where), db, row, plan.params) == True3)
  }

  function Take<T>(s: seq<T>, n: int): seq<T> { if n <= 0 then [] else if n >= |s| then s else s[..n] }

  /** ... LIMIT limit + 1 */
  function Fetch(db: Db, plan: Plan, table: seq<Row>): (r: seq<Row>)
    ensures plan.limit >= 0 ==> |r| <= plan.limit + 1
  {
    Take(Matching(db, plan, table), plan.limit + 1)
  }

  // ---------------------------------------------------------------- one page

  /** How a stored value is written into a cursor. */
  datatype Formats = Formats(time: Value -> string, float: string -> string, raw: Json -> string)

  /** sortFieldValue: None when the field is unset, which is not the empty string. */
  function SortFieldValue(f: Formats, row: Row, field: string): Option<string> {
    if field == "createdAt" then Some(f.time(ColumnOf(row, "created_at")))
    else if field == "updatedAt" then Some(f.time(ColumnOf(row, "updated_at")))
    else match Lookup(row.data, field)
      case JNull => None
      case JStr(s) => Some(s)
      case JNum(t) => Some(f.float(t))
      case JBool(b) => Some(if b then "true" else "false")
      case j => Some(f.raw(j))
  }

  function IdText(row: Row): string { match IdOf(row) { case Scalar(s) => s case _ => "" } }

  function CursorFor(f: Formats, sort: ResolvedSort, row: Row): Cursor {
    Cursor(sort.field, SortFieldValue(f, row, sort.field), IdText(row), if sort.descending then Desc else Asc)
  }

  datatype Page = Page(rows: seq<Row>, next: Option<Cursor>)

  function PageOf(f: Formats, plan: Plan, fetched: seq<Row>): Page {
    var rows := Take(fetched, plan.limit);
    Page(rows, if |fetched| > plan.limit && |rows| > 0 then Some(CursorFor(f, plan.sort, rows[|rows| - 1])) else None)
  }

  /** List: read the rows, cut the page, and point at its last row when there is more. */
  method ListPage(f: Formats, plan: Plan, fetched: seq<Row>) returns (page: Page)
    requires plan.limit >= 0
    ensures page == PageOf(f, plan, fetched)
  {
    var dtos: seq<Row> := [];
    var i := 0;
    while i < |fetched|
      invariant 0 <= i <= |fetched|
      invariant dtos == fetched[..i]
    {
      dtos := dtos + [fetched[i]];
      i := i + 1;
    }
    assert fetched[..|fetched|] == fetched;
    var hasMore := |dtos| > plan.limit;
    if hasMore { dtos := dtos[..plan.limit]; }
    var next: Option<Cursor> := None;
    if hasMore && |dtos| > 0 { next := Some(CursorFor(f, plan.sort, dtos[|dtos| - 1])); }
    return Page(dtos, next);
  }

  // ---------------------------------------------------------------- when a cursor names its row exactly

  function KeyDef(entity: Entity, sort: ResolvedSort): Option<Field> { Declared(ByName(entity.fields), sort.field) }

  /** The cursor's text, cast as the condition casts it, is the row's sort key. */
  predicate CursorIsExact(f: Formats, entity: Entity, sort: ResolvedSort, db: Db, row: Row) {
    var k := SortKey(entity, sort, db, row);
    match SortFieldValue(f, row, sort.field)
    case None => k == Null
    case Some(t) => k != Null && AsSortType(db, KeyType(sort.field, KeyDef(entity, sort)), Scalar(t)) == k
  }

  /** For a field kept in `data`: exact for every string, boolean and missing value; for a number exactly when
      its reformatted text is the stored text; for a nested value exactly when the raw text is. */
  lemma ExactForData(f: Formats, entity: Entity, sort: ResolvedSort, db: Db, row: Row)
    requires sort.field != "createdAt" && sort.field != "updatedAt"
    requires KeyDef(entity, sort).None? || !HasRealColumn(KeyDef(entity, sort).value)
    ensures CursorIsExact(f, entity, sort, db, row) <==>
            match Lookup(row.data, sort.field)
            case JNum(t) => f.float(t) == t
            case JArr(_) => f.raw(Lookup(row.data, sort.field)) == db.nested(Lookup(row.data, sort.field))
            case JObj(_) => f.raw(Lookup(row.data, sort.field)) == db.nested(Lookup(row.data, sort.field))
            case _ => true
  {
  }

  /** A row whose id is a UUID in its canonical text. */
  predicate HasId(codec: P.Codec, row: Row) { IdOf(row).Scalar? && codec.uuid(IdText(row)) == Some(IdText(row)) }

  // ---------------------------------------------------------------- the plan's order is the list's order

  function ListOrder(entity: Entity, sort: ResolvedSort, db: Db): Order {
    Order(db, row => SortKey(entity, sort, db, row), sort.descending, sort.descending)
  }

  lemma OrderKeyReads(
    codec: P.Codec, entity: Option<Entity>, input: ListInput, ctx: P.Context, rows: seq<P.PolicyRow>, db: Db, row: Row)
    requires PlanOf(codec, entity, input, ctx, rows).Ok?
    ensures var plan := PlanOf(codec, entity, input, ctx, rows).value;
            Eval(ExprOf(plan.order.key), db, row, plan.params) == SortKey(entity.value, plan.sort, db, row)
  {
    hide BodyOf, SortExpression, CursorPart, Join, SortFor, ByName, AsPrimary, AsPredicate, AsCondition, KeyValue, Eval,
      ReadWhere;
    var plan := PlanOf(codec, entity, input, ctx, rows).value;
    var p := PartsOf(codec, entity, input, ctx, rows);
    var body := BodyOf(codec, p.entity, p.view, p.tenant, input, ctx, rows).value;
    var def := KeyDef(p.entity, plan.sort);
    var s := SortExpression(plan.sort.field, def, body.params);
    assert s.params <= plan.params;
    var k := SortExpressionReads(plan.sort.field, def, body.params, db, row, plan.params);
    PrimaryIsPredicate(s.toks, k);
    PredicateIsCondition(s.toks, k);
    ReadsWhole(s.toks, k);
  }

  lemma SameBefore(o: Order, o': Order, a: Row, b: Row)
    requires o.db == o'.db && o.descending == o'.descending && o.nullsFirst == o'.nullsFirst
    requires o.key(a) == o'.key(a) && o.key(b) == o'.key(b)
    ensures Before(o, a, b) == Before(o', a, b)
  {
  }

  lemma {:induction false} SameSort(o: Order, o': Order, s: seq<Row>)
    requires o.db == o'.db && o.descending == o'.descending && o.nullsFirst == o'.nullsFirst
    requires forall x: Row :: o.key(x) == o'.key(x)
    ensures SortRows(o, s) == SortRows(o', s)
    decreases |s|
  {
    if |s| > 0 {
      SameSort(o, o', s[1..]);
      SameInsert(o, o', s[0], SortRows(o, s[1..]));
    }
  }

  lemma {:induction false} SameInsert(o: Order, o': Order, row: Row, s: seq<Row>)
    requires o.db == o'.db && o.descending == o'.descending && o.nullsFirst == o'.nullsFirst
    requires forall x: Row :: o.key(x) == o'.key(x)
    ensures Insert(o, row, s) == Insert(o', row, s)
    decreases |s|
  {
    if |s| > 0 {
      SameBefore(o, o', row, s[0]);
      SameInsert(o, o', row, s[1..]);
    }
  }

  /** What a plan fetches, before the limit: the selected rows in the list's order. */
  lemma MatchingIsListing(
    codec: P.Codec, entity: Option<Entity>, input: ListInput, ctx: P.Context, rows: seq<P.PolicyRow>, db: Db,
    table: seq<Row>, q: Row -> bool)
    requires FoldKeepsMeta(db) && StrictOrder(db) && UniqueIds(table)
    requires PlanOf(codec, entity, input, ctx, rows).Ok?
    requires var plan := PlanOf(codec, entity, input, ctx, rows).value;
             forall row :: row in table ==>
               q(row) == Selected(codec, PartsOf(codec, entity, input, ctx, rows), input, plan.sort, ctx, rows, db, row)
    ensures var plan := PlanOf(codec, entity, input, ctx, rows).value;
            Matching(db, plan, table) == Listing(ListOrder(entity.value, plan.sort, db), table, q)
  {
    hide PlanOf, PartsOf, Selected, StrictOrder, ReadWhere, Eval, Truth;
    var plan := PlanOf(codec, entity, input, ctx, rows).value;
    OrderOfPlan(codec, entity, input, ctx, rows);
    var o, o' := OrderOf(db, plan), ListOrder(entity.value, plan.sort, db);
    var p: Row -> bool := row => Truth(ExprOf(plan.where), db, row, plan.params) == True3;
    forall row
      ensures p(row) == Selected(codec, PartsOf(codec, entity, input, ctx, rows), input, plan.sort, ctx, rows, db, row)
    {
      var e := PlanSelects(codec, entity, input, ctx, rows, db, row);
    }
    forall row: Row ensures o.key(row) == o'.key(row) {
      OrderKeyReads(codec, entity, input, ctx, rows, db, row);
    }
    SameListing(o, table, p, q);
    SameSort(o, o', S.Keep(table, q));
  }

  lemma OrderOfPlan(codec: P.Codec, entity: Option<Entity>, input: ListInput, ctx: P.Context, rows: seq<P.PolicyRow>)
    requires PlanOf(codec, entity, input, ctx, rows).Ok?
    ensures entity.Some?
    ensures var plan := PlanOf(codec, entity, input, ctx, rows).value;
            plan.order.descending == plan.sort.descending && plan.order.nullsFirst == plan.sort.descending
  {
    hide BodyOf, SortExpression, CursorPart, Join, SortFor, ByName;
  }

  // ---------------------------------------------------------------- a request and its next pages

  datatype Request = Request(codec: P.Codec, entity: Entity, input: ListInput, ctx: P.Context, rows: seq<P.PolicyRow>)

  function PlanFor(r: Request, cursor: Option<Cursor>): Result<Plan, PlanError> {
    PlanOf(r.codec, Some(r.entity),
      r.input.(cursor := match cursor { case Some(c) => Some(Some(c)) case None => None }), r.ctx, r.rows)
  }

  /** The list itself: every row of the caller's tenant that is not deleted and passes policies, filters and JQL. */
  predicate Listed(r: Request, db: Db, row: Row)
    requires PlanFor(r, None).Ok?
  {
    BelongsToList(r.codec, r.entity, ChosenView(r.entity, r.input.listView).value, S.ScopedTenant(r.codec, r.ctx).value,
      r.input, r.ctx, r.rows, db, row)
  }

  function WholeList(r: Request, db: Db, table: seq<Row>): seq<Row>
    requires PlanFor(r, None).Ok?
  {
    Listing(ListOrder(r.entity, PlanFor(r, None).value.sort, db), table, row => Listed(r, db, row))
  }

  /** What every request needs of the table: a total order of values and unique canonical ids. */
  ghost predicate Walkable(r: Request, db: Db, table: seq<Row>) {
    && FoldKeepsMeta(db) && StrictOrder(db) && UniqueIds(table)
    && forall row :: row in table ==> HasId(r.codec, row)
  }

  /** The rows after the cursor of `at`, as the keyset condition sees them. */
  predicate AfterCursorOf(f: Formats, entity: Entity, sort: ResolvedSort, db: Db, at: Row, row: Row) {
    AfterCursor(entity, sort, Some((SortFieldValue(f, at, sort.field), IdText(at))), db, row)
  }

  /** On the rows of the list, the cursor of the row before position `n` selects exactly those that follow it. */
  ghost predicate Passes(r: Request, f: Formats, db: Db, table: seq<Row>, n: nat)
    requires PlanFor(r, None).Ok? && 0 < n <= |WholeList(r, db, table)|
  {
    var sort, all := PlanFor(r, None).value.sort, WholeList(r, db, table);
    forall x :: x in all ==>
      (AfterCursorOf(f, r.entity, sort, db, all[n - 1], x) <==> Before(ListOrder(r.entity, sort, db), all[n - 1], x))
  }

  /** `n` rows fill a number of pages. */
  predicate WholePages(n: int, limit: int)
    requires limit >= 1
  {
    if n <= 0 then n == 0 else WholePages(n - limit, limit)
  }

  /** The same at the end of every page but the last: nothing is asked of any other row. */
  ghost predicate PageEndsPass(r: Request, f: Formats, db: Db, table: seq<Row>)
    requires PlanFor(r, None).Ok? && PlanFor(r, None).value.limit >= 1
  {
    forall n :: 0 < n < |WholeList(r, db, table)| && WholePages(n, PlanFor(r, None).value.limit) ==>
      Passes(r, f, db, table, n)
  }

  /** The whole list holds exactly the listed rows of the table, each once, in ORDER BY order. */
  lemma WholeListIsExact(r: Request, db: Db, table: seq<Row>)
    requires PlanFor(r, None).Ok? && StrictOrder(db) && UniqueIds(table)
    ensures var all := WholeList(r, db, table);
            && Sorted(ListOrder(r.entity, PlanFor(r, None).value.sort, db), all)
            && (forall row :: row in all <==> row in table && Listed(r, db, row))
            && (forall i, j :: 0 <= i < j < |all| ==> all[i] != all[j])
  {
    hide PlanFor, Listed, Listing, Before;
    var o := ListOrder(r.entity, PlanFor(r, None).value.sort, db);
    var p: Row -> bool := row => Listed(r, db, row);
    ListingIsSorted(o, table, p);
    var all := WholeList(r, db, table);
    assert all == Listing(o, table, p);
    forall i, j | 0 <= i < j < |all| ensures all[i] != all[j] {
      BeforeIsIrreflexive(o, all[i]);
    }
  }

  /** A request with the cursor of one of its rows plans like the request itself, plus the cursor. */
  lemma PlanAtCursor(r: Request, f: Formats, row: Row)
    requires PlanFor(r, None).Ok? && HasId(r.codec, row)
    ensures var sort := PlanFor(r, None).value.sort;
            var next := PlanFor(r, Some(CursorFor(f, sort, row)));
            && next.Ok? && next.value.sort == sort && next.value.limit == PlanFor(r, None).value.limit
            && PartsOf(r.codec, Some(r.entity), r.input.(cursor := Some(Some(CursorFor(f, sort, row)))), r.ctx, r.rows)
               == Planned(r.entity, ChosenView(r.entity, r.input.listView).value, S.ScopedTenant(r.codec, r.ctx).value,
                          Some((SortFieldValue(f, row, sort.field), IdText(row))))
  {
    hide SortExpression, Join, SortFor, ByName, PolicyPart, JqlPart, FilterTexts, CursorCondition, EffectiveLimit;
    var sort := PlanFor(r, None).value.sort;
    var input := r.input.(cursor := Some(Some(CursorFor(f, sort, row))));
    var view, tenant := ChosenView(r.entity, r.input.listView).value, S.ScopedTenant(r.codec, r.ctx).value;
    assert BodyOf(r.codec, r.entity, view, tenant, input, r.ctx, r.rows)
        == BodyOf(r.codec, r.entity, view, tenant, r.input.(cursor := None), r.ctx, r.rows);
    assert ResolveCursor(r.codec, sort, input.cursor) == Ok(Some((SortFieldValue(f, row, sort.field), IdText(row))));
  }

  /** The keyset condition of an exact cursor holds exactly for the rows that come after its row. */
  lemma AfterItsCursor(codec: P.Codec, f: Formats, entity: Entity, sort: ResolvedSort, db: Db, at: Row, row: Row)
    requires HasId(codec, at) && HasId(codec, row) && CursorIsExact(f, entity, sort, db, at)
    ensures AfterCursorOf(f, entity, sort, db, at, row) <==> Before(ListOrder(entity, sort, db), at, row)
  {
    hide KeyValue, ByName, CursorTruth, SortFieldValue;
    var k := SortKey(entity, sort, db, at);
    CursorTruthIsAfter(db, sort.descending, SortKey(entity, sort, db, row), IdOf(row), k, IdOf(at));
  }

  lemma ExactCursorPasses(r: Request, f: Formats, db: Db, table: seq<Row>, n: nat)
    requires PlanFor(r, None).Ok? && Walkable(r, db, table) && 0 < n <= |WholeList(r, db, table)|
    requires CursorIsExact(f, r.entity, PlanFor(r, None).value.sort, db, WholeList(r, db, table)[n - 1])
    ensures Passes(r, f, db, table, n)
  {
    hide PlanFor, Listing, StrictOrder, CursorIsExact, Before, HasId, AfterCursorOf, Listed;
    var sort, all := PlanFor(r, None).value.sort, WholeList(r, db, table);
    ListingIsSorted(ListOrder(r.entity, sort, db), table, row => Listed(r, db, row));
    forall x | x in all
      ensures AfterCursorOf(f, r.entity, sort, db, all[n - 1], x) <==>
              Before(ListOrder(r.entity, sort, db), all[n - 1], x)
    {
      AfterItsCursor(r.codec, f, r.entity, sort, db, all[n - 1], x);
    }
  }

  lemma FirstFetch(r: Request, db: Db, table: seq<Row>)
    requires PlanFor(r, None).Ok? && Walkable(r, db, table)
    ensures Matching(db, PlanFor(r, None).value, table) == WholeList(r, db, table)
  {
    hide PlanOf, BelongsToList, Listing, Matching, StrictOrder, CursorIsExact;
    var input := r.input.(cursor := None);
    var q: Row -> bool := row => Listed(r, db, row);
    forall row | row in table
      ensures q(row)
              == Selected(r.codec, PartsOf(r.codec, Some(r.entity), input, r.ctx, r.rows), input,
                PlanFor(r, None).value.sort, r.ctx, r.rows, db, row)
    {
      SameInList(r, None, db, row);
    }
    MatchingIsListing(r.codec, Some(r.entity), input, r.ctx, r.rows, db, table, q);
    assert Matching(db, PlanFor(r, None).value, table)
      == Listing(ListOrder(r.entity, PlanFor(r, None).value.sort, db), table, q);
  }

  /** The cursor plays no part in which rows are in the list. */
  lemma SameInList(r: Request, cursor: Option<Option<Cursor>>, db: Db, row: Row)
    requires PlanFor(r, None).Ok?
    ensures BelongsToList(r.codec, r.entity, ChosenView(r.entity, r.input.listView).value,
            S.ScopedTenant(r.codec, r.ctx).value,
                   r.input.(cursor := cursor), r.ctx, r.rows, db, row)
            == Listed(r, db, row)
  {
    hide PlanFor, PassesFilters;
  }

  /** What the request with the cursor of row `k` fetches: the listed rows its keyset condition selects. */
  lemma FetchAfter(r: Request, f: Formats, db: Db, table: seq<Row>, at: Row, q: Row -> bool)
    requires PlanFor(r, None).Ok? && Walkable(r, db, table) && at in table
    requires forall row :: row in table ==>
               q(row) == (Listed(r, db, row) && AfterCursorOf(f, r.entity, PlanFor(r, None).value.sort, db, at, row))
    ensures var sort := PlanFor(r, None).value.sort;
            var next := PlanFor(r, Some(CursorFor(f, sort, at)));
            && next.Ok? && next.value.limit == PlanFor(r, None).value.limit && next.value.sort == sort
            && Matching(db, next.value, table) == Listing(ListOrder(r.entity, sort, db), table, q)
  {
    hide PlanOf, PartsOf, BelongsToList, Listing, Matching, StrictOrder, HasId, AfterCursor;
    var sort := PlanFor(r, None).value.sort;
    PlanAtCursor(r, f, at);
    var input := r.input.(cursor := Some(Some(CursorFor(f, sort, at))));
    var parts := PartsOf(r.codec, Some(r.entity), input, r.ctx, r.rows);
    forall row | row in table ensures q(row) == Selected(r.codec, parts, input, sort, r.ctx, r.rows, db, row) {
      SameInList(r, input.cursor, db, row);
    }
    MatchingIsListing(r.codec, Some(r.entity), input, r.ctx, r.rows, db, table, q);
  }

  /** The request with the cursor of row `k` fetches the list from row `k + 1` on if and only if that cursor passes. */
  lemma NextFetch(r: Request, f: Formats, db: Db, table: seq<Row>, k: nat)
    requires PlanFor(r, None).Ok? && Walkable(r, db, table) && k < |WholeList(r, db, table)|
    ensures var all := WholeList(r, db, table);
            var next := PlanFor(r, Some(CursorFor(f, PlanFor(r, None).value.sort, all[k])));
            && next.Ok? && next.value.limit == PlanFor(r, None).value.limit
            && next.value.sort == PlanFor(r, None).value.sort
            && (Matching(db, next.value, table) == all[k + 1..] <==> Passes(r, f, db, table, k + 1))
  {
    hide PlanFor, Listed, Listing, Matching, StrictOrder, Before, HasId, AfterCursorOf;
    var sort, all := PlanFor(r, None).value.sort, WholeList(r, db, table);
    var o := ListOrder(r.entity, sort, db);
    var p: Row -> bool := row => Listed(r, db, row);
    ListingIsSorted(o, table, p);
    var at := all[k];
    var q: Row -> bool := row => Listed(r, db, row) && AfterCursorOf(f, r.entity, sort, db, at, row);
    FetchAfter(r, f, db, table, at, q);
    if Passes(r, f, db, table, k + 1) {
      AfterIsTail(o, table, p, k, q);
    } else {
      ListingIsSorted(o, table, q);
      forall x ensures x in all[k + 1..] <==> x in all && Before(o, at, x) { TailHas(o, all, k, x); }
    }
  }

  // ---------------------------------------------------------------- the walk

  /** The cursor of a page boundary: none at the start, else that of the last row already seen. */
  function CursorAt(r: Request, f: Formats, all: seq<Row>, n: nat): Option<Cursor>
    requires PlanFor(r, None).Ok? && n <= |all|
  {
    if n == 0 then None else Some(CursorFor(f, PlanFor(r, None).value.sort, all[n - 1]))
  }

  lemma FetchAt(r: Request, f: Formats, db: Db, table: seq<Row>, n: nat)
    requires PlanFor(r, None).Ok? && Walkable(r, db, table) && n <= |WholeList(r, db, table)|
    requires n > 0 ==> Passes(r, f, db, table, n)
    ensures var planned := PlanFor(r, CursorAt(r, f, WholeList(r, db, table), n));
            && planned.Ok? && planned.value.limit == PlanFor(r, None).value.limit
            && planned.value.sort == PlanFor(r, None).value.sort
            && Matching(db, planned.value, table) == WholeList(r, db, table)[n..]
  {
    hide PlanFor, Walkable, WholeList, Matching, Passes;
    if n == 0 {
      FirstFetch(r, db, table);
      assert WholeList(r, db, table)[0..] == WholeList(r, db, table);
    } else {
      NextFetch(r, f, db, table, n - 1);
    }
  }

  method PlanPage(r: Request, cursor: Option<Cursor>) returns (planned: Result<Plan, PlanError>)
    ensures planned == PlanFor(r, cursor)
  {
    hide PlanOf;
    var input := r.input.(cursor := match cursor { case Some(c) => Some(Some(c)) case None => None });
    planned := PlanList(r.codec, Some(r.entity), input, r.ctx, r.rows);
  }

  /** The page a request returns. */
  function PageAt(r: Request, f: Formats, db: Db, table: seq<Row>, cursor: Option<Cursor>): Page {
    match PlanFor(r, cursor)
    case Ok(plan) => PageOf(f, plan, Fetch(db, plan, table))
    case Err(_) => Page([], None)
  }

  /** A boundary that passes: the page is the next slice of the list. */
  lemma GoodPage(r: Request, f: Formats, db: Db, table: seq<Row>, n: nat)
    requires PlanFor(r, None).Ok? && Walkable(r, db, table) && PlanFor(r, None).value.limit >= 1
             && n <= |WholeList(r, db, table)|
    requires n > 0 ==> Passes(r, f, db, table, n)
    ensures var all, limit := WholeList(r, db, table), PlanFor(r, None).value.limit;
            var page := PageAt(r, f, db, table, CursorAt(r, f, all, n));
            && page.rows == Take(all[n..], limit) && (page.next.Some? <==> n + limit < |all|)
            && (page.next.Some? ==> |page.rows| == limit && page.next == CursorAt(r, f, all, n + limit))
  {
    hide PlanFor, Walkable, WholeList, Matching, Passes, CursorFor;
    FetchAt(r, f, db, table, n);
    PageIsSlice(f, PlanFor(r, CursorAt(r, f, WholeList(r, db, table), n)).value, WholeList(r, db, table)[n..]);
  }

  /** One request of the walk, from a page boundary. */
  method RequestPage(
    r: Request, f: Formats, db: Db, table: seq<Row>, cursor: Option<Cursor>, ghost n: nat)
      returns (page: Page)
    requires PlanFor(r, None).Ok? && Walkable(r, db, table) && PlanFor(r, None).value.limit >= 1
    requires n <= |WholeList(r, db, table)| && cursor == CursorAt(r, f, WholeList(r, db, table), n)
    requires n > 0 ==> Passes(r, f, db, table, n)
    ensures page.rows == Take(WholeList(r, db, table)[n..], PlanFor(r, None).value.limit)
    ensures n + |page.rows| <= |WholeList(r, db, table)|
    ensures page.next.Some? <==> n + |page.rows| < |WholeList(r, db, table)|
    ensures page.next.Some? ==> |page.rows| > 0 && page.next == CursorAt(r, f, WholeList(r, db, table), n + |page.rows|)
  {
    hide PlanOf, PlanFor, Walkable, WholeList, Matching, Passes;
    FetchAt(r, f, db, table, n);
    GoodPage(r, f, db, table, n);
    var planned := PlanPage(r, cursor);
    page := ListPage(f, planned.value, Fetch(db, planned.value, table));
  }

  /** Request page after page until no next cursor comes back: the pages, put together, are the whole list,
      each row once and in order. */
  method WalkPages(r: Request, f: Formats, db: Db, table: seq<Row>) returns (out: seq<Row>)
    requires PlanFor(r, None).Ok? && Walkable(r, db, table) && PlanFor(r, None).value.limit >= 1
    requires PageEndsPass(r, f, db, table)
    ensures out == WholeList(r, db, table)
  {
    hide PlanFor, Walkable, WholeList, CursorFor, Passes;
    ghost var all := WholeList(r, db, table);
    out := [];
    var cursor: Option<Cursor> := None;
    var more := true;
    while more
      invariant |out| <= |all| && out == all[..|out|]
      invariant !more ==> out == all
      invariant more ==> cursor == CursorAt(r, f, all, |out|)
      invariant more ==> WholePages(|out|, PlanFor(r, None).value.limit) && (|out| == 0 || |out| < |all|)
      decreases more, |all| - |out|
    {
      ghost var n := |out|;
      var page := RequestPage(r, f, db, table, cursor, n);
      SliceStep(all, n, page.rows, PlanFor(r, None).value.limit);
      out := out + page.rows;
      cursor := page.next;
      more := page.next.Some?;
    }
  }

  lemma SliceStep(all: seq<Row>, n: nat, rows: seq<Row>, limit: int)
    requires n <= |all| && rows == Take(all[n..], limit)
    ensures n + |rows| <= |all| && all[..n] + rows == all[..n + |rows|]
  {
  }

  lemma PageIsSlice(f: Formats, plan: Plan, rest: seq<Row>)
    requires plan.limit >= 1
    ensures var page := PageOf(f, plan, Take(rest, plan.limit + 1));
            && page.rows == Take(rest, plan.limit)
            && (page.next.Some? <==> |rest| > plan.limit)
            && (page.next.Some? ==>
               |page.rows| > 0 && page.next == Some(CursorFor(f, plan.sort, page.rows[|page.rows| - 1])))
  {
    if |rest| > plan.limit {
      assert Take(Take(rest, plan.limit + 1), plan.limit) == rest[..plan.limit];
    }
  }

  /** With an effective limit of 0 the list looks empty: no row and no cursor, whatever there is. */
  lemma LimitZeroShowsNothing(f: Formats, plan: Plan, fetched: seq<Row>)
    requires plan.limit == 0
    ensures PageOf(f, plan, fetched) == Page([], None)
  {
  }
}
