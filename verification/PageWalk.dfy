/** When a cursor, and a whole walk, is right: exact conditions, and what goes wrong otherwise. */
module PageWalk {
  import opened Prelude
  import opened Json
  import opened Metadata
  import opened Sql
  import opened SortKeys
  import opened ListFilters
  import opened Planner
  import opened PlanMeaning
  import opened RowOrder
  import opened Pagination
  import P = Permission

  // ---------------------------------------------------------------- one cursor, against every possible row

  predicate InColumn(entity: Entity, sort: ResolvedSort) {
    sort.field == "createdAt" || sort.field == "updatedAt"
      || (KeyDef(entity, sort).Some? && HasRealColumn(KeyDef(entity, sort).value))
  }

  function ColumnName(sort: ResolvedSort): string {
    if sort.field == "createdAt" then "created_at" else if sort.field == "updatedAt" then "updated_at" else sort.field
  }

  function JsonOf(v: Value): Json {
    match v { case Null => JNull case Bool(b) => JBool(b) case Scalar(s) => JStr(s) }
  }

  /** The same row with another sort key. */
  function WithKey(entity: Entity, sort: ResolvedSort, row: Row, v: Value): Row {
    if InColumn(entity, sort) then row.(cols := row.cols[ColumnName(sort) := v])
      else row.(data := row.data[sort.field := JsonOf(v)])
  }

  lemma KeyOfWithKey(entity: Entity, sort: ResolvedSort, db: Db, row: Row, v: Value)
    requires InColumn(entity, sort) ==> sort.field != "id"
    requires InColumn(entity, sort) || v.Scalar? || v == Null
    ensures SortKey(entity, sort, db, WithKey(entity, sort, row, v)) == v
    ensures IdOf(WithKey(entity, sort, row, v)) == IdOf(row)
  {
    hide ByName;
    assert KeyDef(entity, sort).Some? ==> KeyDef(entity, sort).value.name == sort.field;
  }

  /** The key the keyset condition compares with. */
  function CursorValue(f: Formats, entity: Entity, sort: ResolvedSort, db: Db, at: Row): Value {
    match CursorKey(entity, sort, SortFieldValue(f, at, sort.field), db) { case Some(v) => v case None => Null }
  }

  /** A cast of a text is not NULL. */
  ghost predicate CastsKeepText(db: Db) { forall ty: string, t: string :: db.cast(ty, Scalar(t)) != Null }

  lemma CursorValueKind(f: Formats, entity: Entity, sort: ResolvedSort, db: Db, at: Row)
    requires CastsKeepText(db)
    ensures var v := CursorValue(f, entity, sort, db, at);
            && (v == Null <==> SortFieldValue(f, at, sort.field).None?)
            && (!InColumn(entity, sort) ==> v.Scalar? || v == Null)
            && (CursorIsExact(f, entity, sort, db, at) <==> v == SortKey(entity, sort, db, at))
            && CursorKey(entity, sort, SortFieldValue(f, at, sort.field), db) == (if v == Null then None else Some(v))
  {
    hide ByName, KeyValue, SortFieldValue;
  }

  lemma CursorSelects(codec: P.Codec, f: Formats, entity: Entity, sort: ResolvedSort, db: Db, at: Row, x: Row)
    requires CastsKeepText(db) && HasId(codec, at) && IdOf(x).Scalar?
    ensures AfterCursorOf(f, entity, sort, db, at, x)
            <==> Precedes(db, sort.descending, CursorValue(f, entity, sort, db, at), IdOf(at),
              SortKey(entity, sort, db, x), IdOf(x))
  {
    hide ByName, KeyValue, SortFieldValue, CursorTruth, Precedes;
    CursorValueKind(f, entity, sort, db, at);
    CursorTruthIsAfter(db, sort.descending, SortKey(entity, sort, db, x), IdOf(x), CursorValue(f, entity, sort, db, at),
      IdOf(at));
  }

  /** A row the keyset condition gets wrong: the cursor's own row, or one that carries the cursor's text as its key. */
  function Witness(f: Formats, entity: Entity, sort: ResolvedSort, db: Db, at: Row): Row {
    var v := CursorValue(f, entity, sort, db, at);
    if KeyBefore(db, sort.descending, v, SortKey(entity, sort, db, at)) then at else WithKey(entity, sort, at, v)
  }

  /** The keyset condition of a row's cursor selects exactly the rows after it, among all rows there could be, if and
      only if the cursor is exact. */
  lemma KeysetIsExact(codec: P.Codec, f: Formats, entity: Entity, sort: ResolvedSort, db: Db, at: Row)
    requires StrictOrder(db) && CastsKeepText(db) && HasId(codec, at) && (InColumn(entity, sort) ==> sort.field != "id")
    ensures (forall x :: HasId(codec, x) ==>
            (AfterCursorOf(f, entity, sort, db, at, x) <==> Before(ListOrder(entity, sort, db), at, x)))
            <==> CursorIsExact(f, entity, sort, db, at)
  {
    hide ByName, KeyValue, SortFieldValue, AfterCursor, CursorIsExact, StrictOrder, Before, SortKey, CursorValue,
      WithKey;
    if CursorIsExact(f, entity, sort, db, at) {
      forall x | HasId(codec, x)
        ensures AfterCursorOf(f, entity, sort, db, at, x) <==> Before(ListOrder(entity, sort, db), at, x)
      {
        AfterItsCursor(codec, f, entity, sort, db, at, x);
      }
    } else {
      var x := Witness(f, entity, sort, db, at);
      InexactCursorErrs(codec, f, entity, sort, db, at);
    }
  }

  lemma BeforeIsPrecedes(entity: Entity, sort: ResolvedSort, db: Db, a: Row, b: Row)
    ensures Before(ListOrder(entity, sort, db), a, b)
            <==> Precedes(db, sort.descending, SortKey(entity, sort, db, a), IdOf(a), SortKey(entity, sort, db, b),
              IdOf(b))
  {
    hide ByName, KeyValue;
  }

  lemma InexactCursorErrs(codec: P.Codec, f: Formats, entity: Entity, sort: ResolvedSort, db: Db, at: Row)
    requires StrictOrder(db) && CastsKeepText(db) && HasId(codec, at) && (InColumn(entity, sort) ==> sort.field != "id")
    requires !CursorIsExact(f, entity, sort, db, at)
    ensures var x := Witness(f, entity, sort, db, at);
            HasId(codec, x) && AfterCursorOf(f, entity, sort, db, at, x) != Before(ListOrder(entity, sort, db), at, x)
  {
    hide ByName, KeyValue, SortFieldValue, AfterCursor, CursorIsExact, Before, SortKey, CursorValue, WithKey, InColumn;
    var v, k := CursorValue(f, entity, sort, db, at), SortKey(entity, sort, db, at);
    CursorValueKind(f, entity, sort, db, at);
    var x := Witness(f, entity, sort, db, at);
    if !KeyBefore(db, sort.descending, v, k) { KeyOfWithKey(entity, sort, db, at, v); }
    CursorSelects(codec, f, entity, sort, db, at, x);
    BeforeIsPrecedes(entity, sort, db, at, x);
    assert db.less(v, k) || db.less(k, v) || v == k;
    assert !db.less(IdOf(at), IdOf(at)) && !db.less(k, k) && !db.less(v, v);
  }

  // ---------------------------------------------------------------- numbers

  /** A number kept in `data` whose reformatted text sorts before the stored text, as 1 does before 1.0: ascending,
      the request with the cursor of its row returns that row again. */
  lemma NumberComesBack(r: Request, f: Formats, db: Db, table: seq<Row>, k: nat, t: string)
    requires PlanFor(r, None).Ok? && Walkable(r, db, table) && k < |WholeList(r, db, table)|
    requires var sort := PlanFor(r, None).value.sort;
             !InColumn(r.entity, sort) && !sort.descending
               && Lookup(WholeList(r, db, table)[k].data, sort.field) == JNum(t)
    requires db.less(Scalar(f.float(t)), Scalar(t))
    ensures var at := WholeList(r, db, table)[k];
            var next := PlanFor(r, Some(CursorFor(f, PlanFor(r, None).value.sort, at)));
            next.Ok? && at in Matching(db, next.value, table)
  {
    hide PlanFor, Listed, Listing, StrictOrder, HasId, ByName, Matching;
    var sort, all := PlanFor(r, None).value.sort, WholeList(r, db, table);
    var o, at := ListOrder(r.entity, sort, db), all[k];
    ListingIsSorted(o, table, row => Listed(r, db, row));
    var q: Row -> bool := row => Listed(r, db, row) && AfterCursorOf(f, r.entity, sort, db, at, row);
    FetchAfter(r, f, db, table, at, q);
    ListingIsSorted(o, table, q);
  }

  /** When the reformatted text sorts after the stored one, a row with the same number and a larger id is never
      shown: it comes after the cursor's row and the next request leaves it out. */
  lemma NumberHidesItsTwins(r: Request, f: Formats, db: Db, table: seq<Row>, k: nat, t: string, twin: Row)
    requires PlanFor(r, None).Ok? && Walkable(r, db, table) && k < |WholeList(r, db, table)|
             && twin in WholeList(r, db, table)
    requires var sort := PlanFor(r, None).value.sort;
             && !InColumn(r.entity, sort) && !sort.descending
             && Lookup(WholeList(r, db, table)[k].data, sort.field) == JNum(t)
             && Lookup(twin.data, sort.field) == JNum(t)
    requires db.less(Scalar(t), Scalar(f.float(t))) && db.less(IdOf(WholeList(r, db, table)[k]), IdOf(twin))
    ensures var at := WholeList(r, db, table)[k];
            var next := PlanFor(r, Some(CursorFor(f, PlanFor(r, None).value.sort, at)));
            && next.Ok? && twin !in Matching(db, next.value, table)
            && Before(ListOrder(r.entity, PlanFor(r, None).value.sort, db), at, twin)
  {
    hide PlanFor, Listed, Listing, HasId, ByName, Matching;
    var sort, all := PlanFor(r, None).value.sort, WholeList(r, db, table);
    var o, at := ListOrder(r.entity, sort, db), all[k];
    ListingIsSorted(o, table, row => Listed(r, db, row));
    var q: Row -> bool := row => Listed(r, db, row) && AfterCursorOf(f, r.entity, sort, db, at, row);
    FetchAfter(r, f, db, table, at, q);
    ListingIsSorted(o, table, q);
    assert !db.less(Scalar(t), Scalar(t));
    assert Scalar(t) != Scalar(f.float(t));
  }

  // ---------------------------------------------------------------- a whole walk

  /** Each page is requested with the cursor of the one before, and the last has none. */
  ghost predicate IsWalk(r: Request, f: Formats, db: Db, table: seq<Row>, start: Option<Cursor>, pages: seq<Page>)
    decreases |pages|
  {
    && |pages| > 0 && pages[0] == PageAt(r, f, db, table, start)
    && if pages[0].next.Some? then IsWalk(r, f, db, table, pages[0].next, pages[1..]) else |pages| == 1
  }

  function RowsOf(pages: seq<Page>): seq<Row> {
    if |pages| == 0 then [] else pages[0].rows + RowsOf(pages[1..])
  }

  /** What a cursor selects is closed upwards, so a boundary that does not pass starts its page at the wrong row. */
  lemma BadPage(r: Request, f: Formats, db: Db, table: seq<Row>, n: nat)
    requires PlanFor(r, None).Ok? && Walkable(r, db, table) && CastsKeepText(db) && PlanFor(r, None).value.limit >= 1
    requires 0 < n < |WholeList(r, db, table)| && !Passes(r, f, db, table, n)
    ensures var all := WholeList(r, db, table);
            var page := PageAt(r, f, db, table, CursorAt(r, f, all, n));
            (page.rows == [] && page.next.None?) || (|page.rows| > 0 && page.rows[0] != all[n])
  {
    hide PlanFor, Listed, Listing, Matching, StrictOrder, Before, AfterCursorOf, CursorFor;
    var sort, all := PlanFor(r, None).value.sort, WholeList(r, db, table);
    var o, at := ListOrder(r.entity, sort, db), all[n - 1];
    var p: Row -> bool := row => Listed(r, db, row);
    ListingIsSorted(o, table, p);
    var q: Row -> bool := row => Listed(r, db, row) && AfterCursorOf(f, r.entity, sort, db, at, row);
    FetchAfter(r, f, db, table, at, q);
    ListingIsSorted(o, table, q);
    var rest := Listing(o, table, q);
    if |rest| > 0 && rest[0] == all[n] {
      forall x | x in all ensures AfterCursorOf(f, r.entity, sort, db, at, x) <==> Before(o, at, x) {
        StartsRight(r, f, db, table, n, rest, x);
      }
    }
  }

  lemma StartsRight(r: Request, f: Formats, db: Db, table: seq<Row>, n: nat, rest: seq<Row>, x: Row)
    requires PlanFor(r, None).Ok? && Walkable(r, db, table) && CastsKeepText(db) && 0 < n < |WholeList(r, db, table)|
    requires x in WholeList(r, db, table)
    requires var sort, all := PlanFor(r, None).value.sort, WholeList(r, db, table);
             && |rest| > 0 && rest[0] == all[n] && Sorted(ListOrder(r.entity, sort, db), rest)
             && forall y :: y in rest <==> y in all && AfterCursorOf(f, r.entity, sort, db, all[n - 1], y)
    ensures var sort, all := PlanFor(r, None).value.sort, WholeList(r, db, table);
            AfterCursorOf(f, r.entity, sort, db, all[n - 1], x) <==>
              Before(ListOrder(r.entity, sort, db), all[n - 1], x)
  {
    hide PlanFor, Listed, Listing, StrictOrder, Before, AfterCursorOf;
    var sort, all := PlanFor(r, None).value.sort, WholeList(r, db, table);
    var o := ListOrder(r.entity, sort, db);
    ListingIsSorted(o, table, row => Listed(r, db, row));
    TailHas(o, all, n - 1, x);
    assert rest[0] in rest;
    if AfterCursorOf(f, r.entity, sort, db, all[n - 1], x) {
      var j :| 0 <= j < |rest| && rest[j] == x;
      if j == 0 {
        assert all[n - 1 + 1..][0] == x;
      } else {
        BeforeIsTransitive(o, all[n - 1], all[n], x);
      }
    } else if x in all[n - 1 + 1..] {
      var j :| 0 <= j < |all[n - 1 + 1..]| && all[n - 1 + 1..][j] == x;
      assert all[n + j] == x;
      SelectionIsUpward(r.codec, f, r.entity, sort, db, all[n - 1], all[n], x);
    }
  }

  lemma SelectionIsUpward(
    codec: P.Codec, f: Formats, entity: Entity, sort: ResolvedSort, db: Db, at: Row, x: Row, y: Row)
    requires StrictOrder(db) && CastsKeepText(db) && HasId(codec, at) && HasId(codec, x) && HasId(codec, y)
    requires AfterCursorOf(f, entity, sort, db, at, x) && (x == y || Before(ListOrder(entity, sort, db), x, y))
    ensures AfterCursorOf(f, entity, sort, db, at, y)
  {
    hide AfterCursorOf, Before, SortKey, CursorValue;
    CursorSelects(codec, f, entity, sort, db, at, x);
    CursorSelects(codec, f, entity, sort, db, at, y);
    BeforeIsPrecedes(entity, sort, db, x, y);
  }

  /** From a boundary on, a walk returns the rest of the list if and only if all later page ends pass. */
  lemma {:induction false} WalkFrom(r: Request, f: Formats, db: Db, table: seq<Row>, n: nat, pages: seq<Page>)
    requires PlanFor(r, None).Ok? && Walkable(r, db, table) && CastsKeepText(db) && PlanFor(r, None).value.limit >= 1
    requires n <= |WholeList(r, db, table)| && WholePages(n, PlanFor(r, None).value.limit)
             && (n == 0 || n < |WholeList(r, db, table)|)
    requires IsWalk(r, f, db, table, CursorAt(r, f, WholeList(r, db, table), n), pages)
    ensures RowsOf(pages) == WholeList(r, db, table)[n..] <==> PassesFrom(r, f, db, table, n)
    decreases |pages|
  {
    hide PlanFor, Walkable, WholeList, Passes, CursorAt, PageAt;
    var all, limit := WholeList(r, db, table), PlanFor(r, None).value.limit;
    if n > 0 && !Passes(r, f, db, table, n) {
      BadPage(r, f, db, table, n);
      WrongFirstRow(pages, all, n);
    } else {
      GoodPage(r, f, db, table, n);
      if pages[0].next.Some? {
        WalkFrom(r, f, db, table, n + limit, pages[1..]);
        assert all[n..] == all[n..n + limit] + all[n + limit..];
        assert PassesFrom(r, f, db, table, n) <==>
          PassesFrom(r, f, db, table, n + limit) by { NextBoundary(r, f, db, table, n); }
      } else {
        assert pages[1..] == [] && RowsOf(pages) == all[n..];
        LastPage(r, f, db, table, n);
      }
    }
  }

  ghost predicate PassesFrom(r: Request, f: Formats, db: Db, table: seq<Row>, n: nat)
    requires PlanFor(r, None).Ok? && PlanFor(r, None).value.limit >= 1
  {
    forall m :: n <= m < |WholeList(r, db, table)| && m > 0 && WholePages(m, PlanFor(r, None).value.limit) ==>
      Passes(r, f, db, table, m)
  }

  lemma WrongFirstRow(pages: seq<Page>, all: seq<Row>, n: nat)
    requires n < |all| && |pages| > 0 && (pages[0].next.None? ==> |pages| == 1)
    requires (pages[0].rows == [] && pages[0].next.None?) || (|pages[0].rows| > 0 && pages[0].rows[0] != all[n])
    ensures RowsOf(pages) != all[n..]
  {
    if pages[0].rows == [] { assert pages[1..] == []; } else { assert RowsOf(pages)[0] == pages[0].rows[0]; }
  }

  lemma {:induction false} PagesApart(n: int, m: int, limit: int)
    requires limit >= 1 && 0 <= n < m && WholePages(n, limit) && WholePages(m, limit)
    ensures n + limit <= m
    decreases n
  {
    if n > 0 {
      PagesApart(n - limit, m - limit, limit);
    } else {
      NotNegative(m, limit);
    }
  }

  lemma {:induction false} NotNegative(n: int, limit: int)
    requires limit >= 1 && n > 0 && WholePages(n, limit)
    ensures n >= limit
  {
  }

  lemma NextBoundary(r: Request, f: Formats, db: Db, table: seq<Row>, n: nat)
    requires PlanFor(r, None).Ok? && PlanFor(r, None).value.limit >= 1 && n < |WholeList(r, db, table)|
    requires WholePages(n, PlanFor(r, None).value.limit) && (n > 0 ==> Passes(r, f, db, table, n))
    ensures PassesFrom(r, f, db, table, n) <==> PassesFrom(r, f, db, table, n + PlanFor(r, None).value.limit)
  {
    hide PlanFor, WholeList, Passes;
    var limit := PlanFor(r, None).value.limit;
    forall m | n < m && WholePages(m, limit) ensures n + limit <= m { PagesApart(n, m, limit); }
  }

  lemma LastPage(r: Request, f: Formats, db: Db, table: seq<Row>, n: nat)
    requires PlanFor(r, None).Ok? && PlanFor(r, None).value.limit >= 1 && WholePages(n, PlanFor(r, None).value.limit)
    requires n + PlanFor(r, None).value.limit >= |WholeList(r, db, table)|
    requires 0 < n < |WholeList(r, db, table)| ==> Passes(r, f, db, table, n)
    ensures PassesFrom(r, f, db, table, n)
  {
    hide PlanFor, WholeList, Passes;
    var limit := PlanFor(r, None).value.limit;
    forall m | n < m && WholePages(m, limit) ensures n + limit <= m { PagesApart(n, m, limit); }
  }

  /** A walk that comes to its end has returned every row of the list once and in order if and only if the cursor of
      every page end selects exactly the rows of the list that follow it. */
  lemma WalkIsWholeExactly(r: Request, f: Formats, db: Db, table: seq<Row>, pages: seq<Page>)
    requires PlanFor(r, None).Ok? && Walkable(r, db, table) && CastsKeepText(db) && PlanFor(r, None).value.limit >= 1
    requires IsWalk(r, f, db, table, None, pages)
    ensures RowsOf(pages) == WholeList(r, db, table) <==> PageEndsPass(r, f, db, table)
  {
    hide PlanFor, Walkable, WholeList, Passes, PageAt;
    assert WholeList(r, db, table)[0..] == WholeList(r, db, table);
    WalkFrom(r, f, db, table, 0, pages);
  }
}
