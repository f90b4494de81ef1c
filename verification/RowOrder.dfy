/** ORDER BY on rows: sorting, uniqueness of the sorted listing, and what comes after a position. */
module RowOrder {
  import opened Sql
  import opened SortKeys
  import opened Snapshot

  /** ORDER BY key [ASC|DESC] NULLS [FIRST|LAST], id ASC. */
  datatype Order = Order(db: Db, key: Row -> Value, descending: bool, nullsFirst: bool)

  function IdOf(row: Row): Value { ColumnOf(row, "id") }

  predicate KeyFirst(o: Order, a: Value, b: Value) {
    if a == Null || b == Null then (if o.nullsFirst then a == Null && b != Null else a != Null && b == Null)
    else if o.descending then o.db.less(b, a)
    else o.db.less(a, b)
  }

  predicate Before(o: Order, a: Row, b: Row) {
    KeyFirst(o, o.key(a), o.key(b)) || (o.key(a) == o.key(b) && o.db.less(IdOf(a), IdOf(b)))
  }

  ghost predicate UniqueIds(s: seq<Row>) { forall i, j :: 0 <= i < j < |s| ==> IdOf(s[i]) != IdOf(s[j]) }

  lemma BeforeIsTransitive(o: Order, a: Row, b: Row, c: Row)
    requires StrictOrder(o.db) && Before(o, a, b) && Before(o, b, c)
    ensures Before(o, a, c)
  {
  }

  lemma BeforeIsTotal(o: Order, a: Row, b: Row)
    requires StrictOrder(o.db) && IdOf(a) != IdOf(b)
    ensures Before(o, a, b) || Before(o, b, a)
  {
    assert o.db.less(IdOf(a), IdOf(b)) || o.db.less(IdOf(b), IdOf(a));
    var x, y := o.key(a), o.key(b);
    if x != Null && y != Null && x != y { assert o.db.less(x, y) || o.db.less(y, x); }
  }

  lemma BeforeIsIrreflexive(o: Order, a: Row)
    requires StrictOrder(o.db)
    ensures !Before(o, a, a)
  {
    var x := o.key(a);
    assert !o.db.less(x, x) && !o.db.less(IdOf(a), IdOf(a));
  }

  // ---------------------------------------------------------------- sorting

  function Insert(o: Order, row: Row, s: seq<Row>): seq<Row> {
    if |s| == 0 then [row]
    else if Before(o, row, s[0]) then [row] + s
    else [s[0]] + Insert(o, row, s[1..])
  }

  function SortRows(o: Order, s: seq<Row>): seq<Row> {
    if |s| == 0 then [] else Insert(o, s[0], SortRows(o, s[1..]))
  }

  predicate Sorted(o: Order, s: seq<Row>) { forall i, j :: 0 <= i < j < |s| ==> Before(o, s[i], s[j]) }

  lemma {:induction false} InsertMembers(o: Order, row: Row, s: seq<Row>, x: Row)
    ensures x in Insert(o, row, s) <==> x == row || x in s
    decreases |s|
  {
    if |s| > 0 {
      InsertMembers(o, row, s[1..], x);
      assert s == [s[0]] + s[1..];
    }
  }

  lemma {:induction false} InsertIsSorted(o: Order, row: Row, s: seq<Row>)
    requires StrictOrder(o.db) && Sorted(o, s) && forall x :: x in s ==> IdOf(x) != IdOf(row)
    ensures Sorted(o, Insert(o, row, s))
    decreases |s|
  {
    hide Before, StrictOrder;
    if |s| > 0 {
      if Before(o, row, s[0]) {
        forall j | 0 <= j < |s| ensures Before(o, row, s[j]) {
          if j > 0 { BeforeIsTransitive(o, row, s[0], s[j]); }
        }
      } else {
        BeforeIsTotal(o, row, s[0]);
        InsertIsSorted(o, row, s[1..]);
        var t := Insert(o, row, s[1..]);
        forall j | 0 <= j < |t| ensures Before(o, s[0], t[j]) {
          InsertMembers(o, row, s[1..], t[j]);
          if t[j] != row {
            var m :| 0 <= m < |s[1..]| && s[1..][m] == t[j];
            assert s[m + 1] == t[j];
          }
        }
      }
    }
  }

  lemma {:induction false} SortMembers(o: Order, s: seq<Row>, x: Row)
    ensures x in SortRows(o, s) <==> x in s
    decreases |s|
  {
    if |s| > 0 {
      SortMembers(o, s[1..], x);
      InsertMembers(o, s[0], SortRows(o, s[1..]), x);
      assert s == [s[0]] + s[1..];
    }
  }

  lemma {:induction false} SortIsSorted(o: Order, s: seq<Row>)
    requires StrictOrder(o.db) && UniqueIds(s)
    ensures Sorted(o, SortRows(o, s))
    decreases |s|
  {
    hide Before, StrictOrder;
    if |s| > 0 {
      SortIsSorted(o, s[1..]);
      forall x | x in SortRows(o, s[1..]) ensures IdOf(x) != IdOf(s[0]) {
        SortMembers(o, s[1..], x);
        var m :| 0 <= m < |s[1..]| && s[1..][m] == x;
        assert s[m + 1] == x;
      }
      InsertIsSorted(o, s[0], SortRows(o, s[1..]));
    }
  }

  /** A listing in this order is determined by which rows are in it. */
  lemma {:induction false} SortedIsUnique(o: Order, a: seq<Row>, b: seq<Row>)
    requires StrictOrder(o.db) && Sorted(o, a) && Sorted(o, b) && forall x :: x in a <==> x in b
    ensures a == b
    decreases |a|
  {
    hide Before, StrictOrder;
    assert |b| > 0 ==> b[0] in b;
    if |a| > 0 {
      assert a[0] in b;
      FirstIsFirst(o, a, b);
      forall x ensures x in a[1..] <==> x in b[1..] {
        RestHas(o, a, x);
        RestHas(o, b, x);
      }
      SortedIsUnique(o, a[1..], b[1..]);
      assert a == [a[0]] + a[1..] && b == [b[0]] + b[1..];
    }
  }

  lemma FirstIsFirst(o: Order, a: seq<Row>, b: seq<Row>)
    requires StrictOrder(o.db) && Sorted(o, a) && Sorted(o, b) && (forall x :: x in a <==> x in b) && |a| > 0 && |b| > 0
    ensures a[0] == b[0]
  {
    hide Before, StrictOrder;
    assert a[0] in b && b[0] in a;
    var i :| 0 <= i < |b| && b[i] == a[0];
    var j :| 0 <= j < |a| && a[j] == b[0];
    if i > 0 && j > 0 {
      BeforeIsTransitive(o, a[0], b[0], a[0]);
      BeforeIsIrreflexive(o, a[0]);
    }
  }

  lemma RestHas(o: Order, a: seq<Row>, x: Row)
    requires StrictOrder(o.db) && Sorted(o, a) && |a| > 0
    ensures x in a[1..] <==> x in a && x != a[0]
  {
    hide Before, StrictOrder;
    BeforeIsIrreflexive(o, a[0]);
    if x in a[1..] {
      var m :| 0 <= m < |a[1..]| && a[1..][m] == x;
      assert a[m + 1] == x && Before(o, a[0], a[m + 1]);
    }
    assert a == [a[0]] + a[1..];
  }

  // ---------------------------------------------------------------- listings and positions in them

  /** The rows of a table that satisfy `p`, in order. */
  function Listing(o: Order, table: seq<Row>, p: Row -> bool): seq<Row> { SortRows(o, Keep(table, p)) }

  lemma {:induction false} KeepUnique(s: seq<Row>, p: Row -> bool)
    requires UniqueIds(s)
    ensures UniqueIds(Keep(s, p))
    decreases |s|
  {
    if |s| > 0 {
      var t := s[..|s| - 1];
      KeepUnique(t, p);
      forall i | 0 <= i < |Keep(t, p)| ensures IdOf(Keep(t, p)[i]) != IdOf(s[|s| - 1]) {
        KeepHas(t, p, Keep(t, p)[i]);
      }
    }
  }

  lemma ListingIsSorted(o: Order, table: seq<Row>, p: Row -> bool)
    requires StrictOrder(o.db) && UniqueIds(table)
    ensures Sorted(o, Listing(o, table, p))
    ensures forall x :: x in Listing(o, table, p) <==> x in table && p(x)
  {
    hide StrictOrder, Before, Keep, SortRows;
    KeepUnique(table, p);
    SortIsSorted(o, Keep(table, p));
    forall x ensures x in Listing(o, table, p) <==> x in table && p(x) {
      SortMembers(o, Keep(table, p), x);
      KeepHas(table, p, x);
    }
  }

  lemma SameListing(o: Order, table: seq<Row>, p: Row -> bool, q: Row -> bool)
    requires StrictOrder(o.db) && UniqueIds(table) && forall x :: x in table ==> p(x) == q(x)
    ensures Listing(o, table, p) == Listing(o, table, q)
  {
    hide StrictOrder, Sorted, Listing;
    ListingIsSorted(o, table, p);
    ListingIsSorted(o, table, q);
    SortedIsUnique(o, Listing(o, table, p), Listing(o, table, q));
  }

  /** The rows after position `k` of a listing are its tail. */
  lemma AfterIsTail(o: Order, table: seq<Row>, p: Row -> bool, k: nat, q: Row -> bool)
    requires StrictOrder(o.db) && UniqueIds(table) && k < |Listing(o, table, p)|
    requires forall x :: x in table ==> q(x) == (p(x) && Before(o, Listing(o, table, p)[k], x))
    ensures Listing(o, table, q) == Listing(o, table, p)[k + 1..]
  {
    hide StrictOrder, Before, Listing;
    var all := Listing(o, table, p);
    ListingIsSorted(o, table, p);
    ListingIsSorted(o, table, q);
    forall x ensures x in Listing(o, table, q) <==> x in all[k + 1..] {
      TailHas(o, all, k, x);
    }
    SortedIsUnique(o, Listing(o, table, q), all[k + 1..]);
  }

  lemma TailHas(o: Order, all: seq<Row>, k: nat, x: Row)
    requires StrictOrder(o.db) && Sorted(o, all) && k < |all|
    ensures x in all[k + 1..] <==> x in all && Before(o, all[k], x)
  {
    hide StrictOrder, Before;
    if x in all[k + 1..] {
      var m :| 0 <= m < |all[k + 1..]| && all[k + 1..][m] == x;
      assert all[k + 1 + m] == x;
    }
    if x in all && Before(o, all[k], x) {
      var m :| 0 <= m < |all| && all[m] == x;
      if m <= k {
        if m < k { BeforeIsTransitive(o, x, all[k], x); }
        BeforeIsIrreflexive(o, x);
      } else {
        assert all[k + 1..][m - k - 1] == x;
      }
    }
  }
}
