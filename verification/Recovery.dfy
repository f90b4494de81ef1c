/** What a crash leaves, and the passes after it: a table that had no trigger in the way still has none, so the next two
    passes run to their end and leave nothing to do. */
module Recovery {
  import opened Prelude
  import opened PhysicalSchema
  import opened SchemaDiff
  import opened Reconcile
  import opened Introspection
  import opened Convergence
  import opened Progress
  import M = Metadata
  import C = SchemaCompiler

  // ---------------------------------------------------------------- renames as functions on sets of names

  function NamesAfter(d: Schema, names: set<string>, renames: seq<(string, string)>): set<string>
    decreases |renames|
  {
    if |renames| == 0 then names
    else
      var (from, to) := renames[0];
      if to in names || from !in names || to !in d.columns then NamesAfter(d, names, renames[1..])
      else NamesAfter(d, names - {from} + {to}, renames[1..])
  }

  lemma {:induction false} RenamedNames(d: Schema, copy: Schema, renames: seq<(string, string)>)
    ensures Renamed(d, copy, renames).0.columns.Keys == NamesAfter(d, copy.columns.Keys, renames)
    decreases |renames|
  {
    if |renames| > 0 {
      var (from, to) := renames[0];
      if to in copy.columns || from !in copy.columns || to !in d.columns {
        RenamedNames(d, copy, renames[1..]);
      } else {
        assert Move(copy, from, to).columns.Keys == copy.columns.Keys - {from} + {to};
        RenamedNames(d, Move(copy, from, to), renames[1..]);
      }
    }
  }

  /** More columns to begin with, more columns in the end. */
  lemma {:induction false} NamesGrow(d: Schema, few: set<string>, many: set<string>, renames: seq<(string, string)>)
    requires few <= many
    ensures NamesAfter(d, few, renames) <= NamesAfter(d, many, renames)
    decreases |renames|
  {
    if |renames| > 0 {
      var (from, to) := renames[0];
      var few' := if to in few || from !in few || to !in d.columns then few else few - {from} + {to};
      var many' := if to in many || from !in many || to !in d.columns then many else many - {from} + {to};
      NamesGrow(d, few', many', renames[1..]);
    }
  }

  /** Renames only take names that the desired schema no longer uses. */
  predicate OldNames(d: Schema, renames: seq<(string, string)>) {
    forall i :: 0 <= i < |renames| ==> renames[i].0 !in d.columns
  }

  lemma RenamedInPlaceNames(from: string, to: string, s: Schema, t: Schema)
    requires from in s.columns && RenamedInPlace(from, to, s, t)
    ensures t.columns.Keys == s.columns.Keys - {from} + {to}
  {
  }

  /** Cut short after any of its renames, the list leads to the same names when it is applied again. */
  lemma {:induction false} RenamesResume(
    fw: map<string, ColumnSpec>, d: Schema, copy: Schema, renames: seq<(string, string)>, j: nat,
    states: seq<Option<Schema>>)
    requires OldNames(d, renames) && j <= |Renamed(d, copy, renames).1| && |states| == j + 1
    requires Run(fw, d.table, Renamed(d, copy, renames).1[..j], states)
    requires states[0].Some? && copy.columns.Keys == states[0].value.columns.Keys
    ensures states[j].Some?
    ensures NamesAfter(d, states[j].value.columns.Keys, renames) == NamesAfter(d, copy.columns.Keys, renames)
    ensures forall n :: n in d.columns && n in copy.columns ==> n in states[j].value.columns
    ensures forall n :: n !in d.columns && n in states[j].value.columns ==> n in copy.columns
    decreases |renames|
  {
    hide RenamedInPlace;
    if |renames| > 0 && j > 0 {
      var (from, to) := renames[0];
      var ops := Renamed(d, copy, renames).1;
      assert OldNames(d, renames[1..]);
      if to in copy.columns || from !in copy.columns || to !in d.columns {
        RenamesResume(fw, d, copy, renames[1..], j, states);
      } else {
        var next := Move(copy, from, to);
        assert ops[..j][0] == RenameColumn(from, to);
        assert Step(fw, d.table, ops[..j][0], states[0], states[1]);
        RenamedInPlaceNames(from, to, states[0].value, states[1].value);
        assert ops[1..] == Renamed(d, next, renames[1..]).1;
        assert next.columns.Keys == copy.columns.Keys - {from} + {to};
        TailRun(fw, d.table, ops[..j], states);
        assert ops[..j][1..] == ops[1..][..j - 1];
        RenamesResume(fw, d, next, renames[1..], j - 1, states[1..]);
      }
    }
  }

  // ---------------------------------------------------------------- what a crash leaves

  /** Nothing but renames takes a name away, and only desired columns appear. */
  lemma CrashedColumns(
    fw: map<string, ColumnSpec>, d: Schema, actual: Schema, renames: seq<(string, string)>, ops: seq<DdlOp>,
    states: seq<Option<Schema>>, k: nat)
    requires Compiled(fw, d) && OldNames(d, renames) && IsDiff(d, Some(actual), renames, ops) && k <= |ops|
    requires Run(fw, d.table, ops[..k], states) && Describes(Some(actual), states[0])
    ensures states[k].Some?
    ensures Renamed(d, actual, renames).0.columns.Keys <= NamesAfter(d, states[k].value.columns.Keys, renames)
    ensures forall n :: n !in d.columns && n in states[k].value.columns ==> n in actual.columns
  {
    hide IsRest, Alike, Compiled, Step, NamesAfter, Renamed;
    var head := Renamed(d, actual, renames).1;
    var h := |head|;
    RenamedNames(d, actual, renames);
    if k <= h {
      assert ops[..k] == head[..k];
      RenamesResume(fw, d, actual, renames, k, states);
    } else {
      var b := ColumnsPastHead(fw, d, actual, renames, ops, states, k);
      NamesGrow(d, b.columns.Keys, states[k].value.columns.Keys, renames);
    }
  }

  lemma ColumnsPastHead(
    fw: map<string, ColumnSpec>, d: Schema, actual: Schema, renames: seq<(string, string)>, ops: seq<DdlOp>,
    states: seq<Option<Schema>>, k: nat)
      returns (b: Schema)
    requires Compiled(fw, d) && OldNames(d, renames) && IsDiff(d, Some(actual), renames, ops)
    requires |Renamed(d, actual, renames).1| <= k <= |ops|
    requires Run(fw, d.table, ops[..k], states) && Describes(Some(actual), states[0])
    ensures states[k].Some? && b.columns.Keys <= states[k].value.columns.Keys
    ensures NamesAfter(d, b.columns.Keys, renames) == NamesAfter(d, actual.columns.Keys, renames)
    ensures forall n :: n !in d.columns && n in states[k].value.columns ==> n in actual.columns
  {
    hide IsRest, Alike, Compiled, Step, NamesAfter, Renamed, After, Begins;
    var head := Renamed(d, actual, renames).1;
    var h := |head|;
    SplitRun(fw, d.table, ops[..k], states, h);
    assert ops[..k][..h] == head == head[..h];
    RenamesResume(fw, d, actual, renames, h, states[..h + 1]);
    b := PastHead(fw, d, Some(actual), renames, ops, states, k);
    AfterColumns(d, b, ops[h..][..k - h], states[k].value);
  }

  lemma CrashedSeen(
    fw: map<string, ColumnSpec>, d: Schema, renames: seq<(string, string)>, ops: seq<DdlOp>, states: seq<Store>, k: nat,
    y: Store)
    requires |states| > 0 && Compiled(fw, d) && OldNames(d, renames) && k < |ops| && states[0].table.Some?
    requires IsDiff(d, Introspect(fw, d.table, states[0]), renames, ops)
    requires StoreRun(fw, d.table, ops[..k], states) && StoreInterrupted(ops[k], states[k], y)
    ensures y.table.Some?
    ensures forall n :: n in Seen(fw, d, states[0], renames).columns ==> n in Seen(fw, d, y, renames).columns
    ensures forall n :: n !in d.columns && n in y.table.value.columns ==> n in states[0].table.value.columns
  {
    hide IsDiff, Compiled, StoreStep, Step, Renamed, NamesAfter, Describes;
    var seen := Introspect(fw, d.table, states[0]);
    TablesRun(fw, d.table, ops[..k], states);
    IntrospectionDescribes(fw, d.table, states[0]);
    CrashedColumns(fw, d, seen.value, renames, ops, Tables(states), k);
    RenamedNames(d, Introspect(fw, d.table, y).value, renames);
    assert Introspect(fw, d.table, y).value.columns.Keys == states[k].table.value.columns.Keys;
  }

  lemma CrashedTriggers(
    fw: map<string, ColumnSpec>, d: Schema, renames: seq<(string, string)>, ops: seq<DdlOp>, states: seq<Store>, k: nat,
    y: Store, f: string)
    requires |states| > 0 && k < |ops| && IsDiff(d, Introspect(fw, d.table, states[0]), renames, ops)
    requires StoreRun(fw, d.table, ops[..k], states) && StoreInterrupted(ops[k], states[k], y) && f in TriggersOf(y)
    ensures f in TriggersOf(states[0]) || Source(d, Seen(fw, d, states[0], renames), f)
  {
    hide Wanted, Introspect, StoreStep, Source;
    LedgerAt(fw, d.table, ops[..k], states, k, "", f);
    if Installs(ops[..k], k, f) {
      var seen := Introspect(fw, d.table, states[0]);
      var (a, head) := Head(d, seen, renames);
      var j :| 0 <= j < k && ops[..k][j].AddSyncTrigger? && ops[..k][j].field == f;
      if j < |head| { HeadRanksLow(d, seen, renames, ops, j); }
      assert ops[|head|..][j - |head|] in ops[|head|..];
      WantedTrigger(d, a, ops[j]);
    }
  }

  /** A column that the desired schema does not have keeps its ledger row and its trigger. */
  lemma CrashedReady(
    fw: map<string, ColumnSpec>, d: Schema, renames: seq<(string, string)>, ops: seq<DdlOp>, states: seq<Store>, k: nat,
    y: Store, m: string)
    requires |states| > 0 && k < |ops| && IsDiff(d, Introspect(fw, d.table, states[0]), renames, ops)
    requires StoreRun(fw, d.table, ops[..k], states) && StoreInterrupted(ops[k], states[k], y) && y.table.Some?
    requires m !in d.columns && Ready(d.table, states[0], m)
    ensures Ready(d.table, y, m)
  {
    hide Introspect, StoreStep;
    LedgerAt(fw, d.table, ops[..k], states, k, BackfillOpId(d.table, m), m);
    if ops[k].BackfillColumn? {
      var seen := Introspect(fw, d.table, states[0]);
      var (a, head) := Head(d, seen, renames);
      if k < |head| { HeadRanksLow(d, seen, renames, ops, k); }
      assert ops[|head|..][k - |head|] in ops[|head|..];
      assert Wanted(d, a, ops[k]);
      OpIdsDiffer(d.table, ops[k].backfill, m);
    }
  }

  // ---------------------------------------------------------------- where a wanted trigger comes from

  lemma {:induction false} SpecComesFrom(d: Schema, copy: Schema, renames: seq<(string, string)>, n: string)
      returns (m: string)
    requires n in Renamed(d, copy, renames).0.columns
    ensures m in copy.columns && Renamed(d, copy, renames).0.columns[n] == copy.columns[m]
    decreases |renames|
  {
    if |renames| == 0 {
      m := n;
    } else {
      var (from, to) := renames[0];
      if to in copy.columns || from !in copy.columns || to !in d.columns {
        m := SpecComesFrom(d, copy, renames[1..], n);
      } else {
        m := SpecComesFrom(d, Move(copy, from, to), renames[1..], n);
        if m == to { m := from; }
      }
    }
  }

  lemma {:induction false} SpecGoesTo(d: Schema, copy: Schema, renames: seq<(string, string)>, m: string)
      returns (n: string)
    requires m in copy.columns
    ensures var s := Renamed(d, copy, renames).0;
            n in s.columns && s.columns[n] == copy.columns[m] && (n == m || n in d.columns)
    decreases |renames|
  {
    if |renames| == 0 {
      n := m;
    } else {
      var (from, to) := renames[0];
      if to in copy.columns || from !in copy.columns || to !in d.columns {
        n := SpecGoesTo(d, copy, renames[1..], m);
      } else {
        n := SpecGoesTo(d, Move(copy, from, to), renames[1..], if m == from then to else m);
      }
    }
  }

  lemma SourceIsUnready(fw: map<string, ColumnSpec>, d: Schema, y: Store, renames: seq<(string, string)>, f: string)
    requires Compiled(fw, d) && y.table.Some? && Source(d, Seen(fw, d, y, renames), f) && f !in d.columns
    ensures f in y.table.value.columns && f !in fw && !Ready(d.table, y, f)
  {
    hide Ready, Renamed;
    var a := Seen(fw, d, y, renames);
    var n :| n in d.columns && NeedsBackfill(d, a, n) && SourceOf(d, a, n) == f;
    if n in a.columns { var m := SpecComesFrom(d, Introspect(fw, d.table, y).value, renames, n); }
  }

  lemma UnreadyIsSource(fw: map<string, ColumnSpec>, d: Schema, x: Store, renames: seq<(string, string)>, m: string)
    requires x.table.Some? && m in x.table.value.columns && m !in fw && !Ready(d.table, x, m)
    requires m !in Seen(fw, d, x, renames).columns
    ensures Source(d, Seen(fw, d, x, renames), m)
  {
    hide Ready, Renamed;
    var a := Seen(fw, d, x, renames);
    var n := SpecGoesTo(d, Introspect(fw, d.table, x).value, renames, m);
    assert NeedsBackfill(d, a, n) && SourceOf(d, a, n) == m;
  }

  // ---------------------------------------------------------------- the passes after a crash

  /** A crash or a failure anywhere puts no trigger in the way. */
  lemma CrashStaysUnhindered(
    fw: map<string, ColumnSpec>, d: Schema, renames: seq<(string, string)>, ops: seq<DdlOp>, states: seq<Store>, k: nat,
    y: Store)
    requires |states| > 0 && Compiled(fw, d) && OldNames(d, renames) && k < |ops|
    requires IsDiff(d, Introspect(fw, d.table, states[0]), renames, ops)
    requires StoreRun(fw, d.table, ops[..k], states) && StoreInterrupted(ops[k], states[k], y)
    requires Unhindered(fw, d, states[0], renames)
    ensures Unhindered(fw, d, y, renames)
  {
    hide IsDiff, Compiled, StoreStep, Seen, Source, Ready, Introspect, Interrupted;
    var x := states[0];
    RowsAt(fw, d.table, ops[..k], states, k);
    InterruptionKeepsRows(ops[k], states[k], y);
    if RowsIn(y) {
      CrashedSeen(fw, d, renames, ops, states, k, y);
      forall f | f in TriggersOf(y) || Source(d, Seen(fw, d, y, renames), f)
        ensures f in Seen(fw, d, y, renames).columns || f in d.columns
      {
        if f in TriggersOf(y) {
          CrashedTriggers(fw, d, renames, ops, states, k, y, f);
        } else if f !in d.columns && f !in Seen(fw, d, y, renames).columns {
          SourceIsUnready(fw, d, y, renames, f);
          if Ready(d.table, x, f) { CrashedReady(fw, d, renames, ops, states, k, y, f); }
          UnreadyIsSource(fw, d, x, renames, f);
        }
      }
    }
  }

  lemma InterruptionKeepsRows(op: DdlOp, x: Store, y: Store)
    requires StoreInterrupted(op, x, y)
    ensures RowsIn(y) <==> RowsIn(x)
  {
  }

  /** A crash or a failure anywhere, also one that leaves an invalid index, an unvalidated foreign key or a half-filled
      column: judged on what is left, the next pass runs to its end, and two passes leave nothing to do, under exactly
      the conditions that hold for any store; and they are met whenever no trigger was in the way before. */
  lemma CrashedPassConverges(
    fw: map<string, ColumnSpec>, d: Schema, renames: seq<(string, string)>, ops: seq<DdlOp>, states: seq<Store>, k: nat,
    y: Store, ops': seq<DdlOp>)
    requires |states| > 0 && Compiled(fw, d) && OwnedOrMissing(states[0].table) && k < |ops|
    requires IsDiff(d, Introspect(fw, d.table, states[0]), renames, ops) && StoreRun(fw, d.table, ops[..k], states)
    requires StoreInterrupted(ops[k], states[k], y) && IsDiff(d, Introspect(fw, d.table, y), renames, ops')
    ensures Completes(fw, d.table, y, ops') <==> Runs(fw, d, y, renames)
    ensures Converges(fw, d, y, renames, ops') <==> Runs(fw, d, y, renames) && RunsTwice(fw, d, y, renames, ops')
    ensures OldNames(d, renames) && Unhindered(fw, d, states[0], renames) ==> Converges(fw, d, y, renames, ops')
  {
    hide Compiled, IsDiff, StoreStep, StoreInterrupted, Owned, Introspect, Completes, Converges, Unhindered, OldNames;
    CrashedStoreIsOwned(fw, d, renames, ops, states, k, y);
    PassRunsExactly(fw, d, y, renames, ops');
    ConvergesExactly(fw, d, y, renames, ops');
    if OldNames(d, renames) && Unhindered(fw, d, states[0], renames) {
      CrashStaysUnhindered(fw, d, renames, ops, states, k, y);
    }
  }

  /** For every entity that compiles: a pass, and the pass after a crash or a failure anywhere in it, converge under
      exactly the conditions on the store before each; and both do when no trigger was in the way of a row. */
  lemma EntityConverges(
    entity: M.Entity, renames: seq<(string, string)>, ops: seq<DdlOp>, states: seq<Store>, k: nat, y: Store,
    ops': seq<DdlOp>)
    requires |states| > 0 && C.CompileOf(entity).Ok? && OwnedOrMissing(states[0].table) && k < |ops|
    requires var fw, d := C.FrameworkColumns(), C.CompileOf(entity).value;
             && IsDiff(d, Introspect(fw, d.table, states[0]), renames, ops) && StoreRun(fw, d.table, ops[..k], states)
             && StoreInterrupted(ops[k], states[k], y) && IsDiff(d, Introspect(fw, d.table, y), renames, ops')
    ensures var fw, d, x := C.FrameworkColumns(), C.CompileOf(entity).value, states[0];
            && (Converges(fw, d, x, renames, ops) <==> Runs(fw, d, x, renames) && RunsTwice(fw, d, x, renames, ops))
            && (Converges(fw, d, y, renames, ops') <==> Runs(fw, d, y, renames) && RunsTwice(fw, d, y, renames, ops'))
            && (OldNames(d, renames) && Unhindered(fw, d, x, renames) ==>
                  Converges(fw, d, x, renames, ops) && Converges(fw, d, y, renames, ops'))
  {
    hide C.CompileOf, C.FrameworkColumns, Compiled, IsDiff, StoreStep, StoreInterrupted, Owned, Introspect, Converges,
      Unhindered, OldNames;
    var fw, d := C.FrameworkColumns(), C.CompileOf(entity).value;
    C.CompileIsCompiled(entity);
    ConvergesExactly(fw, d, states[0], renames, ops);
    CrashedPassConverges(fw, d, renames, ops, states, k, y, ops');
  }

  // ---------------------------------------------------------------- renames that take a desired name

  lemma SecondOfTwo(d: Schema, s: Schema, a: string, b: string, c: string)
    requires b in s.columns && c !in s.columns && c in d.columns
    ensures Renamed(d, s, [(a, b), (b, c)]) == (Move(s, b, c), [RenameColumn(b, c)])
  {
    var both, one := [(a, b), (b, c)], [(b, c)];
    assert both[1..] == one && one[1..] == [];
    assert Renamed(d, Move(s, b, c), []) == (Move(s, b, c), []);
    assert Renamed(d, s, one) == (Move(s, b, c), [RenameColumn(b, c)] + []);
    assert Renamed(d, s, both) == Renamed(d, s, both[1..]);
    assert [RenameColumn(b, c)] + [] == [RenameColumn(b, c)];
  }

  lemma FirstOfTwo(d: Schema, s: Schema, a: string, b: string, c: string)
    requires a in s.columns && b !in s.columns && b in d.columns && c in s.columns && c != a
    ensures Renamed(d, s, [(a, b), (b, c)]) == (Move(s, a, b), [RenameColumn(a, b)])
  {
    var m := Move(s, a, b);
    var both, one := [(a, b), (b, c)], [(b, c)];
    assert both[1..] == one && one[1..] == [] && c in m.columns;
    assert Renamed(d, m, []) == (m, []);
    assert Renamed(d, m, one) == Renamed(d, m, one[1..]);
    assert Renamed(d, s, both) == (m, [RenameColumn(a, b)] + Renamed(d, m, both[1..]).1);
    assert [RenameColumn(a, b)] + [] == [RenameColumn(a, b)];
  }

  /** That the renames take no desired name is needed. Listed are `a` as a rename to `b` and `b` as a rename to `c`, and
      `b` is still there: the pass renames `b` alone. Cut short after that, the same list renames `a` next, and on a
      table with rows its trigger stops the pass. */
  lemma TakenNameLeavesTrigger(
    fw: map<string, ColumnSpec>, d: Schema, x: Store, a: string, b: string, c: string, y: Store)
    requires RowsIn(x) && a in x.table.value.columns && b in x.table.value.columns && c !in x.table.value.columns
    requires a != b && a !in d.columns && b in d.columns && c in d.columns && a !in fw && b !in fw && c !in fw
    requires a in x.triggers && BackfillOpId(d.table, c) !in x.completed
    requires StoreStep(fw, d.table, RenameColumn(b, c), x, y)
    ensures Head(d, Introspect(fw, d.table, x), [(a, b), (b, c)]).1 == [RenameColumn(b, c)]
    ensures !Runs(fw, d, y, [(a, b), (b, c)])
  {
    SecondOfTwo(d, Introspect(fw, d.table, x).value, a, b, c);
    var after := Introspect(fw, d.table, y).value;
    FirstOfTwo(d, after, a, b, c);
    hide Renamed, Source;
    var seen := Seen(fw, d, y, [(a, b), (b, c)]);
    assert seen == Move(after, a, b);
    assert c in seen.columns && seen.columns[c] == after.columns[c];
    assert NeedsBackfill(d, seen, c);
    assert a in TriggersOf(y) && a !in seen.columns;
  }

  function Synced(name: string): ColumnSpec { ColumnSpec("text", true, Generated(name, true)) }

  function TwoColumns(n: string, m: string): Schema {
    Schema("t", map[n := Synced(n), m := Synced(m)], map[], map[], map[])
  }

  function TwoFilled(n: string, m: string): Store {
    Store(Some(TwoColumns(n, m)), {BackfillOpId("t", n), BackfillOpId("t", m)}, {n, m}, true)
  }

  /** Two complete columns over a row, where nothing was in the way before the pass. */
  lemma TakenNameExample(y: Store)
    requires StoreStep(map[], "t", RenameColumn("b", "c"), TwoFilled("a", "b"), y)
    ensures var d, x, renames := TwoColumns("b", "c"), TwoFilled("a", "b"), [("a", "b"), ("b", "c")];
            && Compiled(map[], d) && !OldNames(d, renames)
            && Unhindered(map[], d, x, renames) && !Runs(map[], d, y, renames)
  {
    var a, b, c := "a", "b", "c";
    assert a[0] != b[0] && b[0] != c[0] && a[0] != c[0];
    var d, renames := TwoColumns(b, c), [(a, b), (b, c)];
    var x := TwoFilled(a, b);
    OpIdsDiffer("t", c, a);
    OpIdsDiffer("t", c, b);
    TakenNameLeavesTrigger(map[], d, x, a, b, c, y);
    assert renames[1].0 == b;
    ClearBefore(d, x, a, b, c);
  }

  lemma ClearBefore(d: Schema, x: Store, a: string, b: string, c: string)
    requires a != b && b != c && a != c && d == TwoColumns(b, c) && x.table == Some(TwoColumns(a, b))
    requires x.triggers == {a, b} && BackfillOpId("t", b) in x.completed
    ensures Clear(map[], d, x, [(a, b), (b, c)])
  {
    var before := Introspect(map[], "t", x).value;
    SecondOfTwo(d, before, a, b, c);
    hide Renamed;
    var seen := Seen(map[], d, x, [(a, b), (b, c)]);
    assert seen == Move(before, b, c);
    assert seen.columns.Keys == {a, c} && !NeedsBackfill(d, seen, c);
  }
}
