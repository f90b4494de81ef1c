/** A trigger that outlives the name of its column: how a rename leaves one behind, and that no pass gets past it. */
module StaleTriggers {
  import opened PhysicalSchema
  import opened SchemaDiff
  import opened Reconcile
  import opened Introspection
  import opened Convergence
  import opened Progress

  // ---------------------------------------------------------------- how a rename leaves one

  lemma OneRename(fw: map<string, ColumnSpec>, d: Schema, x: Store, from: string, to: string)
    requires x.table.Some? && from in x.table.value.columns && from !in fw
    requires to in d.columns && to !in x.table.value.columns
    ensures Seen(fw, d, x, [(from, to)]) == Move(Introspect(fw, d.table, x).value, from, to)
  {
    var seen := Introspect(fw, d.table, x).value;
    assert [(from, to)][1..] == [];
    assert Renamed(d, Move(seen, from, to), []) == (Move(seen, from, to), []);
  }

  /** A renamed column that was not filled yet: Diff asks for a trigger of the old name, and on a table with rows the
      backfill of the same pass fails. */
  lemma UnfilledRenameFails(
    fw: map<string, ColumnSpec>, d: Schema, x: Store, from: string, to: string, ops: seq<DdlOp>)
    requires Compiled(fw, d) && IsDiff(d, Introspect(fw, d.table, x), [(from, to)], ops) && RowsIn(x)
    requires from in x.table.value.columns && from !in fw && !Ready(d.table, x, from) && from !in d.columns
    requires to in d.columns && to !in x.table.value.columns
    ensures !Completes(fw, d.table, x, ops)
  {
    OneRename(fw, d, x, from, to);
    hide Ready, IsDiff, Compiled, Completes, Head;
    var a := Seen(fw, d, x, [(from, to)]);
    assert NeedsBackfill(d, a, to) && SourceOf(d, a, to) == from;
    PassRunsExactly(fw, d, x, [(from, to)], ops);
  }

  /** A renamed column that was filled: the rename goes through, and on a table with rows the next pass, which fills
      the column again, fails on the trigger of the old name. */
  lemma FilledRenameFails(
    fw: map<string, ColumnSpec>, d: Schema, x: Store, from: string, to: string, y: Store, again: seq<DdlOp>)
    requires Compiled(fw, d) && RowsIn(x)
    requires from in x.table.value.columns && from !in fw && Ready(d.table, x, from) && from !in d.columns
    requires to in d.columns && to !in fw && to !in x.table.value.columns
             && BackfillOpId(d.table, to) !in x.completed
    requires StoreStep(fw, d.table, RenameColumn(from, to), x, y)
             && IsDiff(d, Introspect(fw, d.table, y), [(from, to)], again)
    ensures Stuck(fw, d, y, from, to) && !Completes(fw, d.table, y, again)
  {
    hide IsDiff, Compiled, Completes, Head;
    StuckFails(fw, d, y, from, to, [(from, to)], again);
  }

  /** One synced column `old`, complete, over a row, and a desired schema that calls it `new`: after the rename the
      next pass asks for a backfill that its table does not let run. */
  lemma OldTriggerStopsBackfill(y: Store, again: seq<DdlOp>)
    requires StoreStep(map[], "t", RenameColumn("old", "new"), OldStore(true), y)
    requires IsDiff(NewSchema(), Introspect(map[], "t", y), [("old", "new")], again)
    ensures "old" in TriggersOf(y) && "old" !in y.table.value.columns
    ensures BackfillColumn(BackfillOpId("t", "new"), "new", "new", "text") in again
    ensures !Completes(map[], "t", y, again)
  {
    hide IsDiff, Completes, Compiled;
    OldIsRenamed(true);
    OpIdsDiffer("t", "new", "old");
    RenameUndoesBackfill(map[], NewSchema(), OldStore(true), "old", "new", y, again);
    FilledRenameFails(map[], NewSchema(), OldStore(true), "old", "new", y, again);
  }

  // ---------------------------------------------------------------- no pass gets past it

  /** The trigger of `f` is left over, there is a row, and the synced column `n` is not filled. */
  predicate Stuck(fw: map<string, ColumnSpec>, d: Schema, x: Store, f: string, n: string) {
    && RowsIn(x) && f in x.triggers && f !in x.table.value.columns && f !in d.columns
    && n in d.columns && n !in fw && n in x.table.value.columns && BackfillOpId(d.table, n) !in x.completed
  }

  predicate Leaves(renames: seq<(string, string)>, n: string) { forall r :: r in renames ==> r.0 != n }

  lemma {:induction false} StaysPut(d: Schema, copy: Schema, renames: seq<(string, string)>, n: string)
    requires n in copy.columns && Leaves(renames, n)
    ensures var (s, ops) := Renamed(d, copy, renames);
            && n in s.columns && s.columns[n] == copy.columns[n]
            && (forall op :: op in ops ==> op.RenameColumn? && op.to in d.columns && op.from != n)
    decreases |renames|
  {
    if |renames| > 0 {
      var (from, to) := renames[0];
      assert renames[0] in renames && forall r :: r in renames[1..] ==> r in renames;
      if to in copy.columns || from !in copy.columns || to !in d.columns {
        StaysPut(d, copy, renames[1..], n);
      } else {
        StaysPut(d, Move(copy, from, to), renames[1..], n);
      }
    }
  }

  lemma {:induction false} OnlyDesiredAppear(d: Schema, copy: Schema, renames: seq<(string, string)>, f: string)
    requires f !in copy.columns && f !in d.columns
    ensures f !in Renamed(d, copy, renames).0.columns
    decreases |renames|
  {
    if |renames| > 0 {
      var (from, to) := renames[0];
      if to in copy.columns || from !in copy.columns || to !in d.columns {
        OnlyDesiredAppear(d, copy, renames[1..], f);
      } else {
        OnlyDesiredAppear(d, Move(copy, from, to), renames[1..], f);
      }
    }
  }

  lemma StuckFails(
    fw: map<string, ColumnSpec>, d: Schema, x: Store, f: string, n: string, renames: seq<(string, string)>,
    ops: seq<DdlOp>)
    requires Compiled(fw, d) && Stuck(fw, d, x, f, n) && Leaves(renames, n)
    requires IsDiff(d, Introspect(fw, d.table, x), renames, ops)
    ensures !Runs(fw, d, x, renames) && !Completes(fw, d.table, x, ops)
  {
    hide IsDiff, Compiled, Completes, Renamed, Source;
    var seen := Introspect(fw, d.table, x).value;
    StaysPut(d, seen, renames, n);
    OnlyDesiredAppear(d, seen, renames, f);
    assert NeedsBackfill(d, Seen(fw, d, x, renames), n);
    PassRunsExactly(fw, d, x, renames, ops);
  }

  /** Which operations a pass of this kind holds. */
  lemma OpsOfPass(
    fw: map<string, ColumnSpec>, d: Schema, x: Store, renames: seq<(string, string)>, ops: seq<DdlOp>, n: string,
    k: nat)
    requires x.table.Some? && n in x.table.value.columns && Leaves(renames, n) && k < |ops|
    requires IsDiff(d, Introspect(fw, d.table, x), renames, ops)
    ensures !ops[k].CreateTable? && (ops[k].AddColumn? ==> ops[k].column in d.columns)
    ensures ops[k].RenameColumn? ==> ops[k].to in d.columns && ops[k].from != n
  {
    hide Renamed;
    var (a, head) := Head(d, Introspect(fw, d.table, x), renames);
    StaysPut(d, Introspect(fw, d.table, x).value, renames, n);
    if k < |head| {
      assert ops[..|head|][k] == ops[k] && head[k] in head;
    } else {
      assert ops[|head|..][k - |head|] in ops[|head|..];
      assert Wanted(d, a, ops[k]);
    }
  }

  lemma StuckStays(fw: map<string, ColumnSpec>, d: Schema, op: DdlOp, x: Store, y: Store, f: string, n: string)
    requires Stuck(fw, d, x, f, n) && StoreStep(fw, d.table, op, x, y) && !op.CreateTable?
    requires (op.AddColumn? ==> op.column in d.columns) && (op.RenameColumn? ==> op.to in d.columns && op.from != n)
    ensures !op.BackfillColumn? && Stuck(fw, d, y, f, n)
  {
    if !op.RenameColumn? && !op.AddColumn? { Frame(op, x.table.value, y.table.value); }
  }

  lemma {:induction false} StuckAt(
    fw: map<string, ColumnSpec>, d: Schema, renames: seq<(string, string)>, ops: seq<DdlOp>, states: seq<Store>, k: nat,
    i: nat, f: string, n: string)
    requires |states| > 0 && k <= |ops| && StoreRun(fw, d.table, ops[..k], states) && i <= k
    requires IsDiff(d, Introspect(fw, d.table, states[0]), renames, ops)
    requires Stuck(fw, d, states[0], f, n) && Leaves(renames, n)
    ensures Stuck(fw, d, states[i], f, n)
  {
    hide IsDiff, StoreStep;
    if i > 0 {
      StuckAt(fw, d, renames, ops, states, k, i - 1, f, n);
      assert StoreStep(fw, d.table, ops[..k][i - 1], states[i - 1], states[i - 1 + 1]);
      OpsOfPass(fw, d, states[0], renames, ops, n, i - 1);
      StuckStays(fw, d, ops[i - 1], states[i - 1], states[i], f, n);
    }
  }

  /** One try at a pass: its renames, its operations, and the stores up to the end or to where it broke off. */
  datatype Try = Try(renames: seq<(string, string)>, ops: seq<DdlOp>, states: seq<Store>)

  predicate Finished(p: Try) { |p.states| == |p.ops| + 1 }

  ghost predicate Tries(fw: map<string, ColumnSpec>, d: Schema, p: Try, x: Store, y: Store) {
    && 0 < |p.states| <= |p.ops| + 1 && p.states[0] == x && IsDiff(d, Introspect(fw, d.table, x), p.renames, p.ops)
    && var k := |p.states| - 1;
       && StoreRun(fw, d.table, p.ops[..k], p.states)
       && if k == |p.ops| then y == p.states[k] else StoreInterrupted(p.ops[k], p.states[k], y)
  }

  lemma TryStaysStuck(fw: map<string, ColumnSpec>, d: Schema, p: Try, x: Store, y: Store, f: string, n: string)
    requires Compiled(fw, d) && Stuck(fw, d, x, f, n) && Leaves(p.renames, n) && Tries(fw, d, p, x, y)
    ensures !Finished(p) && Stuck(fw, d, y, f, n)
  {
    hide IsDiff, StoreStep, Compiled, Introspect;
    var k := |p.states| - 1;
    StuckAt(fw, d, p.renames, p.ops, p.states, k, k, f, n);
    assert k == |p.ops| ==> p.ops[..k] == p.ops;
    StuckFails(fw, d, x, f, n, p.renames, p.ops);
  }

  /** Once a left-over trigger stands over a row and a column waits for its backfill, no try at a pass ever finishes,
      whatever is renamed beside that column, as long as the desired schema does not bring the old name back. */
  lemma {:induction false} StuckForever(
    fw: map<string, ColumnSpec>, d: Schema, tries: seq<Try>, stores: seq<Store>, i: nat, f: string, n: string)
    requires Compiled(fw, d) && |stores| == |tries| + 1 && i < |tries| && Stuck(fw, d, stores[0], f, n)
    requires forall j :: 0 <= j < |tries| ==>
               Leaves(tries[j].renames, n) && Tries(fw, d, tries[j], stores[j], stores[j + 1])
    ensures !Finished(tries[i]) && Stuck(fw, d, stores[i], f, n) && Stuck(fw, d, stores[i + 1], f, n)
  {
    hide Compiled, Tries, Stuck, Finished, Leaves;
    if i > 0 { StuckForever(fw, d, tries, stores, i - 1, f, n); }
    TryStaysStuck(fw, d, tries[i], stores[i], stores[i + 1], f, n);
  }
}
