/** What a reconcile pass works on: the table, the ledger of finished backfills, the sync triggers, and whether there
    are rows to fill. Ledger and triggers are kept under column names. Introspect reads a schema off them. */
module Introspection {
  import opened Prelude
  import opened PhysicalSchema
  import opened SchemaDiff
  import opened Reconcile

  /** `completed` are the ids of finished backfills, `triggers` the fields with a sync trigger, and `rows` says whether
      some row is in the scope of a backfill. The origins written in `table` play no part. */
  datatype Store = Store(table: Option<Schema>, completed: set<string>, triggers: set<string>, rows: bool)

  function TriggersOf(x: Store): set<string> { if x.table.Some? then x.triggers else {} }

  predicate RowsIn(x: Store) { x.table.Some? && x.rows }

  /** The function behind a trigger assigns the column of its own field, under whatever name that column was created.
      It fires on every written row, and fails once the table has no column of that name. */
  predicate Writable(x: Store) { x.table.Some? ==> forall f :: f in x.triggers ==> f in x.table.value.columns }

  /** A backfill updates every row in its scope. */
  predicate StoreEnabled(op: DdlOp, x: Store) {
    Enabled(op, x.table) && (op.BackfillColumn? && RowsIn(x) ==> Writable(x))
  }

  /** The ledger and the trigger of this very name, whatever the column was called before. */
  predicate Ready(table: string, x: Store, n: string) { BackfillOpId(table, n) in x.completed && n in TriggersOf(x) }

  function OriginOf(fw: map<string, ColumnSpec>, table: string, x: Store, n: string): Origin {
    if n in fw then Framework else Generated(n, Ready(table, x, n))
  }

  function Introspect(fw: map<string, ColumnSpec>, table: string, x: Store): Option<Schema> {
    match x.table
    case None => None
    case Some(s) => Some(s.(columns := map n | n in s.columns :: s.columns[n].(origin := OriginOf(fw, table, x, n))))
  }

  lemma IntrospectionDescribes(fw: map<string, ColumnSpec>, table: string, x: Store)
    ensures Describes(Introspect(fw, table, x), x.table)
  {
  }

  // ---------------------------------------------------------------- runs

  ghost predicate StoreStep(fw: map<string, ColumnSpec>, table: string, op: DdlOp, x: Store, y: Store) {
    && Step(fw, table, op, x.table, y.table) && (op.BackfillColumn? && RowsIn(x) ==> Writable(x))
    && y.rows == (!op.CreateTable? && x.rows)
    && y.completed == (if op.BackfillColumn? then x.completed + {op.opId} else x.completed)
    && y.triggers
       == (if op.CreateTable? then {} else if op.AddSyncTrigger? then x.triggers + {op.field} else x.triggers)
  }

  /** A crash inside an operation, or its failure. Inside a backfill it may leave the ledger row incomplete. */
  ghost predicate StoreInterrupted(op: DdlOp, x: Store, y: Store) {
    && Interrupted(op, x.table, y.table) && y.triggers == x.triggers && y.rows == x.rows
    && (y.completed == x.completed || (op.BackfillColumn? && y.completed == x.completed - {op.opId}))
  }

  ghost predicate StoreRun(fw: map<string, ColumnSpec>, table: string, ops: seq<DdlOp>, states: seq<Store>) {
    |states| == |ops| + 1 && forall i :: 0 <= i < |ops| ==> StoreStep(fw, table, ops[i], states[i], states[i + 1])
  }

  function Tables(states: seq<Store>): (ts: seq<Option<Schema>>)
    ensures |ts| == |states| && forall i :: 0 <= i < |states| ==> ts[i] == states[i].table
  {
    seq(|states|, i requires 0 <= i < |states| => states[i].table)
  }

  lemma TablesRun(fw: map<string, ColumnSpec>, table: string, ops: seq<DdlOp>, states: seq<Store>)
    requires StoreRun(fw, table, ops, states)
    ensures Run(fw, table, ops, Tables(states))
  {
    hide Step, Tables;
    forall i | 0 <= i < |ops| ensures Step(fw, table, ops[i], Tables(states)[i], Tables(states)[i + 1]) {
      assert StoreStep(fw, table, ops[i], states[i], states[i + 1]);
    }
  }

  predicate Fills(ops: seq<DdlOp>, i: nat, id: string)
    requires i <= |ops|
  {
    exists k :: 0 <= k < i && ops[k].BackfillColumn? && ops[k].opId == id
  }

  predicate Installs(ops: seq<DdlOp>, i: nat, field: string)
    requires i <= |ops|
  {
    exists k :: 0 <= k < i && ops[k].AddSyncTrigger? && ops[k].field == field
  }

  /** The ledger and the triggers grow by exactly what the operations fill and install. */
  lemma {:induction false} LedgerAt(
    fw: map<string, ColumnSpec>, table: string, ops: seq<DdlOp>, states: seq<Store>, i: nat, id: string, f: string)
    requires StoreRun(fw, table, ops, states) && i <= |ops|
    ensures id in states[i].completed <==> id in states[0].completed || Fills(ops, i, id)
    ensures f in TriggersOf(states[i]) <==> f in TriggersOf(states[0]) || Installs(ops, i, f)
  {
    hide Changes;
    if i > 0 {
      LedgerAt(fw, table, ops, states, i - 1, id, f);
      assert StoreStep(fw, table, ops[i - 1], states[i - 1], states[i - 1 + 1]);
      assert Fills(ops, i, id) <==> Fills(ops, i - 1, id) || (ops[i - 1].BackfillColumn? && ops[i - 1].opId == id);
      assert Installs(ops, i, f) <==> Installs(ops, i - 1, f) || (ops[i - 1].AddSyncTrigger? && ops[i - 1].field == f);
    }
  }

  lemma {:induction false} RowsAt(
    fw: map<string, ColumnSpec>, table: string, ops: seq<DdlOp>, states: seq<Store>, i: nat)
    requires StoreRun(fw, table, ops, states) && i <= |ops|
    ensures RowsIn(states[i]) <==> RowsIn(states[0])
  {
    hide Changes, Writable;
    if i > 0 {
      RowsAt(fw, table, ops, states, i - 1);
      assert StoreStep(fw, table, ops[i - 1], states[i - 1], states[i - 1 + 1]);
    }
  }

  // ---------------------------------------------------------------- which columns a pass leaves ready

  lemma OpIdsDiffer(table: string, n: string, m: string)
    requires n != m
    ensures BackfillOpId(table, n) != BackfillOpId(table, m)
  {
    var p := "backfill:" + table + ":";
    assert BackfillOpId(table, n)[|p|..] == n && BackfillOpId(table, m)[|p|..] == m;
  }

  /** Ledger row and trigger of the column's own name are there before the pass or made by it. */
  predicate Covered(d: Schema, x: Store, ops: seq<DdlOp>, n: string) {
    && (BackfillOpId(d.table, n) in x.completed || Fills(ops, |ops|, BackfillOpId(d.table, n)))
    && (n in TriggersOf(x) || Installs(ops, |ops|, n))
  }

  lemma ReadyIffCovered(fw: map<string, ColumnSpec>, d: Schema, ops: seq<DdlOp>, states: seq<Store>, n: string)
    requires StoreRun(fw, d.table, ops, states)
    ensures Ready(d.table, states[|ops|], n) <==> Covered(d, states[0], ops, n)
  {
    hide StoreStep;
    LedgerAt(fw, d.table, ops, states, |ops|, BackfillOpId(d.table, n), n);
  }

  /** A column after the renames has the description it had, or a rename gave it its name. */
  lemma {:induction false} RenamedColumn(
    d: Schema, copy: Schema, renames: seq<(string, string)>, n: string)
      returns (k: nat)
    requires n in Renamed(d, copy, renames).0.columns
    ensures var (s, ops) := Renamed(d, copy, renames);
            (n in copy.columns && s.columns[n] == copy.columns[n])
              || (k < |ops| && ops[k].RenameColumn? && ops[k].to == n)
    decreases |renames|
  {
    k := 0;
    if |renames| > 0 {
      var (from, to) := renames[0];
      if to in copy.columns || from !in copy.columns || to !in d.columns {
        k := RenamedColumn(d, copy, renames[1..], n);
      } else {
        var rest := Renamed(d, Move(copy, from, to), renames[1..]).1;
        var j := RenamedColumn(d, Move(copy, from, to), renames[1..], n);
        if j < |rest| && rest[j].RenameColumn? && rest[j].to == n { k := j + 1; }
      }
    }
  }

  lemma FillCovers(d: Schema, a: Schema, x: Store, ops: seq<DdlOp>, head: nat, n: string)
    requires head <= |ops| && IsRest(d, a, ops[head..]) && n in d.columns && NeedsBackfill(d, a, n)
             && SourceOf(d, a, n) == n
    ensures Covered(d, x, ops, n)
  {
    var trigger := AddSyncTrigger(n, d.columns[n].sqlType);
    var fill := BackfillColumn(BackfillOpId(d.table, n), n, n, d.columns[n].sqlType);
    assert Wanted(d, a, trigger) && Wanted(d, a, fill);
    assert trigger in ops[head..] && fill in ops[head..];
    var i :| 0 <= i < |ops[head..]| && ops[head..][i] == trigger;
    var j :| 0 <= j < |ops[head..]| && ops[head..][j] == fill;
    assert ops[head + i] == trigger && ops[head + j] == fill;
  }

  /** Only a column that an emitted rename produced can be left without its ledger row or its trigger. */
  lemma UncoveredIsRenamed(
    fw: map<string, ColumnSpec>, d: Schema, x: Store, renames: seq<(string, string)>, ops: seq<DdlOp>, n: string)
      returns (k: nat)
    requires Compiled(fw, d) && IsDiff(d, Introspect(fw, d.table, x), renames, ops)
    requires n in d.columns && n !in fw && !Covered(d, x, ops, n)
    ensures k < |ops| && ops[k].RenameColumn? && ops[k].to == n
  {
    hide Covered, IsRest, Ready;
    k := 0;
    var seen := Introspect(fw, d.table, x);
    var (a, head) := Head(d, seen, renames);
    if n in a.columns {
      if seen.None? { NothingToRename(d, EmptySchema(d.table), renames); }
      k := RenamedColumn(d, seen.value, renames, n);
      if !(k < |head| && head[k].RenameColumn? && head[k].to == n) {
        assert a.columns[n].origin == Generated(n, Ready(d.table, x, n));
        assert !Ready(d.table, x, n) by { if Ready(d.table, x, n) { ReadyIsCovered(d, x, ops, n); } }
        FillCovers(d, a, x, ops, |head|, n);
      } else {
        assert ops[..|head|][k] == ops[k];
      }
    } else {
      FillCovers(d, a, x, ops, |head|, n);
    }
  }

  lemma ReadyIsCovered(d: Schema, x: Store, ops: seq<DdlOp>, n: string)
    requires Ready(d.table, x, n)
    ensures Covered(d, x, ops, n)
  {
  }
}
