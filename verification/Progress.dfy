/** Which passes run to their end. The trigger of a column that was renamed away makes every later write fail, so it
    stops the backfills of its own pass and of every later one. */
module Progress {
  import opened Prelude
  import opened PhysicalSchema
  import opened SchemaDiff
  import opened Reconcile
  import opened Introspection
  import opened Convergence

  /** What Diff takes the table for once its renames are done. */
  function Seen(fw: map<string, ColumnSpec>, d: Schema, x: Store, renames: seq<(string, string)>): Schema {
    Head(d, Introspect(fw, d.table, x), renames).0
  }

  /** The pass asks for a backfill. */
  predicate AsksFill(d: Schema, a: Schema) { exists n :: n in d.columns && NeedsBackfill(d, a, n) }

  /** The pass installs a trigger for this field. */
  predicate Source(d: Schema, a: Schema, f: string) {
    exists n :: n in d.columns && NeedsBackfill(d, a, n) && SourceOf(d, a, n) == f
  }

  /** Every trigger, installed or to be installed, belongs to a column that stands after the renames or is desired. */
  ghost predicate Clear(fw: map<string, ColumnSpec>, d: Schema, x: Store, renames: seq<(string, string)>) {
    var a := Seen(fw, d, x, renames);
    forall f :: f in TriggersOf(x) || Source(d, a, f) ==> f in a.columns || f in d.columns
  }

  ghost predicate Unhindered(fw: map<string, ColumnSpec>, d: Schema, x: Store, renames: seq<(string, string)>) {
    RowsIn(x) ==> Clear(fw, d, x, renames)
  }

  /** What can be checked before a pass: there is nothing to fill, or no row to fill, or no trigger in the way. */
  ghost predicate Runs(fw: map<string, ColumnSpec>, d: Schema, x: Store, renames: seq<(string, string)>) {
    AsksFill(d, Seen(fw, d, x, renames)) ==> Unhindered(fw, d, x, renames)
  }

  // ---------------------------------------------------------------- the turn of a backfill

  /** At the turn of a backfill the table has the columns Diff saw and every desired one. */
  lemma ColumnsAtFill(
    fw: map<string, ColumnSpec>, d: Schema, a: Schema, b: Schema, done: seq<DdlOp>, op: DdlOp, s: Schema, n: string)
    requires Compiled(fw, d) && Begins(fw, a, b) && ColumnsAfter(d, b, done, s) && Next(d, a, done, op)
    requires op.BackfillColumn?
    ensures n in s.columns <==> n in a.columns || n in d.columns
  {
    hide Alike;
    if n in d.columns && n !in a.columns { assert Wanted(d, a, AddColumn(n, d.columns[n])); }
  }

  /** And every trigger the pass asks for is there. */
  lemma TriggersAtFill(d: Schema, a: Schema, rest: seq<DdlOp>, i: nat, f: string)
    requires IsRest(d, a, rest) && i < |rest| && rest[i].BackfillColumn?
    ensures Installs(rest, i, f) <==> Source(d, a, f)
  {
    hide NeedsBackfill, SourceOf, Source;
    if Installs(rest, i, f) {
      var k :| 0 <= k < i && rest[k].AddSyncTrigger? && rest[k].field == f;
      assert rest[k] in rest;
      WantedTrigger(d, a, rest[k]);
    }
    if Source(d, a, f) { SourceInstalled(d, a, rest, i, f); }
  }

  lemma WantedTrigger(d: Schema, a: Schema, op: DdlOp)
    requires Wanted(d, a, op) && op.AddSyncTrigger?
    ensures Source(d, a, op.field)
  {
  }

  lemma SourceInstalled(d: Schema, a: Schema, rest: seq<DdlOp>, i: nat, f: string)
    requires IsRest(d, a, rest) && i < |rest| && rest[i].BackfillColumn? && Source(d, a, f)
    ensures Installs(rest, i, f)
  {
    var n :| n in d.columns && NeedsBackfill(d, a, n) && SourceOf(d, a, n) == f;
    var op := AddSyncTrigger(f, d.columns[n].sqlType);
    assert Wanted(d, a, op);
    hide Wanted;
    NextInRest(d, a, rest, i);
    var k :| 0 <= k < |rest[..i]| && rest[..i][k] == op;
    assert rest[k] == op;
  }

  lemma HeadRanksLow(d: Schema, actual: Option<Schema>, renames: seq<(string, string)>, ops: seq<DdlOp>, j: nat)
    requires IsDiff(d, actual, renames, ops) && j < |Head(d, actual, renames).1|
    ensures Rank(ops[j]) <= 1
  {
    hide IsRest;
    var head := Head(d, actual, renames).1;
    HeadRanksFirst(d, actual, renames);
    assert ops[..|head|][j] == ops[j] && head[j] in head;
  }

  lemma InstallsPastHead(
    d: Schema, actual: Option<Schema>, renames: seq<(string, string)>, ops: seq<DdlOp>, k: nat, f: string)
    requires IsDiff(d, actual, renames, ops) && |Head(d, actual, renames).1| <= k <= |ops|
    ensures var h := |Head(d, actual, renames).1|; Installs(ops[..k], k, f) <==> Installs(ops[h..], k - h, f)
  {
    hide IsRest;
    var head := Head(d, actual, renames).1;
    var h := |head|;
    forall j | 0 <= j < h ensures !ops[j].AddSyncTrigger? { HeadRanksLow(d, actual, renames, ops, j); }
    if Installs(ops[..k], k, f) {
      var j :| 0 <= j < k && ops[..k][j].AddSyncTrigger? && ops[..k][j].field == f;
      assert ops[h..][j - h] == ops[j];
    }
    if Installs(ops[h..], k - h, f) {
      var j :| 0 <= j < k - h && ops[h..][j].AddSyncTrigger? && ops[h..][j].field == f;
      assert ops[..k][h + j] == ops[h..][j];
    }
  }

  lemma PastHeadOf(
    fw: map<string, ColumnSpec>, d: Schema, renames: seq<(string, string)>, ops: seq<DdlOp>, states: seq<Store>, k: nat)
      returns (b: Schema)
    requires |states| > 0 && Compiled(fw, d) && IsDiff(d, Introspect(fw, d.table, states[0]), renames, ops) && k < |ops|
    requires StoreRun(fw, d.table, ops[..k], states) && ops[k].BackfillColumn?
    ensures var (a, head) := Head(d, Introspect(fw, d.table, states[0]), renames);
            && |head| <= k && states[k].table.Some? && Begins(fw, a, b)
            && After(d, b, ops[|head|..][..k - |head|], states[k].table.value)
  {
    hide After, Begins, IsRest, Compiled, Introspect, StoreStep, Describes, Step;
    var seen := Introspect(fw, d.table, states[0]);
    var head := Head(d, seen, renames).1;
    if k < |head| { HeadRanksLow(d, seen, renames, ops, k); }
    TablesRun(fw, d.table, ops[..k], states);
    IntrospectionDescribes(fw, d.table, states[0]);
    b := PastHead(fw, d, seen, renames, ops, Tables(states), k);
  }

  /** At the turn of a backfill the triggers are out of the way exactly when they were before the pass. */
  lemma WritableAtFill(
    fw: map<string, ColumnSpec>, d: Schema, renames: seq<(string, string)>, ops: seq<DdlOp>, states: seq<Store>, k: nat)
    requires |states| > 0 && Compiled(fw, d) && IsDiff(d, Introspect(fw, d.table, states[0]), renames, ops) && k < |ops|
    requires StoreRun(fw, d.table, ops[..k], states) && ops[k].BackfillColumn?
    ensures Writable(states[k]) <==> Clear(fw, d, states[0], renames)
  {
    hide After, Begins, IsRest, Compiled, Introspect, StoreStep, Next, Source, Installs, Head;
    var b := PastHeadOf(fw, d, renames, ops, states, k);
    var seen := Introspect(fw, d.table, states[0]);
    var (a, head) := Head(d, seen, renames);
    var h := |head|;
    var rest, s := ops[h..], states[k].table.value;
    NextInRest(d, a, rest, k - h);
    forall n ensures n in s.columns <==> n in a.columns || n in d.columns {
      AfterColumns(d, b, rest[..k - h], s);
      ColumnsAtFill(fw, d, a, b, rest[..k - h], rest[k - h], s, n);
    }
    forall f ensures f in TriggersOf(states[k]) <==> f in TriggersOf(states[0]) || Source(d, a, f) {
      LedgerAt(fw, d.table, ops[..k], states, k, "", f);
      InstallsPastHead(d, seen, renames, ops, k, f);
      TriggersAtFill(d, a, rest, k - h, f);
    }
  }

  lemma AfterColumns(d: Schema, b: Schema, done: seq<DdlOp>, s: Schema)
    requires After(d, b, done, s)
    ensures ColumnsAfter(d, b, done, s)
  {
  }

  lemma FillIsAsked(d: Schema, actual: Option<Schema>, renames: seq<(string, string)>, ops: seq<DdlOp>)
    requires IsDiff(d, actual, renames, ops)
    ensures (exists k :: 0 <= k < |ops| && ops[k].BackfillColumn?) <==> AsksFill(d, Head(d, actual, renames).0)
  {
    hide NeedsBackfill, SourceOf;
    var (a, head) := Head(d, actual, renames);
    var h := |head|;
    forall j | 0 <= j < h ensures !ops[j].BackfillColumn? { HeadRanksLow(d, actual, renames, ops, j); }
    if k :| 0 <= k < |ops| && ops[k].BackfillColumn? {
      assert ops[h..][k - h] in ops[h..];
      assert Wanted(d, a, ops[k]);
    }
    if n :| n in d.columns && NeedsBackfill(d, a, n) {
      var fill := BackfillColumn(BackfillOpId(d.table, n), n, SourceOf(d, a, n), d.columns[n].sqlType);
      assert Wanted(d, a, fill);
      var j :| 0 <= j < |ops[h..]| && ops[h..][j] == fill;
      assert ops[h + j] == fill;
    }
  }

  /** Each operation is enabled at its turn if and only if it is no backfill or the pass runs, as judged on the store
      before the pass. */
  lemma TurnIsEnabledExactly(
    fw: map<string, ColumnSpec>, d: Schema, renames: seq<(string, string)>, ops: seq<DdlOp>, states: seq<Store>, k: nat)
    requires |states| > 0 && Compiled(fw, d) && IsDiff(d, Introspect(fw, d.table, states[0]), renames, ops) && k < |ops|
    requires StoreRun(fw, d.table, ops[..k], states)
    ensures Enabled(ops[k], states[k].table)
    ensures StoreEnabled(ops[k], states[k]) <==> (ops[k].BackfillColumn? ==> Runs(fw, d, states[0], renames))
  {
    hide Compiled, IsDiff, Introspect, StoreStep, Enabled, Clear, Writable, AsksFill, Describes, Head, Step, RowsIn;
    TablesRun(fw, d.table, ops[..k], states);
    IntrospectionDescribes(fw, d.table, states[0]);
    EveryOpIsEnabled(fw, d, Introspect(fw, d.table, states[0]), renames, ops, Tables(states), k);
    if ops[k].BackfillColumn? {
      WritableAtFill(fw, d, renames, ops, states, k);
      RowsAt(fw, d.table, ops[..k], states, k);
      FillIsAsked(d, Introspect(fw, d.table, states[0]), renames, ops);
    }
  }

  // ---------------------------------------------------------------- whole passes

  ghost predicate Completes(fw: map<string, ColumnSpec>, table: string, x: Store, ops: seq<DdlOp>) {
    exists states :: StoreRun(fw, table, ops, states) && states[0] == x
  }

  /** However the pass is run to its end, the next Diff is empty. */
  ghost predicate Settles(
    fw: map<string, ColumnSpec>, d: Schema, x: Store, renames: seq<(string, string)>, ops: seq<DdlOp>)
  {
    forall states, again ::
      (StoreRun(fw, d.table, ops, states) && states[0] == x
       && IsDiff(d, Introspect(fw, d.table, states[|ops|]), renames, again))
      ==> again == []
  }

  /** An enabled operation can be carried out. */
  lemma EnabledCanStep(fw: map<string, ColumnSpec>, table: string, op: DdlOp, x: Store) returns (y: Store)
    requires StoreEnabled(op, x)
    ensures StoreStep(fw, table, op, x, y)
  {
    hide Enabled, Changes, Writable;
    var t := EnabledCanRun(fw, table, op, x.table);
    y := Store(t, if op.BackfillColumn? then x.completed + {op.opId} else x.completed,
      if op.CreateTable? then {} else if op.AddSyncTrigger? then x.triggers + {op.field} else x.triggers,
      !op.CreateTable? && x.rows);
  }

  lemma ExtendRun(
    fw: map<string, ColumnSpec>, table: string, ops: seq<DdlOp>, k: nat, states: seq<Store>, y: Store)
    requires k < |ops| && StoreRun(fw, table, ops[..k], states) && StoreStep(fw, table, ops[k], states[k], y)
    ensures StoreRun(fw, table, ops[..k + 1], states + [y])
  {
    hide StoreStep;
    var more := states + [y];
    forall i | 0 <= i < k + 1 ensures StoreStep(fw, table, ops[..k + 1][i], more[i], more[i + 1]) {
      if i < k { assert StoreStep(fw, table, ops[..k][i], states[i], states[i + 1]); }
    }
  }

  lemma PrefixOfRun(fw: map<string, ColumnSpec>, table: string, ops: seq<DdlOp>, states: seq<Store>, k: nat)
    requires k <= |ops| && StoreRun(fw, table, ops, states)
    ensures StoreRun(fw, table, ops[..k], states[..k + 1])
  {
    hide StoreStep;
    forall i | 0 <= i < k ensures StoreStep(fw, table, ops[..k][i], states[..k + 1][i], states[..k + 1][i + 1]) {
      assert StoreStep(fw, table, ops[i], states[i], states[i + 1]);
    }
  }

  lemma {:induction false} RunsUpTo(
    fw: map<string, ColumnSpec>, d: Schema, x: Store, renames: seq<(string, string)>, ops: seq<DdlOp>, k: nat)
      returns (states: seq<Store>)
    requires Compiled(fw, d) && IsDiff(d, Introspect(fw, d.table, x), renames, ops) && Runs(fw, d, x, renames)
    requires k <= |ops|
    ensures StoreRun(fw, d.table, ops[..k], states) && states[0] == x
  {
    hide Compiled, IsDiff, Introspect, StoreStep, StoreEnabled, Runs;
    if k == 0 {
      states := [x];
    } else {
      states := RunsUpTo(fw, d, x, renames, ops, k - 1);
      TurnIsEnabledExactly(fw, d, renames, ops, states, k - 1);
      var y := EnabledCanStep(fw, d.table, ops[k - 1], states[k - 1]);
      ExtendRun(fw, d.table, ops, k - 1, states, y);
      states := states + [y];
    }
  }

  /** A pass can be run to its end if and only if the store before it has nothing to fill, or no row to fill, or no
      trigger in the way. */
  lemma PassRunsExactly(
    fw: map<string, ColumnSpec>, d: Schema, x: Store, renames: seq<(string, string)>, ops: seq<DdlOp>)
    requires Compiled(fw, d) && IsDiff(d, Introspect(fw, d.table, x), renames, ops)
    ensures Completes(fw, d.table, x, ops) <==> Runs(fw, d, x, renames)
  {
    hide Compiled, IsDiff, Introspect, StoreStep, Unhindered, AsksFill, Head;
    if Runs(fw, d, x, renames) {
      var states := RunsUpTo(fw, d, x, renames, ops, |ops|);
      assert ops[..|ops|] == ops;
    } else if Completes(fw, d.table, x, ops) {
      var states :| StoreRun(fw, d.table, ops, states) && states[0] == x;
      FillIsAsked(d, Introspect(fw, d.table, x), renames, ops);
      var k :| 0 <= k < |ops| && ops[k].BackfillColumn?;
      NoTurnForFill(fw, d, renames, ops, states, k);
    }
  }

  lemma NoTurnForFill(
    fw: map<string, ColumnSpec>, d: Schema, renames: seq<(string, string)>, ops: seq<DdlOp>, states: seq<Store>, k: nat)
    requires Compiled(fw, d) && StoreRun(fw, d.table, ops, states) && k < |ops| && ops[k].BackfillColumn?
    requires IsDiff(d, Introspect(fw, d.table, states[0]), renames, ops)
    ensures Runs(fw, d, states[0], renames)
  {
    hide Compiled, IsDiff, Introspect, Runs, Step, Writable, RowsIn;
    PrefixOfRun(fw, d.table, ops, states, k);
    TurnIsEnabledExactly(fw, d, renames, ops, states[..k + 1], k);
    assert StoreStep(fw, d.table, ops[k], states[k], states[k + 1]);
  }

  /** Without renames a trigger is in the way exactly when it names no column of the table and none that is desired. */
  lemma ClearAsItStands(
    fw: map<string, ColumnSpec>, d: Schema, x: Store, renames: seq<(string, string)>, ops: seq<DdlOp>)
    requires Compiled(fw, d) && x.table.Some? && IsDiff(d, Introspect(fw, d.table, x), renames, ops)
    requires forall op :: op in ops ==> !op.RenameColumn?
    ensures Clear(fw, d, x, renames) <==>
            forall f :: f in x.triggers ==> f in x.table.value.columns || f in d.columns
  {
    NoRenameEmitted(fw, d, x, renames, ops);
    hide IsDiff, Head, Ready;
    var a := Seen(fw, d, x, renames);
    forall n | n in d.columns && NeedsBackfill(d, a, n) ensures SourceOf(d, a, n) == n {
    }
  }

  /** A pass that emits no rename: it can be run to its end under exactly these conditions, and then leaves nothing to
      do. */
  lemma OnePassConverges(
    fw: map<string, ColumnSpec>, d: Schema, x: Store, renames: seq<(string, string)>, ops: seq<DdlOp>)
    requires Compiled(fw, d) && OwnedOrMissing(x.table) && IsDiff(d, Introspect(fw, d.table, x), renames, ops)
    requires forall op :: op in ops ==> !op.RenameColumn?
    ensures Completes(fw, d.table, x, ops) <==>
            (AsksFill(d, Seen(fw, d, x, renames)) && RowsIn(x) ==>
               forall f :: f in x.triggers ==> f in x.table.value.columns || f in d.columns)
    ensures Settles(fw, d, x, renames, ops)
  {
    hide Compiled, IsDiff, Introspect, StoreStep, Clear, AsksFill, Seen, Owned, Completes;
    PassRunsExactly(fw, d, x, renames, ops);
    if x.table.Some? { ClearAsItStands(fw, d, x, renames, ops); }
    forall states, again | StoreRun(fw, d.table, ops, states) && states[0] == x
                           && IsDiff(d, Introspect(fw, d.table, states[|ops|]), renames, again)
      ensures again == []
    {
      FullPassSettles(fw, d, renames, ops, states, again);
    }
  }

  // ---------------------------------------------------------------- a second pass

  /** What a full pass leaves: the columns Diff saw and every desired one, and its triggers beside those there were. */
  lemma EndOfPass(
    fw: map<string, ColumnSpec>, d: Schema, renames: seq<(string, string)>, ops: seq<DdlOp>, states: seq<Store>)
    requires Compiled(fw, d) && StoreRun(fw, d.table, ops, states)
    requires IsDiff(d, Introspect(fw, d.table, states[0]), renames, ops)
    ensures states[|ops|].table.Some?
    ensures forall n :: n in states[|ops|].table.value.columns
                        <==> n in Seen(fw, d, states[0], renames).columns || n in d.columns
    ensures forall f :: f in TriggersOf(states[|ops|])
                        <==> f in TriggersOf(states[0]) || Source(d, Seen(fw, d, states[0], renames), f)
  {
    hide After, Begins, IsRest, Compiled, Introspect, StoreStep, Source, Installs, Head, Describes, Step;
    var seen := Introspect(fw, d.table, states[0]);
    var (a, head) := Head(d, seen, renames);
    var h, end := |head|, |ops|;
    var rest := ops[h..];
    assert ops[..end] == ops && rest[..end - h] == rest;
    TablesRun(fw, d.table, ops, states);
    IntrospectionDescribes(fw, d.table, states[0]);
    var b := PastHead(fw, d, seen, renames, ops, Tables(states), end);
    AfterColumns(d, b, rest, states[end].table.value);
    forall n ensures n in states[end].table.value.columns <==> n in a.columns || n in d.columns {
      ColumnsAtEnd(fw, d, a, b, rest, states[end].table.value, n);
    }
    forall f ensures f in TriggersOf(states[end]) <==> f in TriggersOf(states[0]) || Source(d, a, f) {
      LedgerAt(fw, d.table, ops, states, end, "", f);
      InstallsPastHead(d, seen, renames, ops, end, f);
      TriggersAtEnd(d, a, rest, f);
    }
  }

  lemma ColumnsAtEnd(
    fw: map<string, ColumnSpec>, d: Schema, a: Schema, b: Schema, rest: seq<DdlOp>, s: Schema, n: string)
    requires Compiled(fw, d) && Begins(fw, a, b) && ColumnsAfter(d, b, rest, s) && IsRest(d, a, rest)
    ensures n in s.columns <==> n in a.columns || n in d.columns
  {
    hide Alike;
    if n in d.columns && n !in a.columns { assert Wanted(d, a, AddColumn(n, d.columns[n])); }
  }

  lemma TriggersAtEnd(d: Schema, a: Schema, rest: seq<DdlOp>, f: string)
    requires IsRest(d, a, rest)
    ensures Installs(rest, |rest|, f) <==> Source(d, a, f)
  {
    if Installs(rest, |rest|, f) {
      var k :| 0 <= k < |rest| && rest[k].AddSyncTrigger? && rest[k].field == f;
      assert rest[k] in rest;
      WantedTrigger(d, a, rest[k]);
    }
    if n :| n in d.columns && NeedsBackfill(d, a, n) && SourceOf(d, a, n) == f {
      var op := AddSyncTrigger(f, d.columns[n].sqlType);
      assert Wanted(d, a, op);
      var k :| 0 <= k < |rest| && rest[k] == op;
    }
  }

  /** With every desired column in place Diff sees the table as it is: it fills exactly what is not ready, from the
      field of the same name. */
  lemma SeenAsItIs(fw: map<string, ColumnSpec>, d: Schema, y: Store, renames: seq<(string, string)>)
    requires Compiled(fw, d) && y.table.Some? && forall n :: n in d.columns ==> n in y.table.value.columns
    ensures var a := Seen(fw, d, y, renames);
            && a.columns.Keys == y.table.value.columns.Keys
            && (AsksFill(d, a) <==> exists n :: n in d.columns && n !in fw && !Ready(d.table, y, n))
            && (forall f :: Source(d, a, f) ==> f in d.columns)
  {
    hide Ready;
    NothingLeftToRename(d, Introspect(fw, d.table, y).value, renames);
    var a := Seen(fw, d, y, renames);
    forall n | n in d.columns
      ensures NeedsBackfill(d, a, n) <==> n !in fw && !Ready(d.table, y, n)
      ensures NeedsBackfill(d, a, n) ==> SourceOf(d, a, n) == n
    {
    }
  }

  /** What can be checked before the first of two passes. */
  ghost predicate RunsTwice(
    fw: map<string, ColumnSpec>, d: Schema, x: Store, renames: seq<(string, string)>, ops: seq<DdlOp>)
  {
    Unhindered(fw, d, x, renames) || forall n :: n in d.columns && n !in fw ==> Covered(d, x, ops, n)
  }

  lemma SecondRunsExactly(
    fw: map<string, ColumnSpec>, d: Schema, renames: seq<(string, string)>, ops: seq<DdlOp>, states: seq<Store>)
    requires Compiled(fw, d) && StoreRun(fw, d.table, ops, states)
    requires IsDiff(d, Introspect(fw, d.table, states[0]), renames, ops)
    ensures Runs(fw, d, states[|ops|], renames) <==> RunsTwice(fw, d, states[0], renames, ops)
  {
    hide Compiled, IsDiff, Introspect, StoreStep, Seen, Source, Covered, Ready, RowsIn, TriggersOf, AsksFill;
    EndOfPass(fw, d, renames, ops, states);
    RowsAt(fw, d.table, ops, states, |ops|);
    var y := states[|ops|];
    SeenAsItIs(fw, d, y, renames);
    forall n ensures Ready(d.table, y, n) <==> Covered(d, states[0], ops, n) { ReadyIffCovered(fw, d, ops, states, n); }
  }

  /** The pass after a full pass can be run to its end if and only if, on the store before both, no trigger is in the
      way of a row or every synced column is covered. Once it has run there is nothing left to do. */
  lemma TwoPassesConverge(
    fw: map<string, ColumnSpec>, d: Schema, renames: seq<(string, string)>, ops: seq<DdlOp>, states: seq<Store>,
    next: seq<DdlOp>)
    requires Compiled(fw, d) && StoreRun(fw, d.table, ops, states) && OwnedOrMissing(states[0].table)
    requires IsDiff(d, Introspect(fw, d.table, states[0]), renames, ops)
    requires IsDiff(d, Introspect(fw, d.table, states[|ops|]), renames, next)
    ensures Completes(fw, d.table, states[|ops|], next) <==> RunsTwice(fw, d, states[0], renames, ops)
    ensures Settles(fw, d, states[|ops|], renames, next)
  {
    hide Compiled, IsDiff, Introspect, StoreStep, Runs, RunsTwice, Completes, Owned;
    PassRunsExactly(fw, d, states[|ops|], renames, next);
    SecondRunsExactly(fw, d, renames, ops, states);
    forall more, again | StoreRun(fw, d.table, next, more) && more[0] == states[|ops|]
                         && IsDiff(d, Introspect(fw, d.table, more[|next|]), renames, again)
      ensures again == []
    {
      TwoFullPassesSettle(fw, d, renames, ops, states, next, more, again);
    }
  }

  /** The pass runs to its end, and however it does, the next one does too and leaves nothing to do. */
  ghost predicate Converges(
    fw: map<string, ColumnSpec>, d: Schema, x: Store, renames: seq<(string, string)>, ops: seq<DdlOp>)
  {
    && Completes(fw, d.table, x, ops)
    && forall states, next ::
         (StoreRun(fw, d.table, ops, states) && states[0] == x
          && IsDiff(d, Introspect(fw, d.table, states[|ops|]), renames, next))
         ==> Completes(fw, d.table, states[|ops|], next) && Settles(fw, d, states[|ops|], renames, next)
  }

  /** Two passes run to their end and leave nothing to do if and only if, on the store before them, no trigger is in the
      way of a row, or there is nothing to fill and every synced column is covered. */
  lemma ConvergesExactly(
    fw: map<string, ColumnSpec>, d: Schema, x: Store, renames: seq<(string, string)>, ops: seq<DdlOp>)
    requires Compiled(fw, d) && OwnedOrMissing(x.table) && IsDiff(d, Introspect(fw, d.table, x), renames, ops)
    ensures Converges(fw, d, x, renames, ops) <==> Runs(fw, d, x, renames) && RunsTwice(fw, d, x, renames, ops)
  {
    hide Compiled, IsDiff, Introspect, StoreStep, Runs, RunsTwice, Owned, Settles;
    PassRunsExactly(fw, d, x, renames, ops);
    forall states, next | StoreRun(fw, d.table, ops, states) && states[0] == x
                          && IsDiff(d, Introspect(fw, d.table, states[|ops|]), renames, next)
      ensures Completes(fw, d.table, states[|ops|], next) <==> RunsTwice(fw, d, x, renames, ops)
      ensures Settles(fw, d, states[|ops|], renames, next)
    {
      TwoPassesConverge(fw, d, renames, ops, states, next);
    }
    if Converges(fw, d, x, renames, ops) {
      var states :| StoreRun(fw, d.table, ops, states) && states[0] == x;
      var next := DiffExists(d, Introspect(fw, d.table, states[|ops|]), renames);
      assert Completes(fw, d.table, states[|ops|], next);
    }
  }
}
