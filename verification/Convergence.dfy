/** What a reconcile pass that runs to its end leaves for the next one, what a crash leaves, and that no column is
    lost. Which passes do run to their end is in `Progress`. */
module Convergence {
  import opened Prelude
  import opened PhysicalSchema
  import opened SchemaDiff
  import opened Reconcile
  import opened Introspection

  // ---------------------------------------------------------------- cutting a run at the end of its head

  lemma {:induction false} RenamedKeeps(d: Schema, copy: Schema, renames: seq<(string, string)>)
    ensures Renamed(d, copy, renames).0.(columns := copy.columns) == copy
    decreases |renames|
  {
    if |renames| > 0 {
      var (from, to) := renames[0];
      if to in copy.columns || from !in copy.columns || to !in d.columns {
        RenamedKeeps(d, copy, renames[1..]);
      } else {
        RenamedKeeps(d, Move(copy, from, to), renames[1..]);
      }
    }
  }

  predicate OwnedOrMissing(s: Option<Schema>) { s.Some? ==> Owned(s.value) }

  lemma HeadOwned(d: Schema, actual: Option<Schema>, renames: seq<(string, string)>)
    requires OwnedOrMissing(actual)
    ensures Owned(Head(d, actual, renames).0)
  {
    var base := match actual { case Some(s) => s case None => EmptySchema(d.table) };
    RenamedKeeps(d, base, renames);
  }

  lemma SplitRun(fw: map<string, ColumnSpec>, table: string, ops: seq<DdlOp>, states: seq<Option<Schema>>, h: nat)
    requires Run(fw, table, ops, states) && h <= |ops|
    ensures Run(fw, table, ops[..h], states[..h + 1]) && Run(fw, table, ops[h..], states[h..])
  {
    hide Step;
    forall i | 0 <= i < h ensures Step(fw, table, ops[..h][i], states[..h + 1][i], states[..h + 1][i + 1]) {
      assert Step(fw, table, ops[i], states[i], states[i + 1]);
    }
    forall i | 0 <= i < |ops| - h ensures Step(fw, table, ops[h..][i], states[h..][i], states[h..][i + 1]) {
      assert Step(fw, table, ops[h + i], states[h + i], states[h + i + 1]);
    }
  }

  /** A prefix of a pass that got past its head, as a prefix of the rest. */
  lemma PastHead(
    fw: map<string, ColumnSpec>, d: Schema, actual: Option<Schema>, renames: seq<(string, string)>, ops: seq<DdlOp>,
    states: seq<Option<Schema>>, k: nat) returns (b: Schema)
    requires Compiled(fw, d) && IsDiff(d, actual, renames, ops) && k <= |ops|
    requires Run(fw, d.table, ops[..k], states) && Describes(actual, states[0])
    requires |Head(d, actual, renames).1| <= k
    ensures var (a, head) := Head(d, actual, renames);
            var rest := ops[|head|..];
            && states[|head|] == Some(b) && Begins(fw, a, b)
            && states[k].Some? && After(d, b, rest[..k - |head|], states[k].value)
            && (k < |ops| ==> Enabled(ops[k], states[k]))
  {
    hide After, Begins, Compiled, IsRest, Head;
    var (a, head) := Head(d, actual, renames);
    var h := |head|;
    var rest := ops[h..];
    SplitRun(fw, d.table, ops[..k], states, h);
    assert ops[..k][..h] == head;
    HeadRun(fw, d, actual, renames, states[..h + 1]);
    b := states[h].value;
    assert ops[..k][h..] == rest[..k - h];
    RestRun(fw, d, a, b, rest, states[h..], k - h);
  }

  // ---------------------------------------------------------------- when one pass is enough

  /** The pass leaves every synced column ready, and what it keeps still matches after the renames. `begin` is the
      table after the renames. */
  ghost predicate KeepsPace(
    fw: map<string, ColumnSpec>, d: Schema, x: Store, renames: seq<(string, string)>, ops: seq<DdlOp>, begin: Schema)
  {
    var a := Head(d, Introspect(fw, d.table, x), renames).0;
    && (forall n :: n in d.columns && n !in fw ==> Covered(d, x, ops, n))
    && (forall n :: n in d.indexes ==> KeptIndexMatches(d, a, begin, n))
    && (forall n :: n in d.foreignKeys ==> KeptFkMatches(d, a, begin, n))
  }

  /** The table when the renames of a pass are done. */
  function BeginOf(
    fw: map<string, ColumnSpec>, d: Schema, renames: seq<(string, string)>, states: seq<Store>): Option<Schema>
    requires |states| > 0
  {
    var h := |Head(d, Introspect(fw, d.table, states[0]), renames).1|;
    if h < |states| then states[h].table else None
  }

  lemma IntrospectedOwned(fw: map<string, ColumnSpec>, table: string, x: Store)
    ensures OwnedOrMissing(Introspect(fw, table, x)) <==> OwnedOrMissing(x.table)
  {
  }

  lemma PassReaches(
    fw: map<string, ColumnSpec>, d: Schema, renames: seq<(string, string)>, ops: seq<DdlOp>, states: seq<Store>)
    requires Compiled(fw, d) && StoreRun(fw, d.table, ops, states) && OwnedOrMissing(states[0].table)
    requires IsDiff(d, Introspect(fw, d.table, states[0]), renames, ops)
    ensures BeginOf(fw, d, renames, states).Some? && states[|ops|].table.Some?
    ensures Reached(d, Head(d, Introspect(fw, d.table, states[0]), renames).0, BeginOf(fw, d, renames, states).value,
            states[|ops|].table.value)
  {
    hide After, Begins, IsRest, Step, Compiled, Introspect, Owned, Reached, Describes, StoreStep;
    var seen := Introspect(fw, d.table, states[0]);
    var (a, head) := Head(d, seen, renames);
    TablesRun(fw, d.table, ops, states);
    assert ops[..|ops|] == ops;
    IntrospectionDescribes(fw, d.table, states[0]);
    var b := PastHead(fw, d, seen, renames, ops, Tables(states), |ops|);
    var rest := ops[|head|..];
    assert rest[..|ops| - |head|] == rest;
    IntrospectedOwned(fw, d.table, states[0]);
    HeadOwned(d, seen, renames);
    RestReaches(fw, d, a, b, rest, states[|ops|].table.value);
  }

  lemma ReachedAndReadyIsSettled(fw: map<string, ColumnSpec>, d: Schema, a: Schema, b: Schema, x: Store)
    requires Compiled(fw, d) && x.table.Some? && Reached(d, a, b, x.table.value)
    ensures Settled(d, Introspect(fw, d.table, x).value) <==>
            && (forall n :: n in d.columns && n !in fw ==> Ready(d.table, x, n))
            && (forall n :: n in d.indexes ==> KeptIndexMatches(d, a, b, n))
            && (forall n :: n in d.foreignKeys ==> KeptFkMatches(d, a, b, n))
  {
    hide IndexMatches, FkMatches, KeptIndexMatches, KeptFkMatches, Ready;
    var f := Introspect(fw, d.table, x).value;
    assert forall n :: n in d.columns ==>
      n in f.columns && (NeedsBackfill(d, f, n) <==> n !in fw && !Ready(d.table, x, n));
  }

  /** The exact condition: applying the operations of a Diff in order leaves nothing for the next Diff, with the same
      renames, if and only if the pass keeps pace with its own renames. */
  lemma OnePassSettlesExactly(
    fw: map<string, ColumnSpec>, d: Schema, renames: seq<(string, string)>, ops: seq<DdlOp>, states: seq<Store>,
    again: seq<DdlOp>)
    requires Compiled(fw, d) && StoreRun(fw, d.table, ops, states) && OwnedOrMissing(states[0].table)
    requires IsDiff(d, Introspect(fw, d.table, states[0]), renames, ops)
    requires IsDiff(d, Introspect(fw, d.table, states[|ops|]), renames, again)
    ensures BeginOf(fw, d, renames, states).Some?
    ensures again == [] <==> KeepsPace(fw, d, states[0], renames, ops, BeginOf(fw, d, renames, states).value)
  {
    hide Covered, IsRest, StoreStep, Head, KeptIndexMatches, KeptFkMatches, Ready, Settled, Owned;
    PassReaches(fw, d, renames, ops, states);
    var a, b := Head(d, Introspect(fw, d.table, states[0]), renames).0, BeginOf(fw, d, renames, states).value;
    ReachedAndReadyIsSettled(fw, d, a, b, states[|ops|]);
    DiffIsEmptyIffSettled(d, Introspect(fw, d.table, states[|ops|]).value, renames, again);
    forall n ensures Ready(d.table, states[|ops|], n) <==> Covered(d, states[0], ops, n) {
      ReadyIffCovered(fw, d, ops, states, n);
    }
  }

  /** No index text of the table may speak of the column, and no foreign key is on it. */
  predicate Unused(s: Schema, column: string) {
    && (forall n :: n in s.indexes ==> !Mentions(s.indexes[n], column))
    && (forall n :: n in s.foreignKeys ==> s.foreignKeys[n].column != column)
  }

  lemma {:induction false} RenamesLeaveTexts(
    fw: map<string, ColumnSpec>, table: string, ops: seq<DdlOp>, states: seq<Option<Schema>>, i: nat)
    requires Run(fw, table, ops, states) && i <= |ops| && states[0].Some?
    requires forall k :: 0 <= k < i ==> ops[k].RenameColumn? && Unused(states[0].value, ops[k].from)
    ensures states[i].Some? && states[i].value.indexes == states[0].value.indexes
    ensures states[i].value.foreignKeys == states[0].value.foreignKeys
  {
    hide Mentions;
    if i > 0 {
      RenamesLeaveTexts(fw, table, ops, states, i - 1);
      assert Step(fw, table, ops[i - 1], states[i - 1], states[i - 1 + 1]);
    }
  }

  /** What can be checked before the pass: when the table does not use the columns it renames in an index or a foreign
      key, the pass settles if and only if it covers every synced column. */
  lemma UnusedRenamesKeepPace(
    fw: map<string, ColumnSpec>, d: Schema, renames: seq<(string, string)>, ops: seq<DdlOp>, states: seq<Store>)
    requires StoreRun(fw, d.table, ops, states) && IsDiff(d, Introspect(fw, d.table, states[0]), renames, ops)
    requires states[0].table.Some? ==>
               forall k :: 0 <= k < |ops| && ops[k].RenameColumn? ==> Unused(states[0].table.value, ops[k].from)
    requires BeginOf(fw, d, renames, states).Some?
    ensures KeepsPace(fw, d, states[0], renames, ops, BeginOf(fw, d, renames, states).value)
            <==> forall n :: n in d.columns && n !in fw ==> Covered(d, states[0], ops, n)
  {
    hide Covered, IsRest, StoreStep, Mentions, Unused, IndexMatches, FkMatches, Renamed, Step;
    var seen := Introspect(fw, d.table, states[0]);
    var (a, head) := Head(d, seen, renames);
    match seen {
      case Some(s) =>
        RenamedKeeps(d, s, renames);
        RenamesOnly(d, s, renames);
        forall k | 0 <= k < |head| ensures ops[k].RenameColumn? { assert ops[..|head|][k] in head; }
        TablesRun(fw, d.table, ops, states);
        RenamesLeaveTexts(fw, d.table, ops, Tables(states), |head|);
      case None => NothingToRename(d, EmptySchema(d.table), renames);
    }
  }

  lemma NoRenameEmitted(
    fw: map<string, ColumnSpec>, d: Schema, x: Store, renames: seq<(string, string)>, ops: seq<DdlOp>)
    requires IsDiff(d, Introspect(fw, d.table, x), renames, ops) && forall op :: op in ops ==> !op.RenameColumn?
    ensures var (a, head) := Head(d, Introspect(fw, d.table, x), renames);
            match Introspect(fw, d.table, x) { case Some(s) => a == s && head == [] case None =>
              a == EmptySchema(d.table) && head == [CreateTable] }
  {
    var seen := Introspect(fw, d.table, x);
    var head := Head(d, seen, renames).1;
    forall k | 0 <= k < |head| ensures !head[k].RenameColumn? { assert ops[..|head|][k] in ops; }
    match seen
    case Some(s) => RenamesOrNothing(d, s, renames);
    case None => NothingToRename(d, EmptySchema(d.table), renames);
  }

  lemma {:induction false} RenamesOrNothing(d: Schema, copy: Schema, renames: seq<(string, string)>)
    ensures var (s, ops) := Renamed(d, copy, renames); (|ops| > 0 && ops[0].RenameColumn?) || (s == copy && ops == [])
    decreases |renames|
  {
    if |renames| > 0 {
      var (from, to) := renames[0];
      if to in copy.columns || from !in copy.columns || to !in d.columns { RenamesOrNothing(d, copy, renames[1..]); }
    }
  }

  lemma WithoutRenamesKeepsPace(
    fw: map<string, ColumnSpec>, d: Schema, renames: seq<(string, string)>, ops: seq<DdlOp>, states: seq<Store>)
    requires Compiled(fw, d) && StoreRun(fw, d.table, ops, states) && BeginOf(fw, d, renames, states).Some?
    requires IsDiff(d, Introspect(fw, d.table, states[0]), renames, ops) && forall op :: op in ops ==> !op.RenameColumn?
    ensures KeepsPace(fw, d, states[0], renames, ops, BeginOf(fw, d, renames, states).value)
  {
    hide Covered, IsRest, IndexMatches, FkMatches;
    NoRenameEmitted(fw, d, states[0], renames, ops);
    forall n | n in d.columns && n !in fw ensures Covered(d, states[0], ops, n) {
      if !Covered(d, states[0], ops, n) {
        var k := UncoveredIsRenamed(fw, d, states[0], renames, ops, n);
      }
    }
  }

  /** A pass that emits no rename and runs to its end settles. */
  lemma FullPassSettles(
    fw: map<string, ColumnSpec>, d: Schema, renames: seq<(string, string)>, ops: seq<DdlOp>, states: seq<Store>,
    again: seq<DdlOp>)
    requires Compiled(fw, d) && StoreRun(fw, d.table, ops, states) && OwnedOrMissing(states[0].table)
    requires IsDiff(d, Introspect(fw, d.table, states[0]), renames, ops) && forall op :: op in ops ==> !op.RenameColumn?
    requires IsDiff(d, Introspect(fw, d.table, states[|ops|]), renames, again)
    ensures again == []
  {
    hide IsDiff, KeepsPace, BeginOf, StoreStep, Compiled, Owned, Introspect;
    OnePassSettlesExactly(fw, d, renames, ops, states, again);
    WithoutRenamesKeepsPace(fw, d, renames, ops, states);
  }

  /** After a full pass every desired column is there, so the next one emits no rename. */
  lemma NextPassHasNoRename(
    fw: map<string, ColumnSpec>, d: Schema, renames: seq<(string, string)>, ops: seq<DdlOp>, states: seq<Store>,
    next: seq<DdlOp>)
    requires Compiled(fw, d) && StoreRun(fw, d.table, ops, states) && OwnedOrMissing(states[0].table)
    requires IsDiff(d, Introspect(fw, d.table, states[0]), renames, ops)
    requires IsDiff(d, Introspect(fw, d.table, states[|ops|]), renames, next)
    ensures OwnedOrMissing(states[|ops|].table) && forall op :: op in next ==> !op.RenameColumn?
  {
    hide StoreStep, Head, KeptIndexMatches, KeptFkMatches;
    PassReaches(fw, d, renames, ops, states);
    var f := Introspect(fw, d.table, states[|ops|]).value;
    AllPresentNoRename(d, f, renames, next);
  }

  lemma AllPresentNoRename(d: Schema, f: Schema, renames: seq<(string, string)>, ops: seq<DdlOp>)
    requires (forall n :: n in d.columns ==> n in f.columns) && IsDiff(d, Some(f), renames, ops)
    ensures forall op :: op in ops ==> !op.RenameColumn?
  {
    NothingLeftToRename(d, f, renames);
    assert ops[0..] == ops;
  }

  /** Whatever the renames are, two passes that run to their end settle. */
  lemma TwoFullPassesSettle(
    fw: map<string, ColumnSpec>, d: Schema, renames: seq<(string, string)>, ops: seq<DdlOp>, states: seq<Store>,
    ops': seq<DdlOp>, states': seq<Store>, again: seq<DdlOp>)
    requires Compiled(fw, d) && StoreRun(fw, d.table, ops, states) && OwnedOrMissing(states[0].table)
    requires IsDiff(d, Introspect(fw, d.table, states[0]), renames, ops)
    requires StoreRun(fw, d.table, ops', states') && states'[0] == states[|ops|]
    requires IsDiff(d, Introspect(fw, d.table, states'[0]), renames, ops')
    requires IsDiff(d, Introspect(fw, d.table, states'[|ops'|]), renames, again)
    ensures again == []
  {
    hide IsDiff, StoreStep, Compiled, Owned, Introspect;
    NextPassHasNoRename(fw, d, renames, ops, states, ops');
    FullPassSettles(fw, d, renames, ops', states', again);
  }

  // ---------------------------------------------------------------- a rename that falls behind

  lemma RenameIsAll(fw: map<string, ColumnSpec>, d: Schema, x: Store, from: string, to: string)
    requires x.table.Some? && from in x.table.value.columns && from !in fw && Ready(d.table, x, from)
    requires to in d.columns && to !in x.table.value.columns
    ensures var (a, head) := Head(d, Introspect(fw, d.table, x), [(from, to)]);
            head == [RenameColumn(from, to)] && !NeedsBackfill(d, a, to)
  {
    hide Ready;
    var seen := Introspect(fw, d.table, x).value;
    assert [(from, to)][1..] == [];
    assert Renamed(d, Move(seen, from, to), []) == (Move(seen, from, to), []);
  }

  lemma UnreadyIsFilled(
    fw: map<string, ColumnSpec>, d: Schema, y: Store, renames: seq<(string, string)>, n: string, ops: seq<DdlOp>)
    requires y.table.Some? && n in y.table.value.columns && n in d.columns && n !in fw && !Ready(d.table, y, n)
    requires Renamed(d, Introspect(fw, d.table, y).value, renames).1 == []
    requires Renamed(d, Introspect(fw, d.table, y).value, renames).0 == Introspect(fw, d.table, y).value
    requires IsDiff(d, Introspect(fw, d.table, y), renames, ops)
    ensures AddSyncTrigger(n, d.columns[n].sqlType) in ops
    ensures BackfillColumn(BackfillOpId(d.table, n), n, n, d.columns[n].sqlType) in ops
  {
    hide Ready, Renamed;
    var seen := Introspect(fw, d.table, y).value;
    assert Wanted(d, seen, AddSyncTrigger(n, d.columns[n].sqlType));
    assert Wanted(d, seen, BackfillColumn(BackfillOpId(d.table, n), n, n, d.columns[n].sqlType));
    assert ops[0..] == ops;
  }

  /** Renaming a column whose backfill is complete: the pass that renames it does nothing more for it, and the next
      one installs a trigger and fills the column all over again, because ledger and trigger are kept under names. */
  lemma RenameUndoesBackfill(
    fw: map<string, ColumnSpec>, d: Schema, x: Store, from: string, to: string, y: Store, again: seq<DdlOp>)
    requires x.table.Some? && from in x.table.value.columns && from !in fw && Ready(d.table, x, from)
    requires to in d.columns && to !in fw && to !in x.table.value.columns && !Ready(d.table, x, to)
    requires StoreStep(fw, d.table, RenameColumn(from, to), x, y)
             && IsDiff(d, Introspect(fw, d.table, y), [(from, to)], again)
    ensures var (a, head) := Head(d, Introspect(fw, d.table, x), [(from, to)]);
            head == [RenameColumn(from, to)] && !NeedsBackfill(d, a, to)
    ensures AddSyncTrigger(to, d.columns[to].sqlType) in again
    ensures BackfillColumn(BackfillOpId(d.table, to), to, to, d.columns[to].sqlType) in again
  {
    RenameIsAll(fw, d, x, from, to);
    hide Ready, NeedsBackfill, IsRest;
    SameLedger(d.table, x, y, to);
    var after := Introspect(fw, d.table, y).value;
    assert to in after.columns && [(from, to)][1..] == [];
    assert Renamed(d, after, []) == (after, []);
    UnreadyIsFilled(fw, d, y, [(from, to)], to, again);
  }

  /** One synced column `old`, complete, and a desired schema that calls it `new`: the pass is the rename alone. */
  lemma OldIsRenamed(rows: bool)
    ensures Compiled(map[], NewSchema()) && OwnedOrMissing(OldStore(rows).table)
    ensures Ready("t", OldStore(rows), "old") && !Ready("t", OldStore(rows), "new")
    ensures "new" !in OldStore(rows).table.value.columns
    ensures IsDiff(NewSchema(), Introspect(map[], "t", OldStore(rows)), [("old", "new")], [RenameColumn("old", "new")])
  {
    assert "new"[0] == 'n' && "old"[0] == 'o';
    var d, x := NewSchema(), OldStore(rows);
    RenameIsAll(map[], d, x, "old", "new");
    var (a, head) := Head(d, Introspect(map[], "t", x), [("old", "new")]);
    assert [RenameColumn("old", "new")][|head|..] == [];
    hide Ready, NeedsBackfill;
    forall op ensures !Wanted(d, a, op) { NothingWantedBeside(op, a); }
  }

  /** That pass leaves work for the next one. */
  lemma RenamedColumnExample(rows: bool, y: Store, again: seq<DdlOp>)
    requires StoreStep(map[], "t", RenameColumn("old", "new"), OldStore(rows), y)
    requires IsDiff(NewSchema(), Introspect(map[], "t", y), [("old", "new")], again)
    ensures again != []
  {
    hide Ready, IsDiff, StoreStep, Introspect, Compiled;
    OldIsRenamed(rows);
    RenameUndoesBackfill(map[], NewSchema(), OldStore(rows), "old", "new", y, again);
  }

  function OneColumn(name: string): Schema {
    Schema("t", map[name := ColumnSpec("text", true, Generated(name, true))], map[], map[], map[])
  }

  function NewSchema(): Schema { OneColumn("new") }

  function OldStore(rows: bool): Store { Store(Some(OneColumn("old")), {BackfillOpId("t", "old")}, {"old"}, rows) }

  lemma NothingWantedBeside(op: DdlOp, a: Schema)
    requires a.columns.Keys == {"new"} && !NeedsBackfill(NewSchema(), a, "new")
    requires a.indexes == map[] && a.foreignKeys == map[] && a.uniques == map[]
    ensures !Wanted(NewSchema(), a, op)
  {
  }

  lemma SameLedger(table: string, x: Store, y: Store, n: string)
    requires x.completed == y.completed && TriggersOf(x) == TriggersOf(y)
    ensures Ready(table, x, n) == Ready(table, y, n)
  {
  }

  // ---------------------------------------------------------------- every operation is enabled at its turn

  lemma {:induction false} RenamesEnabled(
    fw: map<string, ColumnSpec>, d: Schema, copy: Schema, renames: seq<(string, string)>, states: seq<Option<Schema>>,
    k: nat)
    requires k < |Renamed(d, copy, renames).1| && Run(fw, d.table, Renamed(d, copy, renames).1[..k], states)
    requires Describes(Some(copy), states[0])
    ensures Enabled(Renamed(d, copy, renames).1[k], states[k])
    ensures states[k].Some? && (Owned(states[0].value) ==> Owned(states[k].value))
    decreases |renames|
  {
    hide Alike, Owned, RenamedInPlace;
    var ops := Renamed(d, copy, renames).1;
    if |renames| > 0 {
      var (from, to) := renames[0];
      if to in copy.columns || from !in copy.columns || to !in d.columns {
        RenamesEnabled(fw, d, copy, renames[1..], states, k);
      } else if k > 0 {
        var next := Move(copy, from, to);
        assert ops[1..] == Renamed(d, next, renames[1..]).1;
        assert ops[0] == RenameColumn(from, to);
        assert Step(fw, d.table, ops[..k][0], states[0], states[1]);
        RenameKeepsAlike(copy, states[0].value, from, to, states[1].value);
        RenameKeepsOwned(from, to, states[0].value, states[1].value);
        TailRun(fw, d.table, ops[..k], states);
        assert ops[..k][1..] == ops[1..][..k - 1];
        RenamesEnabled(fw, d, next, renames[1..], states[1..], k - 1);
      }
    }
  }

  lemma RenameKeepsOwned(from: string, to: string, s: Schema, t: Schema)
    requires from in s.columns && RenamedInPlace(from, to, s, t)
    ensures Owned(s) ==> Owned(t)
  {
  }

  lemma HeadEnabled(
    fw: map<string, ColumnSpec>, d: Schema, actual: Option<Schema>, renames: seq<(string, string)>,
    states: seq<Option<Schema>>, k: nat)
    requires k < |Head(d, actual, renames).1| && Run(fw, d.table, Head(d, actual, renames).1[..k], states)
             && Describes(actual, states[0])
    ensures Enabled(Head(d, actual, renames).1[k], states[k])
    ensures OwnedOrMissing(states[0]) ==> OwnedOrMissing(states[k])
  {
    match actual
    case Some(s) => RenamesEnabled(fw, d, s, renames, states, k);
    case None => NothingToRename(d, EmptySchema(d.table), renames);
  }

  /** In topoSort order the schema allows each operation when its turn comes: names are free where something is
      created, foreign keys find their column, and no index is dropped under a live constraint. */
  lemma EveryOpIsEnabled(
    fw: map<string, ColumnSpec>, d: Schema, actual: Option<Schema>, renames: seq<(string, string)>, ops: seq<DdlOp>,
    states: seq<Option<Schema>>, k: nat)
    requires Compiled(fw, d) && IsDiff(d, actual, renames, ops) && k < |ops|
    requires Run(fw, d.table, ops[..k], states) && Describes(actual, states[0])
    ensures Enabled(ops[k], states[k])
  {
    hide Compiled, IsRest, Head, Enabled, Run, Describes;
    var (a, head) := Head(d, actual, renames);
    if k < |head| {
      assert ops[..k] == head[..k] && ops[k] == head[k];
      HeadEnabled(fw, d, actual, renames, states, k);
    } else {
      var b := PastHead(fw, d, actual, renames, ops, states, k);
    }
  }

  function RenamedTable(s: Schema, from: string, to: string): Schema
    requires from in s.columns
  {
    Move(s, from, to).(foreignKeys := map n | n in s.foreignKeys ::
      if s.foreignKeys[n].column == from then s.foreignKeys[n].(column := to) else s.foreignKeys[n])
  }

  /** An operation the schema allows has an outcome. */
  lemma EnabledCanRun(fw: map<string, ColumnSpec>, table: string, op: DdlOp, s: Option<Schema>)
      returns (t: Option<Schema>)
    requires Enabled(op, s)
    ensures Step(fw, table, op, s, t)
  {
    if op.CreateTable? {
      t := Some(EmptySchema(table));
    } else {
      var c := s.value;
      match op
      case RenameColumn(from, to) => t := Some(RenamedTable(c, from, to));
      case AddColumn(n, spec) => t := Some(if n in c.columns then c else c.(columns := c.columns[n := spec]));
      case AddSyncTrigger(_, _) => t := s;
      case BackfillColumn(_, n, _, _) => t := s;
      case DropForeignKey(n) => t := Some(c.(foreignKeys := c.foreignKeys - {n}));
      case DropUnique(n) => t := Some(c.(uniques := c.uniques - {n}, indexes := c.indexes - {n}));
      case DropIndex(n) => t := Some(c.(indexes := c.indexes - {n}));
      case CreateIndex(n, spec) => t := Some(c.(indexes := c.indexes[n := spec.(valid := true)]));
      case AddUnique(n, spec) =>
        t := Some(c.(uniques := c.uniques[n := spec], indexes := c.indexes[n := IndexSpec("", true, "", true, "")]));
      case AddForeignKey(n, spec) => t := Some(c.(foreignKeys := c.foreignKeys[n := spec.(validated := false)]));
      case ValidateForeignKey(n) =>
        t := Some(c.(foreignKeys := c.foreignKeys[n := c.foreignKeys[n].(validated := true)]));
    }
  }

  // ---------------------------------------------------------------- crashes

  lemma PrefixHas(ops: seq<DdlOp>, i: nat, u: nat)
    requires i <= |ops| && u < |ops|
    ensures u < i ==> ops[u] in ops[..i]
  {
    if u < i { assert ops[..i][u] == ops[u]; }
  }

  /** If an index of a constraint's name was dropped or rebuilt, the constraint went before it. */
  lemma ConstraintGoesFirst(d: Schema, a: Schema, rest: seq<DdlOp>, i: nat, n: string)
    requires IsRest(d, a, rest) && i <= |rest| && d.uniques == map[] && n in a.uniques && DropUnique(n) !in rest[..i]
    ensures DropIndex(n) !in rest[..i] && !Built(d, rest[..i], n)
  {
    assert Wanted(d, a, DropUnique(n));
    var u :| 0 <= u < |rest| && rest[u] == DropUnique(n);
    PrefixHas(rest, i, u);
    forall k | 0 <= k < i ensures Rank(rest[..i][k]) <= 6 {
      assert Rank(rest[k]) <= Rank(rest[u]);
    }
  }

  lemma OwnedAfter(fw: map<string, ColumnSpec>, d: Schema, a: Schema, b: Schema, rest: seq<DdlOp>, i: nat, s: Schema)
    requires d.uniques == map[] && Owned(a) && Begins(fw, a, b) && IsRest(d, a, rest) && i <= |rest|
             && After(d, b, rest[..i], s)
    ensures Owned(s)
  {
    hide ColumnsAfter, FksAfter, Wanted, IndexMatches;
    forall n | n in s.uniques ensures n in s.indexes && s.indexes[n].unique && s.indexes[n].where == "" {
      ConstraintGoesFirst(d, a, rest, i, n);
      assert Kept(b, rest[..i], n);
    }
  }

  lemma InterruptionKeepsOwned(op: DdlOp, s: Option<Schema>, t: Option<Schema>)
    requires OwnedOrMissing(s) && Enabled(op, s) && Interrupted(op, s, t)
    ensures OwnedOrMissing(t)
  {
  }

  /** After any prefix of the operations, even cut short inside the next one, constraints still own their indexes. */
  lemma CrashLeavesOwned(
    fw: map<string, ColumnSpec>, d: Schema, actual: Option<Schema>, renames: seq<(string, string)>, ops: seq<DdlOp>,
    states: seq<Option<Schema>>, k: nat, crashed: Option<Schema>)
    requires Compiled(fw, d) && OwnedOrMissing(actual) && IsDiff(d, actual, renames, ops) && k < |ops|
    requires Run(fw, d.table, ops[..k], states) && Describes(actual, states[0]) && OwnedOrMissing(states[0])
    requires Interrupted(ops[k], states[k], crashed)
    ensures OwnedOrMissing(crashed)
  {
    hide Compiled, IsRest, Head, Enabled, Step, After, Begins, Interrupted, Owned, Describes;
    CompiledHasNoUniques(fw, d);
    EveryOpIsEnabled(fw, d, actual, renames, ops, states, k);
    var (a, head) := Head(d, actual, renames);
    if k < |head| {
      assert ops[..k] == head[..k];
      HeadEnabled(fw, d, actual, renames, states, k);
    } else {
      var b := PastHead(fw, d, actual, renames, ops, states, k);
      HeadOwned(d, actual, renames);
      OwnedAfter(fw, d, a, b, ops[|head|..], k - |head|, states[k].value);
    }
    InterruptionKeepsOwned(ops[k], states[k], crashed);
  }

  lemma CompiledHasNoUniques(fw: map<string, ColumnSpec>, d: Schema)
    requires Compiled(fw, d)
    ensures d.uniques == map[]
  {
  }

  lemma CrashedStoreIsOwned(
    fw: map<string, ColumnSpec>, d: Schema, renames: seq<(string, string)>, ops: seq<DdlOp>, states: seq<Store>, k: nat,
    crashed: Store)
    requires |states| > 0 && Compiled(fw, d) && OwnedOrMissing(states[0].table) && k < |ops|
    requires IsDiff(d, Introspect(fw, d.table, states[0]), renames, ops)
    requires StoreRun(fw, d.table, ops[..k], states) && StoreInterrupted(ops[k], states[k], crashed)
    ensures OwnedOrMissing(crashed.table)
  {
    hide Compiled, IsDiff, StoreStep, Interrupted, Owned, Introspect, Step, Describes;
    TablesRun(fw, d.table, ops[..k], states);
    IntrospectionDescribes(fw, d.table, states[0]);
    IntrospectedOwned(fw, d.table, states[0]);
    CrashLeavesOwned(fw, d, Introspect(fw, d.table, states[0]), renames, ops, Tables(states), k, crashed.table);
  }

  // ---------------------------------------------------------------- no column is lost

  function NameAfter(ops: seq<DdlOp>, n: string): string
    decreases |ops|
  {
    if |ops| == 0 then n
    else NameAfter(ops[1..], if ops[0].RenameColumn? && ops[0].from == n then ops[0].to else n)
  }

  lemma StepKeepsColumn(fw: map<string, ColumnSpec>, table: string, op: DdlOp, s: Schema, t: Schema, n: string)
    requires Step(fw, table, op, Some(s), Some(t)) && n in s.columns
    ensures var m := if op.RenameColumn? && op.from == n then op.to else n;
            m in t.columns && t.columns[m] == s.columns[n]
  {
  }

  /** Over any run of operations every original column survives under its own or a renamed name, with its type. */
  lemma {:induction false} NoColumnIsLost(
    fw: map<string, ColumnSpec>, table: string, ops: seq<DdlOp>, states: seq<Option<Schema>>, n: string)
    requires Run(fw, table, ops, states) && states[0].Some? && n in states[0].value.columns
    ensures var m := NameAfter(ops, n);
            && states[|ops|].Some? && m in states[|ops|].value.columns
            && states[|ops|].value.columns[m] == states[0].value.columns[n]
    decreases |ops|
  {
    if |ops| > 0 {
      var op := ops[0];
      assert Step(fw, table, op, states[0], states[1]);
      StepKeepsColumn(fw, table, op, states[0].value, states[1].value, n);
      TailRun(fw, table, ops, states);
      NoColumnIsLost(fw, table, ops[1..], states[1..], if op.RenameColumn? && op.from == n then op.to else n);
    }
  }

  /** Two columns never end up under one name. */
  lemma {:induction false} ColumnsStayApart(
    fw: map<string, ColumnSpec>, table: string, ops: seq<DdlOp>, states: seq<Option<Schema>>, n: string, m: string)
    requires Run(fw, table, ops, states) && states[0].Some? && n in states[0].value.columns
             && m in states[0].value.columns && n != m
    ensures NameAfter(ops, n) != NameAfter(ops, m)
    decreases |ops|
  {
    if |ops| > 0 {
      var op := ops[0];
      assert Step(fw, table, op, states[0], states[1]);
      StepKeepsColumn(fw, table, op, states[0].value, states[1].value, n);
      StepKeepsColumn(fw, table, op, states[0].value, states[1].value, m);
      TailRun(fw, table, ops, states);
      ColumnsStayApart(fw, table, ops[1..], states[1..],
                       if op.RenameColumn? && op.from == n then op.to else n,
                       if op.RenameColumn? && op.from == m then op.to else m);
    }
  }
}
