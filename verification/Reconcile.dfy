/** What the operations of a Diff do to a table: what holds after any prefix of them, that the schema allows each at its
    turn, what the whole pass reaches, and when Diff asks for nothing. */
module Reconcile {
  import opened Prelude
  import opened PhysicalSchema
  import opened SchemaDiff
  import opened Normalize
  import Substring

  // ---------------------------------------------------------------- what the database does

  /** Its text may speak of the column: it contains the name, or the name is printed with doubled quotes. */
  predicate Mentions(i: IndexSpec, column: string) {
    '"' in column || Substring.Contains(i.expression, column) || Substring.Contains(i.where, column)
  }

  /** Renaming a column rewrites the texts that mention it: index expressions and predicates in some way, the column
      of a foreign key exactly. */
  ghost predicate RenamedInPlace(from: string, to: string, s: Schema, t: Schema)
    requires from in s.columns
  {
    && t.table == s.table && t.columns == (s.columns - {from})[to := s.columns[from]]
    && t.indexes.Keys == s.indexes.Keys && (forall n :: n in s.indexes ==> SameShape(s.indexes[n], t.indexes[n]))
    && (forall n :: n in s.indexes && !Mentions(s.indexes[n], from) ==> t.indexes[n] == s.indexes[n])
    && t.uniques.Keys == s.uniques.Keys
    && t.foreignKeys == map n | n in s.foreignKeys ::
         if s.foreignKeys[n].column == from then s.foreignKeys[n].(column := to) else s.foreignKeys[n]
  }

  predicate SameShape(i: IndexSpec, j: IndexSpec) {
    i.unique == j.unique && i.method_ == j.method_ && i.valid == j.valid && (i.where == "" <==> j.where == "")
  }

  /** The effect of one completed operation on an existing table. An index is stored as some text that
      normalizes to what was asked for. */
  ghost predicate Changes(op: DdlOp, s: Schema, t: Schema) {
    match op
    case CreateTable => false
    case RenameColumn(from, to) => from in s.columns && to !in s.columns && RenamedInPlace(from, to, s, t)
    case AddColumn(n, spec) => t == if n in s.columns then s else s.(columns := s.columns[n := spec])
    case AddSyncTrigger(_, _) => t == s
    case BackfillColumn(_, n, _, _) => n in s.columns && t == s
    case DropForeignKey(n) => t == s.(foreignKeys := s.foreignKeys - {n})
    case DropUnique(n) => t == if n in s.uniques then s.(uniques := s.uniques - {n}, indexes := s.indexes - {n}) else s
    case DropIndex(n) => n !in s.uniques && t == s.(indexes := s.indexes - {n})
    case CreateIndex(n, spec) =>
      if n in s.indexes then t == s
      else
        && n in t.indexes && t == s.(indexes := s.indexes[n := t.indexes[n]])
        && t.indexes[n].valid && IndexMatches(t.indexes[n], spec)
    case AddUnique(n, spec) =>
      && n !in s.uniques && n !in s.indexes && n in t.indexes && t.indexes[n].unique && t.indexes[n].where == ""
      && t == s.(uniques := s.uniques[n := spec], indexes := s.indexes[n := t.indexes[n]])
    case AddForeignKey(n, spec) =>
      n !in s.foreignKeys && spec.column in s.columns
        && t == s.(foreignKeys := s.foreignKeys[n := spec.(validated := false)])
    case ValidateForeignKey(n) =>
      n in s.foreignKeys && t == s.(foreignKeys := s.foreignKeys[n := s.foreignKeys[n].(validated := true)])
  }

  /** A new table holds nothing but framework columns. */
  ghost predicate Created(fw: map<string, ColumnSpec>, table: string, t: Schema) {
    t.(columns := map[]) == EmptySchema(table) && forall n :: n in t.columns ==> n in fw && t.columns[n] == fw[n]
  }

  ghost predicate Step(fw: map<string, ColumnSpec>, table: string, op: DdlOp, s: Option<Schema>, t: Option<Schema>) {
    t.Some? && if op.CreateTable? then s.None? && Created(fw, table, t.value)
      else s.Some? && Changes(op, s.value, t.value)
  }

  /** A crash inside an operation: everything but the concurrent index statements is all or nothing; those may
      leave an invalid index of that name behind. */
  ghost predicate Interrupted(op: DdlOp, s: Option<Schema>, t: Option<Schema>) {
    t == s
    || (&& s.Some? && t.Some? && (op.CreateIndex? || op.DropIndex?) && op.index in t.value.indexes
        && !t.value.indexes[op.index].valid
        && t.value == s.value.(indexes := s.value.indexes[op.index := t.value.indexes[op.index]]))
  }

  ghost predicate Run(fw: map<string, ColumnSpec>, table: string, ops: seq<DdlOp>, states: seq<Option<Schema>>) {
    |states| == |ops| + 1 && forall i :: 0 <= i < |ops| ==> Step(fw, table, ops[i], states[i], states[i + 1])
  }

  /** Created on a free name, on columns that exist, and no index dropped under a live constraint. */
  predicate EnabledOn(op: DdlOp, s: Schema) {
    match op
    case CreateTable => false
    case RenameColumn(from, to) => from in s.columns && to !in s.columns
    case AddColumn(n, spec) => n in s.columns ==> spec.origin == Framework
    case AddSyncTrigger(_, _) => true
    case BackfillColumn(_, n, _, _) => n in s.columns
    case DropForeignKey(n) => n in s.foreignKeys
    case DropUnique(n) => n in s.uniques
    case DropIndex(n) => n !in s.uniques
    case CreateIndex(n, _) => n !in s.indexes
    case AddUnique(n, _) => n !in s.uniques && n !in s.indexes
    case AddForeignKey(n, spec) => n !in s.foreignKeys && spec.column in s.columns
    case ValidateForeignKey(n) => n in s.foreignKeys
  }

  predicate Enabled(op: DdlOp, state: Option<Schema>) {
    if op.CreateTable? then state.None? else state.Some? && EnabledOn(op, state.value)
  }

  // ---------------------------------------------------------------- what the two sides are known to be

  /** Every unique constraint owns a unique index of its name over the whole table. */
  predicate Owned(s: Schema) {
    forall n :: n in s.uniques ==> n in s.indexes && s.indexes[n].unique && s.indexes[n].where == ""
  }

  /** What the schema compiler emits: no constraints, only partial unique indexes, foreign keys on real columns, and
      beside the framework columns only columns synced from the field of their name. */
  ghost predicate Compiled(fw: map<string, ColumnSpec>, d: Schema) {
    && d.uniques == map[]
    && (forall n :: n in d.indexes && d.indexes[n].unique ==> d.indexes[n].where != "")
    && (forall n :: n in d.foreignKeys ==> d.foreignKeys[n].column in d.columns)
    && (forall n :: n in fw ==> fw[n].origin == Framework && n in d.columns && d.columns[n] == fw[n])
    && (forall n :: n in d.columns && n !in fw ==> d.columns[n].origin == Generated(n, true))
  }

  // ---------------------------------------------------------------- the head of a pass

  /** What Diff took the table for, against the table: the same names, and indexes and foreign keys that differ at
      most in the texts a rename rewrites. */
  ghost predicate Alike(a: Schema, b: Schema) {
    && a.table == b.table
    && a.indexes.Keys == b.indexes.Keys && (forall n :: n in a.indexes ==> SameShape(a.indexes[n], b.indexes[n]))
    && a.uniques.Keys == b.uniques.Keys
    && a.foreignKeys.Keys == b.foreignKeys.Keys
    && (forall n :: n in a.foreignKeys ==> a.foreignKeys[n].validated == b.foreignKeys[n].validated)
  }

  /** The table the operations after the renames start from, against the schema Diff reasoned about: a new table
      may already have framework columns. */
  ghost predicate Begins(fw: map<string, ColumnSpec>, a: Schema, b: Schema) {
    Alike(a, b) && a.columns.Keys <= b.columns.Keys && forall n :: n in b.columns && n !in a.columns ==> n in fw
  }

  lemma RenameKeepsAlike(a: Schema, b: Schema, from: string, to: string, t: Schema)
    requires Alike(a, b) && a.columns.Keys == b.columns.Keys && from in a.columns && RenamedInPlace(from, to, b, t)
    ensures Alike(Move(a, from, to), t) && Move(a, from, to).columns.Keys == t.columns.Keys
  {
  }

  lemma {:induction false} RenamesRun(
    fw: map<string, ColumnSpec>, d: Schema, copy: Schema, renames: seq<(string, string)>, ops: seq<DdlOp>,
    states: seq<Option<Schema>>)
    requires ops == Renamed(d, copy, renames).1 && Run(fw, d.table, ops, states)
    requires states[0].Some? && Alike(copy, states[0].value) && copy.columns.Keys == states[0].value.columns.Keys
    ensures states[|ops|].Some? && Begins(fw, Renamed(d, copy, renames).0, states[|ops|].value)
    decreases |renames|
  {
    hide Alike, RenamedInPlace;
    if |renames| > 0 {
      var (from, to) := renames[0];
      if to in copy.columns || from !in copy.columns || to !in d.columns {
        RenamesRun(fw, d, copy, renames[1..], ops, states);
      } else {
        var next := Move(copy, from, to);
        assert ops[0] == RenameColumn(from, to);
        assert Step(fw, d.table, ops[0], states[0], states[1]);
        RenameKeepsAlike(copy, states[0].value, from, to, states[1].value);
        assert ops[1..] == Renamed(d, next, renames[1..]).1;
        TailRun(fw, d.table, ops, states);
        RenamesRun(fw, d, next, renames[1..], ops[1..], states[1..]);
      }
    }
  }

  lemma TailRun(fw: map<string, ColumnSpec>, table: string, ops: seq<DdlOp>, states: seq<Option<Schema>>)
    requires Run(fw, table, ops, states) && |ops| > 0
    ensures Run(fw, table, ops[1..], states[1..])
  {
    hide Step;
    forall i | 0 <= i < |ops[1..]| ensures Step(fw, table, ops[1..][i], states[1..][i], states[1..][i + 1]) {
      assert Step(fw, table, ops[i + 1], states[i + 1], states[i + 2]);
    }
  }

  lemma {:induction false} NothingToRename(d: Schema, copy: Schema, renames: seq<(string, string)>)
    requires copy.columns == map[]
    ensures Renamed(d, copy, renames) == (copy, [])
    decreases |renames|
  {
    if |renames| > 0 { NothingToRename(d, copy, renames[1..]); }
  }

  /** The schema Diff is given describes the table, or both are missing. */
  ghost predicate Describes(seen: Option<Schema>, table: Option<Schema>) {
    && (seen.Some? <==> table.Some?)
    && (seen.Some? ==> Alike(seen.value, table.value) && seen.value.columns.Keys == table.value.columns.Keys)
  }

  lemma HeadRun(
    fw: map<string, ColumnSpec>, d: Schema, actual: Option<Schema>, renames: seq<(string, string)>,
    states: seq<Option<Schema>>)
    requires Run(fw, d.table, Head(d, actual, renames).1, states) && Describes(actual, states[0])
    ensures states[|states| - 1].Some? && Begins(fw, Head(d, actual, renames).0, states[|states| - 1].value)
  {
    var (a, ops) := Head(d, actual, renames);
    match actual
    case Some(s) => RenamesRun(fw, d, s, renames, ops, states);
    case None =>
      NothingToRename(d, EmptySchema(d.table), renames);
      assert Step(fw, d.table, ops[0], states[0], states[1]);
  }

  // ---------------------------------------------------------------- the state after any prefix of the rest

  ghost predicate ColumnsAfter(d: Schema, b: Schema, done: seq<DdlOp>, s: Schema) {
    forall n :: n in s.columns <==> n in b.columns || (n in d.columns && AddColumn(n, d.columns[n]) in done)
  }

  ghost predicate UniquesAfter(b: Schema, done: seq<DdlOp>, s: Schema) {
    && (forall n :: n in s.uniques <==> n in b.uniques && DropUnique(n) !in done)
    && (forall n :: n in s.uniques ==> s.uniques[n] == b.uniques[n])
  }

  predicate Built(d: Schema, done: seq<DdlOp>, n: string) { n in d.indexes && CreateIndex(n, d.indexes[n]) in done }

  predicate Kept(b: Schema, done: seq<DdlOp>, n: string) {
    n in b.indexes && DropIndex(n) !in done && (n in b.uniques ==> DropUnique(n) !in done)
  }

  ghost predicate IndexesAfter(d: Schema, b: Schema, done: seq<DdlOp>, s: Schema) {
    && (forall n :: n in s.indexes <==> Built(d, done, n) || Kept(b, done, n))
    && (forall n :: Built(d, done, n) ==> s.indexes[n].valid && IndexMatches(s.indexes[n], d.indexes[n]))
    && (forall n :: Kept(b, done, n) && !Built(d, done, n) ==> s.indexes[n] == b.indexes[n])
  }

  predicate Attached(d: Schema, done: seq<DdlOp>, n: string) {
    n in d.foreignKeys && AddForeignKey(n, d.foreignKeys[n]) in done
  }

  function FkAfter(done: seq<DdlOp>, n: string, spec: FkSpec): FkSpec {
    if ValidateForeignKey(n) in done then spec.(validated := true) else spec
  }

  ghost predicate FksAfter(d: Schema, b: Schema, done: seq<DdlOp>, s: Schema) {
    && (forall n :: n in s.foreignKeys <==> Attached(d, done, n) || (n in b.foreignKeys && DropForeignKey(n) !in done))
    && (forall n :: Attached(d, done, n) ==>
       s.foreignKeys[n] == FkAfter(done, n, d.foreignKeys[n].(validated := false)))
    && (forall n :: n in s.foreignKeys && !Attached(d, done, n) ==>
       s.foreignKeys[n] == FkAfter(done, n, b.foreignKeys[n]))
  }

  ghost predicate After(d: Schema, b: Schema, done: seq<DdlOp>, s: Schema) {
    s.table == b.table && ColumnsAfter(d, b, done, s) && UniquesAfter(b, done, s) && IndexesAfter(d, b, done, s)
      && FksAfter(d, b, done, s)
  }

  /** What may be assumed about the next operation: it is wanted and not done yet, everything wanted that ranks
      lower is done, and nothing that ranks higher is. */
  ghost predicate Next(d: Schema, a: Schema, done: seq<DdlOp>, op: DdlOp) {
    && Wanted(d, a, op)
    && (!op.AddSyncTrigger? ==> op !in done)
    && (forall x :: x in done ==> Wanted(d, a, x) && Rank(x) <= Rank(op))
    && (forall x :: Wanted(d, a, x) && Rank(x) < Rank(op) ==> x in done)
  }

  lemma DoneMore(done: seq<DdlOp>, op: DdlOp, x: DdlOp)
    ensures x in done + [op] <==> x in done || x == op
  {
  }

  /** Which part of the schema an operation leaves alone. */
  lemma Frame(op: DdlOp, s: Schema, t: Schema)
    requires Changes(op, s, t)
    ensures !op.AddColumn? && !op.RenameColumn? ==> t.columns == s.columns
    ensures !op.RenameColumn? && !op.DropUnique? && !op.AddUnique? ==> t.uniques == s.uniques
    ensures !op.RenameColumn? && !op.DropUnique? && !op.AddUnique? && !op.DropIndex? && !op.CreateIndex? ==>
            t.indexes == s.indexes
    ensures !op.RenameColumn? && !op.DropForeignKey? && !op.AddForeignKey? && !op.ValidateForeignKey? ==>
            t.foreignKeys == s.foreignKeys
    ensures t.table == s.table
  {
  }

  lemma NextKinds(d: Schema, a: Schema, done: seq<DdlOp>, op: DdlOp)
    requires Next(d, a, done, op) && d.uniques == map[]
    ensures !op.CreateTable? && !op.RenameColumn? && !op.AddUnique?
  {
  }

  lemma NothingDoneAbove(d: Schema, a: Schema, done: seq<DdlOp>, op: DdlOp, x: DdlOp)
    requires Next(d, a, done, op) && Rank(x) > Rank(op)
    ensures x !in done
  {
  }

  // columns

  lemma ColumnsStep(d: Schema, a: Schema, b: Schema, done: seq<DdlOp>, op: DdlOp, s: Schema, t: Schema)
    requires ColumnsAfter(d, b, done, s) && Next(d, a, done, op) && Changes(op, s, t) && d.uniques == map[]
    ensures ColumnsAfter(d, b, done + [op], t)
  {
    NextKinds(d, a, done, op);
    Frame(op, s, t);
    forall n | n in d.columns
      ensures AddColumn(n, d.columns[n]) in done + [op] <==>
              AddColumn(n, d.columns[n]) in done || (op.AddColumn? && n == op.column)
    {
      DoneMore(done, op, AddColumn(n, d.columns[n]));
    }
  }

  // unique constraints

  lemma UniquesStep(d: Schema, a: Schema, b: Schema, done: seq<DdlOp>, op: DdlOp, s: Schema, t: Schema)
    requires UniquesAfter(b, done, s) && Next(d, a, done, op) && Changes(op, s, t) && d.uniques == map[]
    ensures UniquesAfter(b, done + [op], t)
  {
    NextKinds(d, a, done, op);
    Frame(op, s, t);
    if op.DropUnique? {
      assert t.uniques == s.uniques - {op.uq};
    }
    hide Next, Changes;
    forall n ensures DropUnique(n) in done + [op] <==> DropUnique(n) in done || op == DropUnique(n) {
      DoneMore(done, op, DropUnique(n));
    }
  }

  // indexes

  lemma BuiltMore(d: Schema, b: Schema, done: seq<DdlOp>, op: DdlOp, n: string)
    ensures Built(d, done + [op], n) <==> Built(d, done, n) || (n in d.indexes && op == CreateIndex(n, d.indexes[n]))
    ensures Kept(b, done + [op], n) <==>
            Kept(b, done, n) && op != DropIndex(n) && (n in b.uniques ==> op != DropUnique(n))
  {
    if n in d.indexes { DoneMore(done, op, CreateIndex(n, d.indexes[n])); }
    DoneMore(done, op, DropIndex(n));
    DoneMore(done, op, DropUnique(n));
  }

  lemma IndexesUntouched(d: Schema, b: Schema, done: seq<DdlOp>, op: DdlOp, s: Schema, t: Schema)
    requires IndexesAfter(d, b, done, s) && t.indexes == s.indexes && !op.DropUnique? && !op.DropIndex?
             && !op.CreateIndex?
    ensures IndexesAfter(d, b, done + [op], t)
  {
    hide Built, Kept, IndexMatches;
    forall n ensures Built(d, done + [op], n) == Built(d, done, n) && Kept(b, done + [op], n) == Kept(b, done, n) {
      BuiltMore(d, b, done, op, n);
    }
  }

  /** Nothing is built yet when an index goes away. */
  lemma IndexGone(d: Schema, b: Schema, done: seq<DdlOp>, op: DdlOp, gone: string, s: Schema, t: Schema)
    requires IndexesAfter(d, b, done, s) && (op == DropIndex(gone) || (op == DropUnique(gone) && gone in b.uniques))
    requires t.indexes == s.indexes - {gone} && forall n :: !Built(d, done, n)
    ensures IndexesAfter(d, b, done + [op], t)
  {
    hide Built, Kept, IndexMatches;
    forall n ensures !Built(d, done + [op], n) && (Kept(b, done + [op], n) <==> Kept(b, done, n) && n != gone) {
      BuiltMore(d, b, done, op, n);
    }
  }

  lemma IndexBuilt(d: Schema, b: Schema, done: seq<DdlOp>, op: DdlOp, s: Schema, t: Schema)
    requires IndexesAfter(d, b, done, s) && op.CreateIndex? && Changes(op, s, t)
    requires op.index in d.indexes && op.indexSpec == d.indexes[op.index] && !Built(d, done, op.index)
             && !Kept(b, done, op.index)
    ensures IndexesAfter(d, b, done + [op], t)
  {
    hide Built, Kept, IndexMatches;
    assert op.index !in s.indexes;
    forall n
      ensures (Built(d, done + [op], n) <==> Built(d, done, n) || n == op.index)
              && Kept(b, done + [op], n) == Kept(b, done, n)
    {
      BuiltMore(d, b, done, op, n);
    }
  }

  lemma IndexesStep(
    fw: map<string, ColumnSpec>, d: Schema, a: Schema, b: Schema, done: seq<DdlOp>, op: DdlOp, s: Schema, t: Schema)
    requires Begins(fw, a, b) && IndexesAfter(d, b, done, s) && UniquesAfter(b, done, s) && Next(d, a, done, op)
             && Changes(op, s, t) && d.uniques == map[]
    ensures IndexesAfter(d, b, done + [op], t)
  {
    hide IndexesAfter, Built, Kept;
    NextKinds(d, a, done, op);
    if op.DropUnique? || op.DropIndex? {
      forall n ensures !Built(d, done, n) { NotBuiltYet(d, a, done, op, n); }
      if op.DropIndex? {
        IndexGone(d, b, done, op, op.index, s, t);
      } else {
        assert op.uq in s.uniques;
        IndexGone(d, b, done, op, op.uq, s, t);
      }
    } else if op.CreateIndex? {
      FreeToCreate(fw, d, a, b, done, op);
      IndexBuilt(d, b, done, op, s, t);
    } else {
      Frame(op, s, t);
      IndexesUntouched(d, b, done, op, s, t);
    }
  }

  /** Drops rank before creates. */
  lemma NotBuiltYet(d: Schema, a: Schema, done: seq<DdlOp>, op: DdlOp, n: string)
    requires Next(d, a, done, op) && (op.DropUnique? || op.DropIndex?)
    ensures !Built(d, done, n)
  {
    if n in d.indexes { NothingDoneAbove(d, a, done, op, CreateIndex(n, d.indexes[n])); }
  }

  /** An index is created only where the old one, if any, has been dropped. */
  lemma FreeToCreate(fw: map<string, ColumnSpec>, d: Schema, a: Schema, b: Schema, done: seq<DdlOp>, op: DdlOp)
    requires Begins(fw, a, b) && Next(d, a, done, op) && op.CreateIndex?
    ensures op.index in d.indexes && op.indexSpec == d.indexes[op.index]
    ensures !Built(d, done, op.index) && !Kept(b, done, op.index)
  {
    var n := op.index;
    if n in a.indexes { assert Wanted(d, a, DropIndex(n)) && Rank(DropIndex(n)) < Rank(op); }
  }

  // foreign keys

  lemma FkMore(d: Schema, done: seq<DdlOp>, op: DdlOp, n: string)
    ensures Attached(d, done + [op], n) <==>
            Attached(d, done, n) || (n in d.foreignKeys && op == AddForeignKey(n, d.foreignKeys[n]))
    ensures DropForeignKey(n) in done + [op] <==> DropForeignKey(n) in done || op == DropForeignKey(n)
    ensures ValidateForeignKey(n) in done + [op] <==> ValidateForeignKey(n) in done || op == ValidateForeignKey(n)
  {
    if n in d.foreignKeys { DoneMore(done, op, AddForeignKey(n, d.foreignKeys[n])); }
    DoneMore(done, op, DropForeignKey(n));
    DoneMore(done, op, ValidateForeignKey(n));
  }

  lemma FksUntouched(d: Schema, b: Schema, done: seq<DdlOp>, op: DdlOp, s: Schema, t: Schema)
    requires FksAfter(d, b, done, s) && t.foreignKeys == s.foreignKeys && !op.AddForeignKey? && !op.DropForeignKey?
             && !op.ValidateForeignKey?
    ensures FksAfter(d, b, done + [op], t)
  {
    hide Attached;
    forall n
      ensures Attached(d, done + [op], n) == Attached(d, done, n)
      ensures DropForeignKey(n) in done + [op] <==> DropForeignKey(n) in done
      ensures ValidateForeignKey(n) in done + [op] <==> ValidateForeignKey(n) in done
    {
      FkMore(d, done, op, n);
    }
  }

  lemma FkChanged(d: Schema, b: Schema, done: seq<DdlOp>, op: DdlOp, s: Schema, t: Schema)
    requires FksAfter(d, b, done, s) && Changes(op, s, t)
    requires (op.AddForeignKey? && op.fk in d.foreignKeys && op.fkSpec == d.foreignKeys[op.fk]) || op.DropForeignKey?
    requires forall n :: ValidateForeignKey(n) !in done
    requires op.DropForeignKey? ==> forall n :: !Attached(d, done, n)
    ensures FksAfter(d, b, done + [op], t)
  {
    hide Attached;
    forall n
      ensures Attached(d, done + [op], n) <==> Attached(d, done, n) || (op.AddForeignKey? && n == op.fk)
      ensures DropForeignKey(n) in done + [op] <==> DropForeignKey(n) in done || op == DropForeignKey(n)
      ensures ValidateForeignKey(n) !in done + [op]
    {
      FkMore(d, done, op, n);
    }
  }

  lemma FkValidated(d: Schema, b: Schema, done: seq<DdlOp>, op: DdlOp, s: Schema, t: Schema)
    requires FksAfter(d, b, done, s) && Changes(op, s, t) && op.ValidateForeignKey?
    ensures FksAfter(d, b, done + [op], t)
  {
    hide Attached;
    forall n
      ensures Attached(d, done + [op], n) == Attached(d, done, n)
      ensures DropForeignKey(n) in done + [op] <==> DropForeignKey(n) in done
      ensures ValidateForeignKey(n) in done + [op] <==> ValidateForeignKey(n) in done || n == op.fk
    {
      FkMore(d, done, op, n);
    }
  }

  lemma FksStep(d: Schema, a: Schema, b: Schema, done: seq<DdlOp>, op: DdlOp, s: Schema, t: Schema)
    requires FksAfter(d, b, done, s) && Next(d, a, done, op) && Changes(op, s, t)
    ensures FksAfter(d, b, done + [op], t)
  {
    hide FksAfter, Attached, Changes;
    if op.AddForeignKey? || op.DropForeignKey? {
      forall n ensures ValidateForeignKey(n) !in done { NothingDoneAbove(d, a, done, op, ValidateForeignKey(n)); }
      if op.DropForeignKey? {
        forall n ensures !Attached(d, done, n) { NotAttachedYet(d, a, done, op, n); }
      }
      FkChanged(d, b, done, op, s, t);
    } else if op.ValidateForeignKey? {
      FkValidated(d, b, done, op, s, t);
    } else {
      Frame(op, s, t);
      FksUntouched(d, b, done, op, s, t);
    }
  }

  lemma NotAttachedYet(d: Schema, a: Schema, done: seq<DdlOp>, op: DdlOp, n: string)
    requires Next(d, a, done, op) && op.DropForeignKey?
    ensures !Attached(d, done, n)
  {
    if n in d.foreignKeys { NothingDoneAbove(d, a, done, op, AddForeignKey(n, d.foreignKeys[n])); }
  }

  lemma AfterStep(
    fw: map<string, ColumnSpec>, d: Schema, a: Schema, b: Schema, done: seq<DdlOp>, op: DdlOp, s: Schema, t: Schema)
    requires Begins(fw, a, b) && d.uniques == map[] && After(d, b, done, s) && Next(d, a, done, op) && Changes(op, s, t)
    ensures After(d, b, done + [op], t)
  {
    Frame(op, s, t);
    hide ColumnsAfter, UniquesAfter, IndexesAfter, FksAfter, Next, Changes, Begins;
    ColumnsStep(d, a, b, done, op, s, t);
    UniquesStep(d, a, b, done, op, s, t);
    IndexesStep(fw, d, a, b, done, op, s, t);
    FksStep(d, a, b, done, op, s, t);
  }

  // ---------------------------------------------------------------- enabledness

  /** The schema allows an operation at its turn: columns and names it needs are there, names it takes are free. */
  lemma EnabledNext(
    fw: map<string, ColumnSpec>, d: Schema, a: Schema, b: Schema, done: seq<DdlOp>, op: DdlOp, s: Schema)
    requires Compiled(fw, d) && Begins(fw, a, b) && After(d, b, done, s) && Next(d, a, done, op)
    ensures EnabledOn(op, s)
  {
    NextKinds(d, a, done, op);
    hide Compiled, Begins, ColumnsAfter, UniquesAfter, IndexesAfter, FksAfter, Next;
    match op {
      case AddColumn(n, _) => ColumnFree(fw, d, a, b, done, op, s);
      case BackfillColumn(_, n, _, _) => WantedColumn(d, a, done, op); ColumnPresent(fw, d, a, b, done, op, s, n);
      case DropIndex(n) => ConstraintGone(fw, d, a, b, done, op, s);
      case CreateIndex(n, _) => IndexNameFree(fw, d, a, b, done, op, s);
      case AddForeignKey(n, spec) =>
        FkColumn(fw, d, a, done, op);
        ColumnPresent(fw, d, a, b, done, op, s, spec.column);
        FkNameFree(fw, d, a, b, done, op, s);
      case ValidateForeignKey(n) => FkPresent(fw, d, a, b, done, op, s);
      case DropForeignKey(n) => DropFinds(fw, d, a, b, done, op, s);
      case DropUnique(n) => DropFinds(fw, d, a, b, done, op, s);
      case AddSyncTrigger(_, _) =>
    }
  }

  lemma WantedColumn(d: Schema, a: Schema, done: seq<DdlOp>, op: DdlOp)
    requires Next(d, a, done, op) && op.BackfillColumn?
    ensures op.backfill in d.columns
  {
  }

  lemma FkColumn(fw: map<string, ColumnSpec>, d: Schema, a: Schema, done: seq<DdlOp>, op: DdlOp)
    requires Compiled(fw, d) && Next(d, a, done, op) && op.AddForeignKey?
    ensures op.fkSpec.column in d.columns
  {
  }

  lemma ColumnFree(fw: map<string, ColumnSpec>, d: Schema, a: Schema, b: Schema, done: seq<DdlOp>, op: DdlOp, s: Schema)
    requires Compiled(fw, d) && Begins(fw, a, b) && ColumnsAfter(d, b, done, s) && Next(d, a, done, op) && op.AddColumn?
    ensures op.column in s.columns ==> op.spec.origin == Framework
  {
  }

  lemma IndexNameFree(
    fw: map<string, ColumnSpec>, d: Schema, a: Schema, b: Schema, done: seq<DdlOp>, op: DdlOp, s: Schema)
    requires Begins(fw, a, b) && IndexesAfter(d, b, done, s) && Next(d, a, done, op) && op.CreateIndex?
    ensures op.index !in s.indexes
  {
    hide Built, Kept;
    FreeToCreate(fw, d, a, b, done, op);
  }

  lemma DropFinds(fw: map<string, ColumnSpec>, d: Schema, a: Schema, b: Schema, done: seq<DdlOp>, op: DdlOp, s: Schema)
    requires Begins(fw, a, b) && FksAfter(d, b, done, s) && UniquesAfter(b, done, s) && Next(d, a, done, op)
    ensures op.DropForeignKey? ==> op.fk in s.foreignKeys
    ensures op.DropUnique? ==> op.uq in s.uniques
  {
  }

  lemma ColumnPresent(
    fw: map<string, ColumnSpec>, d: Schema, a: Schema, b: Schema, done: seq<DdlOp>, op: DdlOp, s: Schema, n: string)
    requires Begins(fw, a, b) && ColumnsAfter(d, b, done, s) && Next(d, a, done, op) && Rank(op) > 2 && n in d.columns
    ensures n in s.columns
  {
    if n !in a.columns { assert Wanted(d, a, AddColumn(n, d.columns[n])); }
  }

  /** The constraint over an index goes before the index does. */
  lemma ConstraintGone(
    fw: map<string, ColumnSpec>, d: Schema, a: Schema, b: Schema, done: seq<DdlOp>, op: DdlOp, s: Schema)
    requires d.uniques == map[] && Begins(fw, a, b) && UniquesAfter(b, done, s) && Next(d, a, done, op) && op.DropIndex?
    ensures op.index !in s.uniques
  {
    if op.index in a.uniques { assert Wanted(d, a, DropUnique(op.index)) && Rank(DropUnique(op.index)) < Rank(op); }
  }

  lemma FkNameFree(fw: map<string, ColumnSpec>, d: Schema, a: Schema, b: Schema, done: seq<DdlOp>, op: DdlOp, s: Schema)
    requires Begins(fw, a, b) && FksAfter(d, b, done, s) && Next(d, a, done, op) && op.AddForeignKey?
    ensures op.fk !in s.foreignKeys
  {
    var n := op.fk;
    assert !Attached(d, done, n);
    if n in a.foreignKeys { assert Wanted(d, a, DropForeignKey(n)) && Rank(DropForeignKey(n)) < Rank(op); }
  }

  lemma FkPresent(fw: map<string, ColumnSpec>, d: Schema, a: Schema, b: Schema, done: seq<DdlOp>, op: DdlOp, s: Schema)
    requires Begins(fw, a, b) && FksAfter(d, b, done, s) && Next(d, a, done, op) && op.ValidateForeignKey?
    ensures op.fk in s.foreignKeys
  {
    var n := op.fk;
    if n !in a.foreignKeys || Replace(d, a, n) {
      assert Wanted(d, a, AddForeignKey(n, d.foreignKeys[n])) && Rank(AddForeignKey(n, d.foreignKeys[n])) < Rank(op);
    } else {
      assert !Wanted(d, a, DropForeignKey(n));
    }
  }

  // ---------------------------------------------------------------- runs of the rest

  lemma NextInRest(d: Schema, a: Schema, rest: seq<DdlOp>, i: nat)
    requires IsRest(d, a, rest) && i < |rest|
    ensures Next(d, a, rest[..i], rest[i])
  {
    hide Wanted, Rank;
    var done, op := rest[..i], rest[i];
    assert op in rest;
    forall x | x in done ensures Wanted(d, a, x) && Rank(x) <= Rank(op) {
      var k :| 0 <= k < |done| && done[k] == x;
      assert rest[k] == x && x in rest;
    }
    forall x | Wanted(d, a, x) && Rank(x) < Rank(op) ensures x in done {
      assert x in rest;
      var k :| 0 <= k < |rest| && rest[k] == x;
      assert k < i;
      assert done[k] == x;
    }
    if !op.AddSyncTrigger? && op in done {
      TwiceCounted(rest, i);
    }
  }

  lemma TwiceCounted(rest: seq<DdlOp>, i: nat)
    requires i < |rest| && rest[i] in rest[..i]
    ensures multiset(rest)[rest[i]] >= 2
  {
    assert rest == rest[..i] + [rest[i]] + rest[i + 1..];
  }

  lemma NothingDone(d: Schema, b: Schema)
    ensures After(d, b, [], b)
  {
  }

  lemma {:induction false} RestRun(
    fw: map<string, ColumnSpec>, d: Schema, a: Schema, b: Schema, rest: seq<DdlOp>, states: seq<Option<Schema>>, i: nat)
    requires Compiled(fw, d) && Begins(fw, a, b) && IsRest(d, a, rest) && i <= |rest|
    requires Run(fw, d.table, rest[..i], states) && states[0] == Some(b)
    ensures states[i].Some? && After(d, b, rest[..i], states[i].value)
    ensures i < |rest| ==> Enabled(rest[i], states[i])
    decreases i
  {
    hide After, Wanted, Begins, IsRest;
    if i == 0 {
      NothingDone(d, b);
      assert rest[..0] == [];
    } else {
      PrefixRun(fw, d.table, rest, states, i);
      RestRun(fw, d, a, b, rest, states[..i], i - 1);
      assert Step(fw, d.table, rest[..i][i - 1], states[i - 1], states[i]);
      NextInRest(d, a, rest, i - 1);
      NextKinds(d, a, rest[..i - 1], rest[i - 1]);
      AfterStep(fw, d, a, b, rest[..i - 1], rest[i - 1], states[i - 1].value, states[i].value);
      assert rest[..i - 1] + [rest[i - 1]] == rest[..i];
    }
    if i < |rest| {
      NextInRest(d, a, rest, i);
      NextKinds(d, a, rest[..i], rest[i]);
      EnabledNext(fw, d, a, b, rest[..i], rest[i], states[i].value);
    }
  }

  lemma PrefixRun(fw: map<string, ColumnSpec>, table: string, ops: seq<DdlOp>, states: seq<Option<Schema>>, i: nat)
    requires 0 < i <= |ops| && Run(fw, table, ops[..i], states)
    ensures Run(fw, table, ops[..i - 1], states[..i])
  {
    hide Step;
    forall k | 0 <= k < i - 1 ensures Step(fw, table, ops[..i - 1][k], states[..i][k], states[..i][k + 1]) {
      assert Step(fw, table, ops[..i][k], states[k], states[k + 1]);
    }
  }

  // ---------------------------------------------------------------- after the whole pass

  /** An index the pass leaves alone still matches after the renames. */
  ghost predicate KeptIndexMatches(d: Schema, a: Schema, b: Schema, n: string)
    requires n in d.indexes
  {
    n in a.indexes && !Rebuild(d, a, n) ==> n in b.indexes && IndexMatches(b.indexes[n], d.indexes[n])
  }

  ghost predicate KeptFkMatches(d: Schema, a: Schema, b: Schema, n: string)
    requires n in d.foreignKeys
  {
    n in a.foreignKeys && !Replace(d, a, n) ==> n in b.foreignKeys && FkMatches(b.foreignKeys[n], d.foreignKeys[n])
  }

  /** Whatever the renames rewrote, exactly the desired indexes and foreign keys are there, and each matches unless
      it was kept and rewritten. */
  ghost predicate Reached(d: Schema, a: Schema, b: Schema, f: Schema) {
    && f.table == b.table
    && (forall n :: n in d.columns ==> n in f.columns)
    && (forall n :: n in f.indexes <==> n in d.indexes)
    && (forall n :: n in d.indexes ==>
       f.indexes[n].valid && (IndexMatches(f.indexes[n], d.indexes[n]) <==> KeptIndexMatches(d, a, b, n)))
    && (forall n :: n in f.foreignKeys <==> n in d.foreignKeys)
    && (forall n :: n in d.foreignKeys ==>
          f.foreignKeys[n].validated && (FkMatches(f.foreignKeys[n], d.foreignKeys[n]) <==> KeptFkMatches(d, a, b, n)))
    && f.uniques == map[]
  }

  lemma FinishedColumns(
    fw: map<string, ColumnSpec>, d: Schema, a: Schema, b: Schema, done: seq<DdlOp>, f: Schema, n: string)
    requires Begins(fw, a, b) && ColumnsAfter(d, b, done, f) && n in d.columns
    requires forall x :: Wanted(d, a, x) ==> x in done
    ensures n in f.columns
  {
    if n !in a.columns { assert Wanted(d, a, AddColumn(n, d.columns[n])); }
  }

  lemma FinishedUniques(
    fw: map<string, ColumnSpec>, d: Schema, a: Schema, b: Schema, done: seq<DdlOp>, f: Schema, n: string)
    requires d.uniques == map[] && Begins(fw, a, b) && UniquesAfter(b, done, f)
    requires forall x :: Wanted(d, a, x) <==> x in done
    ensures n !in f.uniques && (n in b.uniques ==> DropUnique(n) in done)
  {
    if n in a.uniques { assert Wanted(d, a, DropUnique(n)); }
  }

  lemma FinishedIndexes(
    fw: map<string, ColumnSpec>, d: Schema, a: Schema, b: Schema, done: seq<DdlOp>, f: Schema, n: string)
    requires Compiled(fw, d) && Owned(a) && Begins(fw, a, b) && IndexesAfter(d, b, done, f) && UniquesAfter(b, done, f)
    requires forall x :: Wanted(d, a, x) <==> x in done
    ensures n !in f.uniques
    ensures n in f.indexes <==> n in d.indexes
    ensures n in d.indexes ==>
            f.indexes[n].valid && (IndexMatches(f.indexes[n], d.indexes[n]) <==> KeptIndexMatches(d, a, b, n))
  {
    hide IndexMatches;
    FinishedUniques(fw, d, a, b, done, f, n);
    if n in d.indexes {
      WantedIndexStands(fw, d, a, b, done, n);
    } else {
      UnwantedIndexGone(fw, d, a, b, done, n);
    }
    hide Wanted;
  }

  lemma WantedIndexStands(fw: map<string, ColumnSpec>, d: Schema, a: Schema, b: Schema, done: seq<DdlOp>, n: string)
    requires Compiled(fw, d) && Owned(a) && Begins(fw, a, b) && n in d.indexes
    requires forall x :: Wanted(d, a, x) <==> x in done
    ensures Built(d, done, n) <==> n !in a.indexes || Rebuild(d, a, n)
    ensures !Built(d, done, n) ==> Kept(b, done, n) && b.indexes[n].valid
  {
    if n in a.uniques { BackingNeverMatches(fw, d, a, n); }
    hide IndexMatches, Compiled, Owned;
    assert Wanted(d, a, CreateIndex(n, d.indexes[n])) <==> (n !in a.indexes || Rebuild(d, a, n));
    assert Wanted(d, a, DropIndex(n)) <==> Rebuild(d, a, n);
  }

  lemma UnwantedIndexGone(fw: map<string, ColumnSpec>, d: Schema, a: Schema, b: Schema, done: seq<DdlOp>, n: string)
    requires d.uniques == map[] && Begins(fw, a, b) && n !in d.indexes
    requires forall x :: Wanted(d, a, x) <==> x in done
    ensures !Built(d, done, n) && !Kept(b, done, n)
  {
    assert Wanted(d, a, DropIndex(n)) <==> n in a.indexes && n !in a.uniques;
    assert Wanted(d, a, DropUnique(n)) <==> n in a.uniques;
  }

  /** A constraint's own index covers the whole table, so it is never taken for a compiled one. */
  lemma BackingNeverMatches(fw: map<string, ColumnSpec>, d: Schema, a: Schema, n: string)
    requires Compiled(fw, d) && Owned(a) && n in d.indexes && n in a.uniques
    ensures Rebuild(d, a, n)
  {
  }

  lemma FinishedFks(
    fw: map<string, ColumnSpec>, d: Schema, a: Schema, b: Schema, done: seq<DdlOp>, f: Schema, n: string)
    requires Begins(fw, a, b) && FksAfter(d, b, done, f)
    requires forall x :: Wanted(d, a, x) <==> x in done
    ensures n in f.foreignKeys <==> n in d.foreignKeys
    ensures n in d.foreignKeys ==>
              f.foreignKeys[n].validated
                && (FkMatches(f.foreignKeys[n], d.foreignKeys[n]) <==> KeptFkMatches(d, a, b, n))
  {
    if n in d.foreignKeys {
      if n !in a.foreignKeys || Replace(d, a, n) {
        assert Wanted(d, a, AddForeignKey(n, d.foreignKeys[n])) && Wanted(d, a, ValidateForeignKey(n));
        assert Attached(d, done, n);
      } else {
        assert !Wanted(d, a, DropForeignKey(n)) && !Wanted(d, a, AddForeignKey(n, d.foreignKeys[n]));
        assert !Attached(d, done, n);
        if !a.foreignKeys[n].validated { assert Wanted(d, a, ValidateForeignKey(n)); }
      }
    } else {
      assert !Attached(d, done, n);
      if n in a.foreignKeys { assert Wanted(d, a, DropForeignKey(n)); }
    }
  }

  lemma RestReaches(fw: map<string, ColumnSpec>, d: Schema, a: Schema, b: Schema, rest: seq<DdlOp>, f: Schema)
    requires Compiled(fw, d) && Owned(a) && Begins(fw, a, b) && IsRest(d, a, rest) && After(d, b, rest, f)
    ensures Reached(d, a, b, f)
  {
    hide Wanted, ColumnsAfter, IndexesAfter, UniquesAfter, FksAfter, Begins, Compiled, Owned, IndexMatches, FkMatches,
      KeptIndexMatches, KeptFkMatches;
    forall n | n in d.columns ensures n in f.columns { FinishedColumns(fw, d, a, b, rest, f, n); }
    forall n ensures n !in f.uniques && (n in f.indexes <==> n in d.indexes) {
      FinishedIndexes(fw, d, a, b, rest, f, n);
    }
    forall n | n in d.indexes
      ensures f.indexes[n].valid && (IndexMatches(f.indexes[n], d.indexes[n]) <==> KeptIndexMatches(d, a, b, n))
    {
      FinishedIndexes(fw, d, a, b, rest, f, n);
    }
    forall n ensures n in f.foreignKeys <==> n in d.foreignKeys { FinishedFks(fw, d, a, b, rest, f, n); }
    forall n | n in d.foreignKeys
      ensures f.foreignKeys[n].validated
              && (FkMatches(f.foreignKeys[n], d.foreignKeys[n]) <==> KeptFkMatches(d, a, b, n))
    {
      FinishedFks(fw, d, a, b, rest, f, n);
    }
  }

  // ---------------------------------------------------------------- when Diff asks for nothing

  /** Nothing to add, rebuild, validate, fill or drop. */
  ghost predicate Settled(d: Schema, f: Schema) {
    && (forall n :: n in d.columns ==> n in f.columns && !NeedsBackfill(d, f, n))
    && (forall n :: n in f.indexes <==> n in d.indexes)
    && (forall n :: n in d.indexes ==> f.indexes[n].valid && IndexMatches(f.indexes[n], d.indexes[n]))
    && (forall n :: n in f.foreignKeys <==> n in d.foreignKeys)
    && (forall n :: n in d.foreignKeys ==> FkMatches(f.foreignKeys[n], d.foreignKeys[n]) && f.foreignKeys[n].validated)
    && f.uniques == map[]
  }

  lemma SettledWantsNothing(d: Schema, f: Schema, op: DdlOp)
    requires Settled(d, f) && d.uniques == map[]
    ensures !Wanted(d, f, op)
  {
  }

  lemma {:induction false} NothingLeftToRename(d: Schema, f: Schema, renames: seq<(string, string)>)
    requires forall n :: n in d.columns ==> n in f.columns
    ensures Renamed(d, f, renames) == (f, [])
    decreases |renames|
  {
    if |renames| > 0 { NothingLeftToRename(d, f, renames[1..]); }
  }

  /** A schema that has every desired column: Diff with any renames is empty exactly when the schema is settled. */
  lemma DiffIsEmptyIffSettled(d: Schema, f: Schema, renames: seq<(string, string)>, ops: seq<DdlOp>)
    requires d.uniques == map[] && (forall n :: n in d.columns ==> n in f.columns)
    requires IsDiff(d, Some(f), renames, ops)
    ensures ops == [] <==> Settled(d, f)
  {
    NothingLeftToRename(d, f, renames);
    assert ops[0..] == ops;
    if Settled(d, f) {
      if |ops| > 0 {
        assert ops[0] in ops;
        SettledWantsNothing(d, f, ops[0]);
      }
    } else {
      var op := UnsettledWants(d, f);
      assert op in ops;
    }
  }

  lemma UnsettledWants(d: Schema, f: Schema) returns (op: DdlOp)
    requires !Settled(d, f) && d.uniques == map[] && forall n :: n in d.columns ==> n in f.columns
    ensures Wanted(d, f, op)
  {
    hide IndexMatches, FkMatches;
    if n :| n in d.columns && NeedsBackfill(d, f, n) {
      op := BackfillColumn(BackfillOpId(d.table, n), n, SourceOf(d, f, n), d.columns[n].sqlType);
    } else if n :| n in f.uniques {
      op := DropUnique(n);
    } else if n :| n in d.indexes && (n !in f.indexes || Rebuild(d, f, n)) {
      op := CreateIndex(n, d.indexes[n]);
    } else if n :| n in f.indexes && n !in d.indexes {
      op := DropIndex(n);
    } else if n :| n in d.foreignKeys && (n !in f.foreignKeys || Replace(d, f, n) || !f.foreignKeys[n].validated) {
      op := ValidateForeignKey(n);
    } else if n :| n in f.foreignKeys && n !in d.foreignKeys {
      op := DropForeignKey(n);
    }
  }

  // ---------------------------------------------------------------- texts the database echoes in another form

  /** The index as the database shows it: without the quotes its text was sent with. */
  function Echoed(i: IndexSpec): IndexSpec {
    i.(expression := Unquoted(i.expression), where := Unquoted(i.where), valid := true)
  }

  ghost predicate Quotable(s: string) { NoCast(s) && NoCast(Unquoted(s)) && (s == "" <==> Unquoted(s) == "") }

  lemma EchoMatches(i: IndexSpec)
    requires Quotable(i.expression) && Quotable(i.where)
    ensures IndexMatches(Echoed(i), i)
  {
    QuotesIgnored(i.expression);
    QuotesIgnored(i.where);
  }

  /** A finished table whose index texts are the desired ones with the quotes taken out: Diff asks for nothing. */
  lemma QuotesAreNoDifference(d: Schema, f: Schema, renames: seq<(string, string)>, ops: seq<DdlOp>)
    requires d.uniques == map[] && f.uniques == map[] && IsDiff(d, Some(f), renames, ops)
    requires forall n :: n in d.columns ==> n in f.columns && !NeedsBackfill(d, f, n)
    requires forall n :: n in d.indexes ==> Quotable(d.indexes[n].expression) && Quotable(d.indexes[n].where)
    requires f.indexes == map n | n in d.indexes :: Echoed(d.indexes[n])
    requires f.foreignKeys == map n | n in d.foreignKeys :: d.foreignKeys[n].(validated := true)
    ensures ops == []
  {
    hide IndexMatches, Echoed, IsDiff, Quotable;
    forall n | n in d.indexes ensures f.indexes[n].valid && IndexMatches(f.indexes[n], d.indexes[n]) {
      assert Echoed(d.indexes[n]).valid by { EchoIsValid(d.indexes[n]); }
      EchoMatches(d.indexes[n]);
    }
    DiffIsEmptyIffSettled(d, f, renames, ops);
  }

  lemma EchoIsValid(i: IndexSpec)
    ensures Echoed(i).valid
  {
  }

  /** An index whose text says something else, both texts in normal form, is dropped and built again. */
  lemma OtherTextIsRebuilt(d: Schema, f: Schema, renames: seq<(string, string)>, ops: seq<DdlOp>, n: string)
    requires IsDiff(d, Some(f), renames, ops) && forall m :: m in d.columns ==> m in f.columns
    requires n in d.indexes && n in f.indexes && IsNormal(d.indexes[n].expression) && IsNormal(f.indexes[n].expression)
    requires d.indexes[n].expression != f.indexes[n].expression
    ensures DropIndex(n) in ops && CreateIndex(n, d.indexes[n]) in ops
  {
    NormalIsKept(d.indexes[n].expression);
    NormalIsKept(f.indexes[n].expression);
    NothingLeftToRename(d, f, renames);
    hide IsNormal, NormalizeExpr;
    assert Wanted(d, f, DropIndex(n)) && Wanted(d, f, CreateIndex(n, d.indexes[n]));
    assert ops[0..] == ops;
  }

  /** On a table with every desired column an index is rebuilt if and only if it is invalid or differs in its normal
      form, its uniqueness, its method or the rows it covers. */
  lemma RebuiltExactly(d: Schema, f: Schema, renames: seq<(string, string)>, ops: seq<DdlOp>, n: string)
    requires IsDiff(d, Some(f), renames, ops) && forall m :: m in d.columns ==> m in f.columns
    requires n in d.indexes && n in f.indexes
    ensures var i, j := f.indexes[n], d.indexes[n];
            DropIndex(n) in ops && CreateIndex(n, j) in ops <==>
            || !i.valid || NormalizeExpr(i.expression) != NormalizeExpr(j.expression) || i.unique != j.unique
            || i.method_ != j.method_ || (i.where == "") != (j.where == "")
            || (i.where != "" && NormalizeExpr(i.where) != NormalizeExpr(j.where))
  {
    NothingLeftToRename(d, f, renames);
    hide NormalizeExpr;
    assert ops[0..] == ops;
    assert Wanted(d, f, DropIndex(n)) <==> DropIndex(n) in ops;
    assert Wanted(d, f, CreateIndex(n, d.indexes[n])) <==> CreateIndex(n, d.indexes[n]) in ops;
  }

  /** A foreign key is replaced if and only if it is on another column, refers to another table or column, or does
      something else on delete. */
  lemma ReplacedExactly(d: Schema, f: Schema, renames: seq<(string, string)>, ops: seq<DdlOp>, n: string)
    requires IsDiff(d, Some(f), renames, ops) && forall m :: m in d.columns ==> m in f.columns
    requires n in d.foreignKeys && n in f.foreignKeys
    ensures var i, j := f.foreignKeys[n], d.foreignKeys[n];
            && (DropForeignKey(n) in ops && AddForeignKey(n, j) in ops <==>
                || i.column != j.column || i.refTable != j.refTable || i.refColumn != j.refColumn
                || i.onDelete != j.onDelete)
            && (ValidateForeignKey(n) in ops <==> DropForeignKey(n) in ops || !i.validated)
  {
    NothingLeftToRename(d, f, renames);
    assert ops[0..] == ops;
    assert Wanted(d, f, DropForeignKey(n)) <==> DropForeignKey(n) in ops;
    assert Wanted(d, f, AddForeignKey(n, d.foreignKeys[n])) <==> AddForeignKey(n, d.foreignKeys[n]) in ops;
    assert Wanted(d, f, ValidateForeignKey(n)) <==> ValidateForeignKey(n) in ops;
  }

  predicate Drops(op: DdlOp) { op.DropForeignKey? || op.DropUnique? || op.DropIndex? }

  predicate Creates(op: DdlOp) { op.CreateIndex? || op.AddUnique? || op.AddForeignKey? }

  /** In a Diff nothing is created before everything is dropped, nothing is filled before its column and trigger are
      there or after an index is built, constraints go before indexes, and foreign keys are validated last. */
  lemma DiffOrder(d: Schema, a: Schema, rest: seq<DdlOp>, i: nat, j: nat)
    requires IsRest(d, a, rest) && i < |rest| && j < |rest|
    ensures Drops(rest[i]) && Creates(rest[j]) ==> i < j
    ensures rest[i].AddColumn? && (rest[j].AddSyncTrigger? || rest[j].BackfillColumn?) ==> i < j
    ensures rest[i].AddSyncTrigger? && rest[j].BackfillColumn? ==> i < j
    ensures rest[i].BackfillColumn? && (Drops(rest[j]) || Creates(rest[j])) ==> i < j
    ensures rest[i].DropUnique? && rest[j].DropIndex? ==> i < j
    ensures rest[i].CreateIndex? && (rest[j].AddUnique? || rest[j].AddForeignKey?) ==> i < j
    ensures Creates(rest[i]) && rest[j].ValidateForeignKey? ==> i < j
  {
    if j < i { assert Rank(rest[j]) <= Rank(rest[i]); }
  }
}
