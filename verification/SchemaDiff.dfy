/** Diff: the ordered operations that turn the actual schema into the desired one. */
module SchemaDiff {
  import opened Prelude
  import opened PhysicalSchema
  import opened Ordering

  // ---------------------------------------------------------------- renames, applied first

  /** The schema every later step sees, and the rename operations that lead to it. */
  function Renamed(desired: Schema, copy: Schema, renames: seq<(string, string)>): (Schema, seq<DdlOp>)
    decreases |renames|
  {
    if |renames| == 0 then (copy, [])
    else
      var (from, to) := renames[0];
      if to in copy.columns || from !in copy.columns || to !in desired.columns then Renamed(desired, copy, renames[1..])
      else
        var (s, ops) := Renamed(desired, Move(copy, from, to), renames[1..]);
        (s, [RenameColumn(from, to)] + ops)
  }

  function Move(s: Schema, from: string, to: string): Schema
    requires from in s.columns
  {
    s.(columns := (s.columns - {from})[to := s.columns[from]])
  }

  function Head(desired: Schema, actual: Option<Schema>, renames: seq<(string, string)>): (Schema, seq<DdlOp>) {
    match actual
    case Some(a) => Renamed(desired, a, renames)
    case None =>
      var (s, ops) := Renamed(desired, EmptySchema(desired.table), renames);
      (s, [CreateTable] + ops)
  }

  // ---------------------------------------------------------------- what each step wants

  predicate NeedsBackfill(d: Schema, a: Schema, n: string)
    requires n in d.columns
  {
    if n in a.columns then a.columns[n].origin.Generated? && !a.columns[n].origin.backfilled
    else d.columns[n].origin.Generated?
  }

  function SourceOf(d: Schema, a: Schema, n: string): string
    requires n in d.columns && NeedsBackfill(d, a, n)
  {
    if n in a.columns then a.columns[n].origin.source else d.columns[n].origin.source
  }

  predicate Rebuild(d: Schema, a: Schema, n: string)
    requires n in d.indexes
  {
    n in a.indexes && (!a.indexes[n].valid || !IndexMatches(a.indexes[n], d.indexes[n]))
  }

  predicate Replace(d: Schema, a: Schema, n: string)
    requires n in d.foreignKeys
  {
    n in a.foreignKeys && !FkMatches(a.foreignKeys[n], d.foreignKeys[n])
  }

  /** Exactly the operations Diff asks for after the renames. */
  predicate Wanted(d: Schema, a: Schema, op: DdlOp) {
    match op
    case CreateTable => false
    case RenameColumn(_, _) => false
    case AddColumn(n, spec) => n in d.columns && n !in a.columns && spec == d.columns[n]
    case AddSyncTrigger(field, ty) =>
      exists n :: n in d.columns && NeedsBackfill(d, a, n) && field == SourceOf(d, a, n) && ty == d.columns[n].sqlType
    case BackfillColumn(id, n, source, ty) =>
      n in d.columns && NeedsBackfill(d, a, n) && id == BackfillOpId(d.table, n) && source == SourceOf(d, a, n)
      && ty == d.columns[n].sqlType
    case CreateIndex(n, spec) => n in d.indexes && spec == d.indexes[n] && (n !in a.indexes || Rebuild(d, a, n))
    case DropIndex(n) => if n in d.indexes then Rebuild(d, a, n) else n in a.indexes && n !in a.uniques
    case AddForeignKey(n, spec) =>
      n in d.foreignKeys && spec == d.foreignKeys[n] && (n !in a.foreignKeys || Replace(d, a, n))
    case ValidateForeignKey(n) =>
      n in d.foreignKeys && (n !in a.foreignKeys || Replace(d, a, n) || !a.foreignKeys[n].validated)
    case DropForeignKey(n) => if n in d.foreignKeys then Replace(d, a, n) else n in a.foreignKeys
    case AddUnique(n, spec) =>
      n in d.uniques && spec == d.uniques[n] && (n !in a.uniques || a.uniques[n].columns != spec.columns)
    case DropUnique(n) => n in a.uniques && (n in d.uniques ==> a.uniques[n].columns != d.uniques[n].columns)
  }

  /** No operation twice, apart from the idempotent trigger definitions. */
  ghost predicate Once(ops: seq<DdlOp>) { forall op: DdlOp :: !op.AddSyncTrigger? ==> multiset(ops)[op] <= 1 }

  ghost predicate IsRest(d: Schema, a: Schema, rest: seq<DdlOp>) {
    RankSorted(rest) && Once(rest) && forall op :: op in rest <==> Wanted(d, a, op)
  }

  /** The operations of one pass: table and renames in their order, then every wanted operation once, by rank. */
  ghost predicate IsDiff(d: Schema, actual: Option<Schema>, renames: seq<(string, string)>, ops: seq<DdlOp>) {
    var (a, head) := Head(d, actual, renames);
    |head| <= |ops| && ops[..|head|] == head && IsRest(d, a, ops[|head|..])
  }

  // ---------------------------------------------------------------- name by name

  function ColumnOps(d: Schema, a: Schema, n: string): seq<DdlOp> {
    if n !in d.columns then []
    else
      (if n in a.columns then [] else [AddColumn(n, d.columns[n])])
      + (if NeedsBackfill(d, a, n) then
           [AddSyncTrigger(SourceOf(d, a, n), d.columns[n].sqlType),
            BackfillColumn(BackfillOpId(d.table, n), n, SourceOf(d, a, n), d.columns[n].sqlType)]
         else [])
  }

  function IndexOps(d: Schema, a: Schema, n: string): seq<DdlOp> {
    if n !in d.indexes then []
    else if n !in a.indexes then [CreateIndex(n, d.indexes[n])]
    else if Rebuild(d, a, n) then [DropIndex(n), CreateIndex(n, d.indexes[n])]
    else []
  }

  function StaleIndexOps(d: Schema, a: Schema, n: string): seq<DdlOp> {
    if n in a.indexes && n !in d.indexes && n !in a.uniques then [DropIndex(n)] else []
  }

  function FkOps(d: Schema, a: Schema, n: string): seq<DdlOp> {
    if n !in d.foreignKeys then []
    else if n !in a.foreignKeys then [AddForeignKey(n, d.foreignKeys[n]), ValidateForeignKey(n)]
    else if Replace(d, a, n) then [DropForeignKey(n), AddForeignKey(n, d.foreignKeys[n]), ValidateForeignKey(n)]
    else if !a.foreignKeys[n].validated then [ValidateForeignKey(n)]
    else []
  }

  function StaleFkOps(d: Schema, a: Schema, n: string): seq<DdlOp> {
    if n in a.foreignKeys && n !in d.foreignKeys then [DropForeignKey(n)] else []
  }

  function UniqueOps(d: Schema, a: Schema, n: string): seq<DdlOp> {
    if n !in d.uniques then []
    else if n !in a.uniques then [AddUnique(n, d.uniques[n])]
    else if a.uniques[n].columns != d.uniques[n].columns then [DropUnique(n), AddUnique(n, d.uniques[n])]
    else []
  }

  function StaleUniqueOps(d: Schema, a: Schema, n: string): seq<DdlOp> {
    if n in a.uniques && n !in d.uniques then [DropUnique(n)] else []
  }

  // ---------------------------------------------------------------- the loops of Diff

  datatype Family = Columns | Indexes | StaleIndexes | ForeignKeys | StaleForeignKeys | Uniques | StaleUniques

  /** The operations one loop of Diff appends for one name. */
  function OpsFor(f: Family, d: Schema, a: Schema, n: string): seq<DdlOp> {
    match f
    case Columns => ColumnOps(d, a, n)
    case Indexes => IndexOps(d, a, n)
    case StaleIndexes => StaleIndexOps(d, a, n)
    case ForeignKeys => FkOps(d, a, n)
    case StaleForeignKeys => StaleFkOps(d, a, n)
    case Uniques => UniqueOps(d, a, n)
    case StaleUniques => StaleUniqueOps(d, a, n)
  }

  function NamesOf(f: Family, d: Schema, a: Schema): set<string> {
    match f
    case Columns => d.columns.Keys
    case Indexes => d.indexes.Keys
    case StaleIndexes => a.indexes.Keys
    case ForeignKeys => d.foreignKeys.Keys
    case StaleForeignKeys => a.foreignKeys.Keys
    case Uniques => d.uniques.Keys
    case StaleUniques => a.uniques.Keys
  }

  function Flat(f: Family, d: Schema, a: Schema, names: seq<string>): seq<DdlOp> {
    if |names| == 0 then [] else Flat(f, d, a, names[..|names| - 1]) + OpsFor(f, d, a, names[|names| - 1])
  }

  method AppendFor(f: Family, d: Schema, a: Schema, ops: seq<DdlOp>) returns (r: seq<DdlOp>, ghost names: seq<string>)
    ensures Ascending(names) && forall n :: n in names <==> n in NamesOf(f, d, a)
    ensures r == ops + Flat(f, d, a, names)
  {
    hide OpsFor, NamesOf;
    var keys := SortedKeys(NamesOf(f, d, a));
    r := ops;
    var i := 0;
    while i < |keys|
      invariant 0 <= i <= |keys|
      invariant r == ops + Flat(f, d, a, keys[..i])
    {
      assert keys[..i + 1][..i] == keys[..i];
      r := r + OpsFor(f, d, a, keys[i]);
      i := i + 1;
    }
    assert keys[..|keys|] == keys;
    names := keys;
  }

  /** The name an operation is about. */
  function Target(op: DdlOp): string {
    match op
    case AddColumn(n, _) => n
    case BackfillColumn(_, n, _, _) => n
    case CreateIndex(n, _) => n
    case DropIndex(n) => n
    case AddForeignKey(n, _) => n
    case ValidateForeignKey(n) => n
    case DropForeignKey(n) => n
    case AddUnique(n, _) => n
    case DropUnique(n) => n
    case _ => ""
  }

  lemma {:induction false} FlatHas(f: Family, d: Schema, a: Schema, names: seq<string>, op: DdlOp)
    ensures op in Flat(f, d, a, names) <==> exists n :: n in names && op in OpsFor(f, d, a, n)
    decreases |names|
  {
    hide OpsFor;
    if |names| > 0 {
      var last := names[|names| - 1];
      FlatHas(f, d, a, names[..|names| - 1], op);
      assert names == names[..|names| - 1] + [last];
    }
  }

  lemma OpsForNames(f: Family, d: Schema, a: Schema, n: string, op: DdlOp)
    requires !op.AddSyncTrigger?
    ensures multiset(OpsFor(f, d, a, n))[op] <= 1
    ensures op in OpsFor(f, d, a, n) ==> Target(op) == n
  {
    OpsForDiffer(f, d, a, n);
    hide OpsFor;
    CountAtMostOnce(OpsFor(f, d, a, n), op);
  }

  /** The operations for one name are of different kinds and all about that name. */
  lemma OpsForDiffer(f: Family, d: Schema, a: Schema, n: string)
    ensures var ops := OpsFor(f, d, a, n);
            && (forall i, j :: 0 <= i < j < |ops| ==> ops[i] != ops[j])
            && (forall i :: 0 <= i < |ops| && !ops[i].AddSyncTrigger? ==> Target(ops[i]) == n)
  {
  }

  lemma {:induction false} CountAtMostOnce(ops: seq<DdlOp>, op: DdlOp)
    requires forall i, j :: 0 <= i < j < |ops| ==> ops[i] != ops[j]
    ensures multiset(ops)[op] <= 1
    decreases |ops|
  {
    if |ops| > 0 {
      CountAtMostOnce(ops[1..], op);
      assert ops == [ops[0]] + ops[1..];
      if op == ops[0] { assert op !in ops[1..]; }
    }
  }

  lemma {:induction false} FlatOnce(f: Family, d: Schema, a: Schema, names: seq<string>, op: DdlOp)
    requires Ascending(names) && !op.AddSyncTrigger?
    ensures multiset(Flat(f, d, a, names))[op] <= 1
    decreases |names|
  {
    hide OpsFor, Target;
    if |names| > 0 {
      var front, last := names[..|names| - 1], names[|names| - 1];
      FlatOnce(f, d, a, front, op);
      OpsForNames(f, d, a, last, op);
      FlatHas(f, d, a, front, op);
      if op in Flat(f, d, a, front) && op in OpsFor(f, d, a, last) {
        var n :| n in front && op in OpsFor(f, d, a, n);
        OpsForNames(f, d, a, n, op);
        AscendingDistinct(names, n);
      }
      assert multiset(Flat(f, d, a, names)) == multiset(Flat(f, d, a, front)) + multiset(OpsFor(f, d, a, last));
    }
  }

  /** The loop an operation can come from. */
  function FamilyOf(d: Schema, op: DdlOp): Family {
    match op
    case CreateIndex(_, _) => Indexes
    case DropIndex(n) => if n in d.indexes then Indexes else StaleIndexes
    case AddForeignKey(_, _) => ForeignKeys
    case ValidateForeignKey(_) => ForeignKeys
    case DropForeignKey(n) => if n in d.foreignKeys then ForeignKeys else StaleForeignKeys
    case AddUnique(_, _) => Uniques
    case DropUnique(n) => if n in d.uniques then Uniques else StaleUniques
    case _ => Columns
  }

  lemma OnlyItsFamily(f: Family, d: Schema, a: Schema, n: string, op: DdlOp)
    requires op in OpsFor(f, d, a, n)
    ensures f == FamilyOf(d, op) && n in NamesOf(f, d, a) && Wanted(d, a, op)
  {
  }

  lemma WantedHasName(d: Schema, a: Schema, op: DdlOp) returns (n: string)
    requires Wanted(d, a, op)
    ensures n in NamesOf(FamilyOf(d, op), d, a) && op in OpsFor(FamilyOf(d, op), d, a, n)
  {
    if op.AddSyncTrigger? {
      n :| n in d.columns && NeedsBackfill(d, a, n) && op.field == SourceOf(d, a, n)
        && op.sqlType == d.columns[n].sqlType;
      assert op in ColumnOps(d, a, n);
    } else {
      n := Target(op);
    }
  }

  lemma FlatIsFamily(f: Family, d: Schema, a: Schema, names: seq<string>, op: DdlOp)
    requires Ascending(names) && forall n :: n in names <==> n in NamesOf(f, d, a)
    ensures op in Flat(f, d, a, names) <==> Wanted(d, a, op) && f == FamilyOf(d, op)
    ensures !op.AddSyncTrigger? ==> multiset(Flat(f, d, a, names))[op] <= 1
  {
    hide OpsFor, Wanted, FamilyOf, NamesOf;
    FlatHas(f, d, a, names, op);
    if op in Flat(f, d, a, names) {
      var n :| n in names && op in OpsFor(f, d, a, n);
      OnlyItsFamily(f, d, a, n, op);
    }
    if Wanted(d, a, op) && f == FamilyOf(d, op) { var n := WantedHasName(d, a, op); }
    if !op.AddSyncTrigger? { FlatOnce(f, d, a, names, op); }
  }

  // ---------------------------------------------------------------- Diff

  /** Step 1, on a mutable copy: a rename applies only from a column that is there to one that is wanted and free. */
  method ApplyRenames(desired: Schema, actual: Schema, renames: seq<(string, string)>, ops: seq<DdlOp>)
    returns (copy: Schema, r: seq<DdlOp>)
    ensures (copy, r) == (Renamed(desired, actual, renames).0, ops + Renamed(desired, actual, renames).1)
  {
    copy := actual;
    r := ops;
    var i := 0;
    assert renames[0..] == renames;
    while i < |renames|
      invariant 0 <= i <= |renames|
      invariant Renamed(desired, actual, renames).0 == Renamed(desired, copy, renames[i..]).0
      invariant ops + Renamed(desired, actual, renames).1 == r + Renamed(desired, copy, renames[i..]).1
    {
      assert renames[i..][1..] == renames[i + 1..] && renames[i..][0] == renames[i];
      var (from, to) := renames[i];
      if to !in copy.columns && from in copy.columns && to in desired.columns {
        ghost var before, done := copy, r;
        copy := copy.(columns := (copy.columns - {from})[to := copy.columns[from]]);
        r := r + [RenameColumn(from, to)];
        assert done + Renamed(desired, before, renames[i..]).1 == r + Renamed(desired, copy, renames[i + 1..]).1;
      }
      i := i + 1;
    }
    assert renames[|renames|..] == [] && r + [] == r;
  }

  lemma {:induction false} RenamesOnly(desired: Schema, copy: Schema, renames: seq<(string, string)>)
    ensures forall op :: op in Renamed(desired, copy, renames).1 ==> op.RenameColumn?
    decreases |renames|
  {
    if |renames| > 0 {
      var (from, to) := renames[0];
      if to in copy.columns || from !in copy.columns || to !in desired.columns {
        RenamesOnly(desired, copy, renames[1..]);
      } else {
        RenamesOnly(desired, Move(copy, from, to), renames[1..]);
      }
    }
  }

  lemma HeadRanksFirst(d: Schema, actual: Option<Schema>, renames: seq<(string, string)>)
    ensures RankSorted(Head(d, actual, renames).1)
    ensures forall op :: op in Head(d, actual, renames).1 ==> Rank(op) <= 1
  {
    var base := match actual { case Some(s) => s case None => EmptySchema(d.table) };
    RenamesOnly(d, base, renames);
  }

  /** Steps 2 to 5 together ask for exactly the wanted operations, each once. */
  lemma AllFamilies(d: Schema, a: Schema, k: seq<seq<string>>, op: DdlOp)
    requires |k| == 7 && (forall i :: 0 <= i < 7 ==> Ascending(k[i]))
    requires (forall n :: n in k[0] <==> n in NamesOf(Columns, d, a))
             && (forall n :: n in k[1] <==> n in NamesOf(Indexes, d, a))
    requires (forall n :: n in k[2] <==> n in NamesOf(StaleIndexes, d, a))
             && (forall n :: n in k[3] <==> n in NamesOf(ForeignKeys, d, a))
    requires (forall n :: n in k[4] <==> n in NamesOf(StaleForeignKeys, d, a))
             && (forall n :: n in k[5] <==> n in NamesOf(Uniques, d, a))
    requires forall n :: n in k[6] <==> n in NamesOf(StaleUniques, d, a)
    ensures op in AllOps(d, a, k) <==> Wanted(d, a, op)
    ensures !op.AddSyncTrigger? ==> multiset(AllOps(d, a, k))[op] <= 1
  {
    hide Flat, Wanted, FamilyOf, NamesOf, Ascending;
    FlatIsFamily(Columns, d, a, k[0], op);
    FlatIsFamily(Indexes, d, a, k[1], op);
    FlatIsFamily(StaleIndexes, d, a, k[2], op);
    FlatIsFamily(ForeignKeys, d, a, k[3], op);
    FlatIsFamily(StaleForeignKeys, d, a, k[4], op);
    FlatIsFamily(Uniques, d, a, k[5], op);
    FlatIsFamily(StaleUniques, d, a, k[6], op);
  }

  function AllOps(d: Schema, a: Schema, k: seq<seq<string>>): seq<DdlOp>
    requires |k| == 7
  {
    Flat(Columns, d, a, k[0]) + Flat(Indexes, d, a, k[1]) + Flat(StaleIndexes, d, a, k[2])
      + Flat(ForeignKeys, d, a, k[3])
    + Flat(StaleForeignKeys, d, a, k[4]) + Flat(Uniques, d, a, k[5]) + Flat(StaleUniques, d, a, k[6])
  }

  lemma WantedRanks(d: Schema, a: Schema, op: DdlOp)
    requires Wanted(d, a, op)
    ensures Rank(op) >= 2
  {
  }

  lemma SortedIsRest(d: Schema, a: Schema, ops: seq<DdlOp>)
    requires Once(ops) && forall op :: op in ops <==> Wanted(d, a, op)
    ensures IsRest(d, a, StableSort(ops))
  {
    hide Wanted, Rank, StableSort, RankSorted;
    StableSortSorts(ops);
    forall op ensures op in StableSort(ops) <==> op in ops {
      assert op in multiset(StableSort(ops)) <==> op in multiset(ops);
    }
  }

  method Diff(desired: Schema, actual: Option<Schema>, renames: seq<(string, string)>) returns (ops: seq<DdlOp>)
    ensures IsDiff(desired, actual, renames, ops)
  {
    hide Wanted, Rank, StableSort, RankSorted, Flat, NamesOf, Renamed, Once, Ascending;
    var base := match actual { case Some(s) => s case None => EmptySchema(desired.table) };
    ops := match actual { case Some(_) => [] case None => [CreateTable] };
    var a;
    a, ops := ApplyRenames(desired, base, renames, ops);
    ghost var head := ops;
    assert [] + Renamed(desired, base, renames).1 == Renamed(desired, base, renames).1;
    assert (a, head) == Head(desired, actual, renames);
    var rest: seq<DdlOp> := [];
    ghost var k0, k1, k2, k3, k4, k5, k6;
    rest, k0 := AppendFor(Columns, desired, a, rest);
    rest, k1 := AppendFor(Indexes, desired, a, rest);
    rest, k2 := AppendFor(StaleIndexes, desired, a, rest);
    rest, k3 := AppendFor(ForeignKeys, desired, a, rest);
    rest, k4 := AppendFor(StaleForeignKeys, desired, a, rest);
    rest, k5 := AppendFor(Uniques, desired, a, rest);
    rest, k6 := AppendFor(StaleUniques, desired, a, rest);
    ghost var k := [k0, k1, k2, k3, k4, k5, k6];
    assert rest == AllOps(desired, a, k);
    RestIsWanted(desired, a, k);
    HeadRanksFirst(desired, actual, renames);
    forall h, r | h in head && r in rest ensures Rank(h) <= Rank(r) { WantedRanks(desired, a, r); }
    StableSortKeepsHead(head, rest);
    SortedIsRest(desired, a, rest);
    ops := TopoSort(ops + rest);
  }

  lemma RestIsWanted(d: Schema, a: Schema, k: seq<seq<string>>)
    requires |k| == 7 && (forall i :: 0 <= i < 7 ==> Ascending(k[i]))
    requires (forall n :: n in k[0] <==> n in NamesOf(Columns, d, a))
             && (forall n :: n in k[1] <==> n in NamesOf(Indexes, d, a))
    requires (forall n :: n in k[2] <==> n in NamesOf(StaleIndexes, d, a))
             && (forall n :: n in k[3] <==> n in NamesOf(ForeignKeys, d, a))
    requires (forall n :: n in k[4] <==> n in NamesOf(StaleForeignKeys, d, a))
             && (forall n :: n in k[5] <==> n in NamesOf(Uniques, d, a))
    requires forall n :: n in k[6] <==> n in NamesOf(StaleUniques, d, a)
    ensures Once(AllOps(d, a, k)) && forall op :: op in AllOps(d, a, k) <==> Wanted(d, a, op)
  {
    hide Wanted, NamesOf, AllOps, Ascending;
    forall op ensures op in AllOps(d, a, k) <==> Wanted(d, a, op) { AllFamilies(d, a, k, op); }
    forall op: DdlOp | !op.AddSyncTrigger? ensures multiset(AllOps(d, a, k))[op] <= 1 { AllFamilies(d, a, k, op); }
  }

  /** There is a Diff for whatever Introspect finds. */
  lemma DiffExists(d: Schema, actual: Option<Schema>, renames: seq<(string, string)>) returns (ops: seq<DdlOp>)
    ensures IsDiff(d, actual, renames, ops)
  {
    hide Wanted, NamesOf, AllOps, Ascending, StableSort, Once, RankSorted, Head;
    var (a, head) := Head(d, actual, renames);
    var k0 := AscendingExists(NamesOf(Columns, d, a));
    var k1 := AscendingExists(NamesOf(Indexes, d, a));
    var k2 := AscendingExists(NamesOf(StaleIndexes, d, a));
    var k3 := AscendingExists(NamesOf(ForeignKeys, d, a));
    var k4 := AscendingExists(NamesOf(StaleForeignKeys, d, a));
    var k5 := AscendingExists(NamesOf(Uniques, d, a));
    var k6 := AscendingExists(NamesOf(StaleUniques, d, a));
    var k := [k0, k1, k2, k3, k4, k5, k6];
    RestIsWanted(d, a, k);
    SortedIsRest(d, a, AllOps(d, a, k));
    ops := head + StableSort(AllOps(d, a, k));
    assert ops[|head|..] == StableSort(AllOps(d, a, k));
  }
}
