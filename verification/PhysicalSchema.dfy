/** Physical schemas, the DDL operations between them, and when two descriptions match. */
module PhysicalSchema {
  import opened Normalize

  datatype Origin = Framework | Data | Generated(source: string, backfilled: bool)

  datatype ColumnSpec = ColumnSpec(sqlType: string, nullable: bool, origin: Origin)

  /** An empty `where` is a full-table index. */
  datatype IndexSpec = IndexSpec(expression: string, unique: bool, method_: string, valid: bool, where: string)

  datatype OnDelete = Restrict | Cascade | SetNull

  datatype FkSpec = FkSpec(column: string, refTable: string, refColumn: string, onDelete: OnDelete, validated: bool)

  datatype UniqueSpec = UniqueSpec(columns: seq<string>)

  datatype Schema = Schema(
    table: string,
    columns: map<string, ColumnSpec>,
    indexes: map<string, IndexSpec>,
    foreignKeys: map<string, FkSpec>,
    uniques: map<string, UniqueSpec>)

  function EmptySchema(table: string): Schema { Schema(table, map[], map[], map[], map[]) }

  datatype DdlOp =
    | CreateTable
    | RenameColumn(from: string, to: string)
    | AddColumn(column: string, spec: ColumnSpec)
    | AddSyncTrigger(field: string, sqlType: string)
    | BackfillColumn(opId: string, backfill: string, source: string, sqlType: string)
    | DropForeignKey(fk: string)
    | DropUnique(uq: string)
    | DropIndex(index: string)
    | CreateIndex(index: string, indexSpec: IndexSpec)
    | AddUnique(uq: string, uniqueSpec: UniqueSpec)
    | AddForeignKey(fk: string, fkSpec: FkSpec)
    | ValidateForeignKey(fk: string)

  /** Every drop comes before every create of its family, and what others stand on comes first. */
  function Rank(op: DdlOp): nat {
    match op
    case CreateTable => 0
    case RenameColumn(_, _) => 1
    case AddColumn(_, _) => 2
    case AddSyncTrigger(_, _) => 3
    case BackfillColumn(_, _, _, _) => 4
    case DropForeignKey(_) => 5
    case DropUnique(_) => 6
    case DropIndex(_) => 7
    case CreateIndex(_, _) => 8
    case AddUnique(_, _) => 9
    case AddForeignKey(_, _) => 10
    case ValidateForeignKey(_) => 11
  }

  predicate WhereMatches(actual: string, desired: string) {
    (actual == "" && desired == "")
      || (actual != "" && desired != "" && NormalizeExpr(actual) == NormalizeExpr(desired))
  }

  predicate IndexMatches(actual: IndexSpec, desired: IndexSpec) {
    && NormalizeExpr(actual.expression) == NormalizeExpr(desired.expression)
    && actual.unique == desired.unique
    && actual.method_ == desired.method_
    && WhereMatches(actual.where, desired.where)
  }

  predicate FkMatches(actual: FkSpec, desired: FkSpec) {
    && actual.column == desired.column
    && actual.refTable == desired.refTable
    && actual.refColumn == desired.refColumn
    && actual.onDelete == desired.onDelete
  }

  function BackfillOpId(table: string, column: string): string { "backfill:" + table + ":" + column }

  // ---------------------------------------------------------------- stable sort by rank

  /** The place of an earlier operation among later ones: before the first that ranks no lower. */
  function InsertOp(op: DdlOp, ops: seq<DdlOp>): seq<DdlOp> {
    if |ops| == 0 || Rank(op) <= Rank(ops[0]) then [op] + ops else [ops[0]] + InsertOp(op, ops[1..])
  }

  function StableSort(ops: seq<DdlOp>): seq<DdlOp> {
    if |ops| == 0 then [] else InsertOp(ops[0], StableSort(ops[1..]))
  }

  predicate RankSorted(ops: seq<DdlOp>) { forall i, j :: 0 <= i < j < |ops| ==> Rank(ops[i]) <= Rank(ops[j]) }

  lemma {:induction false} InsertOpSorts(op: DdlOp, ops: seq<DdlOp>)
    requires RankSorted(ops)
    ensures RankSorted(InsertOp(op, ops))
    ensures multiset(InsertOp(op, ops)) == multiset(ops) + multiset{op}
    decreases |ops|
  {
    hide Rank;
    if |ops| > 0 && Rank(op) > Rank(ops[0]) {
      InsertOpSorts(op, ops[1..]);
      var t := InsertOp(op, ops[1..]);
      assert ops == [ops[0]] + ops[1..];
      forall j | 0 <= j < |t| ensures Rank(ops[0]) <= Rank(t[j]) {
        assert t[j] in multiset(t);
        assert t[j] == op || t[j] in ops[1..];
      }
    }
  }

  lemma {:induction false} StableSortSorts(ops: seq<DdlOp>)
    ensures RankSorted(StableSort(ops)) && multiset(StableSort(ops)) == multiset(ops)
    decreases |ops|
  {
    hide Rank, InsertOp;
    if |ops| > 0 {
      StableSortSorts(ops[1..]);
      InsertOpSorts(ops[0], StableSort(ops[1..]));
      assert ops == [ops[0]] + ops[1..];
    }
  }

  /** Operations that already stand in front of everything stay there, in their order. */
  lemma {:induction false} StableSortKeepsHead(head: seq<DdlOp>, rest: seq<DdlOp>)
    requires RankSorted(head) && forall h, r :: h in head && r in rest ==> Rank(h) <= Rank(r)
    ensures StableSort(head + rest) == head + StableSort(rest)
    decreases |head|
  {
    hide Rank, InsertOp;
    if |head| == 0 {
      assert head + rest == rest;
    } else {
      var sorted := StableSort(rest);
      StableSortKeepsHead(head[1..], rest);
      assert (head + rest)[1..] == head[1..] + rest && (head + rest)[0] == head[0];
      FirstRanksNoLower(head, rest);
      assert [head[0]] + (head[1..] + sorted) == head + sorted;
    }
  }

  lemma FirstRanksNoLower(head: seq<DdlOp>, rest: seq<DdlOp>)
    requires |head| > 0 && RankSorted(head) && forall h, r :: h in head && r in rest ==> Rank(h) <= Rank(r)
    ensures InsertOp(head[0], head[1..] + StableSort(rest)) == [head[0]] + (head[1..] + StableSort(rest))
  {
    hide Rank, StableSort;
    StableSortSorts(rest);
    var sorted := StableSort(rest);
    if |head| == 1 && |sorted| > 0 {
      assert sorted[0] in multiset(sorted);
      assert sorted[0] in rest && head[0] in head;
    }
  }

  method InsertByRank(op: DdlOp, ops: seq<DdlOp>) returns (r: seq<DdlOp>)
    ensures r == InsertOp(op, ops)
  {
    hide Rank;
    var j := 0;
    while j < |ops| && Rank(ops[j]) < Rank(op)
      invariant 0 <= j <= |ops|
      invariant InsertOp(op, ops) == ops[..j] + InsertOp(op, ops[j..])
    {
      InsertStep(op, ops, j);
      j := j + 1;
    }
    r := ops[..j] + ([op] + ops[j..]);
  }

  lemma InsertStep(op: DdlOp, ops: seq<DdlOp>, j: nat)
    requires j < |ops| && Rank(ops[j]) < Rank(op)
    ensures ops[..j] + InsertOp(op, ops[j..]) == ops[..j + 1] + InsertOp(op, ops[j + 1..])
  {
    hide Rank;
    assert ops[j..][1..] == ops[j + 1..] && ops[j..][0] == ops[j];
    assert ops[..j + 1] == ops[..j] + [ops[j]];
    assert InsertOp(op, ops[j..]) == [ops[j]] + InsertOp(op, ops[j + 1..]);
  }

  /** topoSort: insertion of each operation, from the last to the first. */
  method TopoSort(ops: seq<DdlOp>) returns (sorted: seq<DdlOp>)
    ensures sorted == StableSort(ops)
  {
    hide Rank, InsertOp;
    sorted := [];
    var i := |ops|;
    while i > 0
      invariant 0 <= i <= |ops|
      invariant sorted == StableSort(ops[i..])
    {
      i := i - 1;
      assert ops[i..][1..] == ops[i + 1..];
      sorted := InsertByRank(ops[i], sorted);
    }
    assert ops[0..] == ops;
  }
}
