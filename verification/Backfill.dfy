/** The checkpointed backfill of a synced column, against concurrent writers under the sync trigger and crashes
    at any point. A row id is a UUID read as a number in byte order; the nil UUID is 0. */
module Backfill {
  import opened Prelude

  /** `source` is what the column should hold: the field's value in the row's data, cast. */
  datatype BRow = BRow(tenant: string, source: Option<string>, column: Option<string>)

  datatype Scope = SingleTenant(tenant: string) | AllTenants

  /** The progress row of one operation. */
  datatype Ledger = Ledger(cursor: Option<nat>, completed: bool)

  predicate InScope(scope: Scope, row: BRow) {
    match scope { case SingleTenant(t) => row.tenant == t case AllTenants => true }
  }

  predicate Synced(row: BRow) { row.column == row.source }

  function Filled(row: BRow): BRow { row.(column := row.source) }

  function CursorOf(ledger: Option<Ledger>): nat {
    match ledger { case Some(Ledger(Some(c), _)) => c case _ => 0 }
  }

  /** The rows a batch may pick from: WHERE id > cursor, in scope. */
  function Above(scope: Scope, rows: map<nat, BRow>, cursor: nat): set<nat> {
    set id | id in rows && id > cursor && InScope(scope, rows[id])
  }

  /** ORDER BY id LIMIT n. */
  ghost predicate IsBatch(ids: set<nat>, from: set<nat>, n: nat) {
    && ids <= from && |ids| <= n && (|ids| < n ==> ids == from)
    && forall x, y :: x in ids && y in from && y !in ids ==> x < y
  }

  function Fill(rows: map<nat, BRow>, ids: set<nat>): map<nat, BRow> {
    map id | id in rows :: if id in ids then Filled(rows[id]) else rows[id]
  }

  function SetOf(ids: seq<nat>): set<nat> { set x | x in ids }

  ghost predicate IsMax(ids: set<nat>, m: nat) { m in ids && forall x :: x in ids ==> x <= m }

  const BATCH_SIZE: nat := 5000

  // ---------------------------------------------------------------- the sequential loop

  /** maxUUID. */
  method MaxUuid(ids: seq<nat>) returns (m: nat)
    requires |ids| > 0
    ensures m in ids && forall x :: x in ids ==> x <= m
  {
    m := ids[0];
    var i := 1;
    while i < |ids|
      invariant 1 <= i <= |ids| && m in ids
      invariant forall k :: 0 <= k < i ==> ids[k] <= m
    {
      if ids[i] > m { m := ids[i]; }
      i := i + 1;
    }
  }

  class Table {
    var rows: map<nat, BRow>
    var ledger: Option<Ledger>

    constructor (rows: map<nat, BRow>, ledger: Option<Ledger>)
      ensures this.rows == rows && this.ledger == ledger
    {
      this.rows := rows;
      this.ledger := ledger;
    }

    method LoadCursor() returns (cursor: nat)
      ensures cursor == CursorOf(ledger)
    {
      if ledger.None? || ledger.value.cursor.None? { return 0; }
      return ledger.value.cursor.value;
    }

    /** One batch statement: the ids it returns are those it updated. */
    method UpdateBatch(scope: Scope, cursor: nat) returns (ids: seq<nat>)
      modifies this`rows
      ensures IsBatch(SetOf(ids), Above(scope, old(rows), cursor), BATCH_SIZE)
      ensures rows == Fill(old(rows), SetOf(ids))
    {
      ids := PickBatch(Above(scope, rows, cursor));
      rows := Fill(rows, SetOf(ids));
    }

    method SaveProgress(cursor: nat)
      modifies this`ledger
      ensures ledger == Some(Ledger(Some(cursor), false))
    {
      ledger := Some(Ledger(Some(cursor), false));
    }

    method MarkCompleted()
      modifies this`ledger
      ensures ledger == Some(Ledger(match old(ledger) { case Some(l) => l.cursor case None => None }, true))
    {
      ledger := Some(Ledger(match ledger { case Some(l) => l.cursor case None => None }, true));
    }

    /** RunBatchedUpdate with nobody else at work: it stops, and exactly the rows in scope above the checkpoint
        have been filled. */
    method RunBatchedUpdate(scope: Scope)
      modifies this
      ensures rows == Fill(old(rows), Above(scope, old(rows), CursorOf(old(ledger))))
      ensures ledger.Some? && ledger.value.completed && CursorOf(ledger) >= CursorOf(old(ledger))
      ensures Above(scope, rows, CursorOf(ledger)) == {}
    {
      hide Above, Fill, IsBatch;
      ghost var before := rows;
      var cursor := LoadCursor();
      ghost var start := cursor;
      NothingFilled(scope, before, start);
      while true
        invariant CursorOf(ledger) == cursor >= start
        invariant rows == FilledUpTo(scope, before, start, cursor)
        decreases |Above(scope, before, cursor)|
      {
        FillKeepsAbove(scope, before, Above(scope, before, start) - Above(scope, before, cursor), cursor);
        var ids := UpdateBatch(scope, cursor);
        if |ids| == 0 {
          EmptyBatch(scope, before, cursor);
          break;
        }
        var next := MaxUuid(ids);
        BatchStep(scope, before, start, cursor, SetOf(ids), next);
        cursor := next;
        SaveProgress(cursor);
      }
      MarkCompleted();
    }
  }

  /** The rows after the batches between two checkpoints. */
  ghost function FilledUpTo(scope: Scope, rows: map<nat, BRow>, start: nat, cursor: nat): map<nat, BRow> {
    Fill(rows, Above(scope, rows, start) - Above(scope, rows, cursor))
  }

  lemma NothingFilled(scope: Scope, rows: map<nat, BRow>, start: nat)
    ensures FilledUpTo(scope, rows, start, start) == rows
  {
    assert Above(scope, rows, start) - Above(scope, rows, start) == {};
  }

  /** An empty batch means there is nothing above the checkpoint. */
  lemma EmptyBatch(scope: Scope, rows: map<nat, BRow>, cursor: nat)
    requires IsBatch(SetOf([]), Above(scope, rows, cursor), BATCH_SIZE)
    ensures Above(scope, rows, cursor) == {}
    ensures forall filled: map<nat, BRow> {:trigger Fill(filled, SetOf([]))} :: Fill(filled, SetOf([])) == filled
    ensures forall start: nat {:trigger FilledUpTo(scope, rows, start, cursor)} ::
              FilledUpTo(scope, rows, start, cursor) == Fill(rows, Above(scope, rows, start))
              && Above(scope, FilledUpTo(scope, rows, start, cursor), cursor) == {}
  {
    assert SetOf([]) == {};
    forall start: nat
      ensures FilledUpTo(scope, rows, start, cursor) == Fill(rows, Above(scope, rows, start))
              && Above(scope, FilledUpTo(scope, rows, start, cursor), cursor) == {}
    {
      assert Above(scope, rows, start) - {} == Above(scope, rows, start);
      FillKeepsAbove(scope, rows, Above(scope, rows, start), cursor);
    }
  }

  lemma BatchStep(scope: Scope, rows: map<nat, BRow>, start: nat, cursor: nat, ids: set<nat>, m: nat)
    requires start <= cursor && IsBatch(ids, Above(scope, rows, cursor), BATCH_SIZE) && IsMax(ids, m)
    ensures m > cursor && |Above(scope, rows, m)| < |Above(scope, rows, cursor)|
    ensures Fill(FilledUpTo(scope, rows, start, cursor), ids) == FilledUpTo(scope, rows, start, m)
  {
    BatchAdvances(scope, rows, cursor, ids, m);
    var done := Above(scope, rows, start) - Above(scope, rows, cursor);
    FillTwice(rows, done, ids);
    assert done + ids == Above(scope, rows, start) - Above(scope, rows, m);
  }

  /** The ids of one batch, in order. */
  method PickBatch(from: set<nat>) returns (ids: seq<nat>)
    ensures IsBatch(SetOf(ids), from, BATCH_SIZE)
  {
    ids := [];
    var left := from;
    while left != {} && |ids| < BATCH_SIZE
      invariant left <= from && |ids| <= BATCH_SIZE
      invariant SetOf(ids) == from - left && |from - left| == |ids|
      invariant forall x, y :: x in ids && y in left ==> x < y
      decreases |left|
    {
      var least := Least(left);
      ids := ids + [least];
      assert from - (left - {least}) == (from - left) + {least};
      left := left - {least};
    }
  }

  method Least(s: set<nat>) returns (m: nat)
    requires s != {}
    ensures m in s && forall x :: x in s ==> m <= x
  {
    m :| m in s;
    var left := s - {m};
    while left != {}
      invariant left <= s && m in s
      invariant forall x :: x in s && x !in left ==> m <= x
      decreases |left|
    {
      var x :| x in left;
      if x < m { m := x; }
      left := left - {x};
    }
  }

  /** Filling changes neither which rows there are nor their scope. */
  lemma FillKeepsAbove(scope: Scope, rows: map<nat, BRow>, ids: set<nat>, cursor: nat)
    ensures Above(scope, Fill(rows, ids), cursor) == Above(scope, rows, cursor)
  {
  }

  lemma FillTwice(rows: map<nat, BRow>, a: set<nat>, b: set<nat>)
    ensures Fill(Fill(rows, a), b) == Fill(rows, a + b)
  {
  }

  /** A batch is what lies between the old checkpoint and the new one. */
  lemma BatchAdvances(scope: Scope, rows: map<nat, BRow>, cursor: nat, ids: set<nat>, m: nat)
    requires IsBatch(ids, Above(scope, rows, cursor), BATCH_SIZE) && IsMax(ids, m)
    ensures m > cursor
    ensures Above(scope, rows, m) == Above(scope, rows, cursor) - ids
    ensures |Above(scope, rows, m)| < |Above(scope, rows, cursor)|
  {
    forall x | x in Above(scope, rows, m) ensures x in Above(scope, rows, cursor) - ids {
    }
    forall x | x in Above(scope, rows, cursor) - ids ensures x in Above(scope, rows, m) {
      assert m < x;
    }
    Smaller(Above(scope, rows, m), Above(scope, rows, cursor), m);
  }

  lemma Smaller(a: set<nat>, b: set<nat>, x: nat)
    requires a <= b && x in b && x !in a
    ensures |a| < |b|
  {
    assert a <= b - {x};
    SubsetSize(a, b - {x});
  }

  lemma {:induction false} SubsetSize(a: set<nat>, b: set<nat>)
    requires a <= b
    ensures |a| <= |b|
    decreases |a|
  {
    if a != {} {
      var x :| x in a;
      SubsetSize(a - {x}, b - {x});
    }
  }

  // ---------------------------------------------------------------- with writers and crashes

  /** What the worker process knows; a crash forgets it. */
  datatype Worker = Idle | Running(cursor: nat) | Drained

  /** `commits` counts, per row, the backfill transactions that committed it; `finished` says that this backfill has
      marked itself complete. */
  datatype State = State(rows: map<nat, BRow>, ledger: Option<Ledger>, worker: Worker, commits: multiset<nat>,
      finished: bool)

  datatype Event =
    | InsertRow(id: nat, row: BRow)
    | UpdateRow(id: nat, source: Option<string>)
    | RemoveRow(id: nat)
    | StartWorker
    | CommitBatch(ids: set<nat>, max: nat)
    | SeeNoMore
    | Complete
    | Crash

  /** One step. The sync trigger is installed, so a writer's row is synced as it is written. */
  ghost predicate Step(scope: Scope, e: Event, s: State, t: State) {
    match e
    case InsertRow(id, row) => id !in s.rows && t == s.(rows := s.rows[id := Filled(row)])
    case UpdateRow(id, source) =>
      id in s.rows && t == s.(rows := s.rows[id := BRow(s.rows[id].tenant, source, source)])
    case RemoveRow(id) => t == s.(rows := s.rows - {id})
    case StartWorker => s.worker == Idle && t == s.(worker := Running(CursorOf(s.ledger)))
    case CommitBatch(ids, m) =>
      && s.worker.Running? && ids != {} && IsBatch(ids, Above(scope, s.rows, s.worker.cursor), BATCH_SIZE)
         && IsMax(ids, m)
      && t == s.(rows := Fill(s.rows, ids), ledger := Some(Ledger(Some(m), false)), worker := Running(m),
         commits := s.commits + multiset(ids))
    case SeeNoMore => s.worker.Running? && Above(scope, s.rows, s.worker.cursor) == {} && t == s.(worker := Drained)
    case Complete =>
      s.worker == Drained
      && t == s.(ledger := Some(Ledger(match s.ledger { case Some(l) => l.cursor case None => None }, true)),
         worker := Idle,
                 finished := true)
    case Crash => t == s.(worker := Idle)
  }

  /** Every row above `c` is synced. */
  ghost predicate AllSynced(scope: Scope, rows: map<nat, BRow>, c: nat) {
    forall id :: id in rows && id > c && InScope(scope, rows[id]) ==> Synced(rows[id])
  }

  /** `c` is the checkpoint the backfill found when it began. */
  ghost predicate Inv(scope: Scope, c: nat, s: State) {
    && c <= CursorOf(s.ledger)
    && (s.worker.Running? ==> s.worker.cursor == CursorOf(s.ledger))
    && (forall id :: id in s.rows && c < id <= CursorOf(s.ledger) && InScope(scope, s.rows[id]) ==> Synced(s.rows[id]))
    && (s.worker.Drained? || s.finished ==> AllSynced(scope, s.rows, c))
    && (forall id :: s.commits[id] <= 1)
    && (forall id :: id in s.commits ==> c < id <= CursorOf(s.ledger))
  }

  lemma BatchKeepsInv(scope: Scope, c: nat, ids: set<nat>, m: nat, s: State, t: State)
    requires Inv(scope, c, s) && Step(scope, CommitBatch(ids, m), s, t)
    ensures Inv(scope, c, t)
  {
    var cursor := s.worker.cursor;
    BatchAdvances(scope, s.rows, cursor, ids, m);
    forall id | id in t.rows && c < id <= m && InScope(scope, t.rows[id]) ensures Synced(t.rows[id]) {
      if id > cursor {
        assert id in Above(scope, s.rows, cursor) && id !in Above(scope, s.rows, m);
        assert id in ids;
      }
    }
    forall id: nat ensures t.commits[id] <= 1 {
      if id in ids { assert id > cursor && id !in s.commits; }
    }
  }

  lemma StepKeepsInv(scope: Scope, c: nat, e: Event, s: State, t: State)
    requires Inv(scope, c, s) && Step(scope, e, s, t)
    ensures Inv(scope, c, t)
  {
    match e
    case CommitBatch(ids, m) => BatchKeepsInv(scope, c, ids, m, s, t);
    case SeeNoMore =>
      forall id | id in s.rows && id > c && InScope(scope, s.rows[id]) ensures Synced(s.rows[id]) {
        assert id !in Above(scope, s.rows, s.worker.cursor);
      }
    case _ =>
  }

  ghost predicate Run(scope: Scope, events: seq<Event>, states: seq<State>) {
    |states| == |events| + 1 && forall i :: 0 <= i < |events| ==> Step(scope, events[i], states[i], states[i + 1])
  }

  /** The trigger is in place and no worker runs. The ledger may hold a row from an earlier column of that
      name. */
  ghost predicate Starts(s: State) { s.worker == Idle && s.commits == multiset{} && !s.finished }

  lemma {:induction false} RunKeepsInv(scope: Scope, events: seq<Event>, states: seq<State>, i: nat)
    requires Run(scope, events, states) && Starts(states[0]) && i <= |events|
    ensures Inv(scope, CursorOf(states[0].ledger), states[i])
  {
    if i > 0 {
      RunKeepsInv(scope, events, states, i - 1);
      assert Step(scope, events[i - 1], states[i - 1], states[i]);
      StepKeepsInv(scope, CursorOf(states[0].ledger), events[i - 1], states[i - 1], states[i]);
    }
  }

  predicate WritesRow(e: Event, id: nat) { (e.UpdateRow? || e.RemoveRow?) && e.id == id }

  /** A row no batch will reach: it was there unsynced at or below the checkpoint the backfill began with, and nobody
      has written it before step `i`. */
  ghost predicate LeftBehind(scope: Scope, events: seq<Event>, first: State, i: nat, id: nat)
    requires i <= |events|
  {
    && id in first.rows && id <= CursorOf(first.ledger) && InScope(scope, first.rows[id]) && !Synced(first.rows[id])
    && forall k :: 0 <= k < i ==> !WritesRow(events[k], id)
  }

  /** Below the first checkpoint the backfill touches nothing: a row there is unsynced exactly as long as it was left
      so. */
  lemma {:induction false} NeverReached(scope: Scope, events: seq<Event>, states: seq<State>, i: nat, id: nat)
    requires Run(scope, events, states) && Starts(states[0]) && i <= |events| && id <= CursorOf(states[0].ledger)
    ensures id in states[i].rows && InScope(scope, states[i].rows[id]) && !Synced(states[i].rows[id])
            <==> LeftBehind(scope, events, states[0], i, id)
    ensures LeftBehind(scope, events, states[0], i, id) ==> states[i].rows[id] == states[0].rows[id]
  {
    if i > 0 {
      NeverReached(scope, events, states, i - 1, id);
      RunKeepsInv(scope, events, states, i - 1);
      assert Step(scope, events[i - 1], states[i - 1], states[i]);
    }
  }

  /** Over every run with any number of crashes, restarts and concurrent writes: when the backfill has marked itself
      complete, every row in scope holds its source value if and only if no row was left behind; and no row was
      committed twice. */
  lemma CompletedMeansSynced(scope: Scope, events: seq<Event>, states: seq<State>, i: nat)
    requires Run(scope, events, states) && Starts(states[0]) && i <= |events|
    ensures states[i].finished ==>
            ((forall id :: id in states[i].rows && InScope(scope, states[i].rows[id]) ==> Synced(states[i].rows[id]))
             <==> forall id: nat :: !LeftBehind(scope, events, states[0], i, id))
    ensures forall id :: states[i].commits[id] <= 1
  {
    hide Step, LeftBehind;
    RunKeepsInv(scope, events, states, i);
    forall id: nat | id <= CursorOf(states[0].ledger)
      ensures id in states[i].rows && InScope(scope, states[i].rows[id]) && !Synced(states[i].rows[id])
              <==> LeftBehind(scope, events, states[0], i, id)
    {
      NeverReached(scope, events, states, i, id);
    }
    forall id: nat | LeftBehind(scope, events, states[0], i, id) ensures id <= CursorOf(states[0].ledger) {
      OnlyBelow(scope, events, states[0], i, id);
    }
  }

  lemma OnlyBelow(scope: Scope, events: seq<Event>, first: State, i: nat, id: nat)
    requires i <= |events| && LeftBehind(scope, events, first, i, id)
    ensures id <= CursorOf(first.ledger)
  {
  }

  /** For a new ledger only the row with the nil id can be left behind. */
  lemma OnlyNilIsLeft(scope: Scope, events: seq<Event>, states: seq<State>, i: nat)
    requires Run(scope, events, states) && Starts(states[0]) && i <= |events| && states[0].ledger == None
    ensures states[i].ledger.Some? && states[i].ledger.value.completed ==> states[i].finished
    ensures states[i].finished ==>
            ((forall id :: id in states[i].rows && InScope(scope, states[i].rows[id]) ==> Synced(states[i].rows[id]))
             <==> !LeftBehind(scope, events, states[0], i, 0))
  {
    hide Step, LeftBehind;
    CompletedMeansSynced(scope, events, states, i);
    FlagIsFinished(scope, events, states, i);
    forall id: nat | LeftBehind(scope, events, states[0], i, id) ensures id == 0 {
      OnlyBelow(scope, events, states[0], i, id);
    }
  }

  lemma {:induction false} FlagIsFinished(scope: Scope, events: seq<Event>, states: seq<State>, i: nat)
    requires Run(scope, events, states) && Starts(states[0]) && i <= |events| && states[0].ledger == None
    ensures states[i].ledger.Some? && states[i].ledger.value.completed ==> states[i].finished
  {
    if i > 0 {
      FlagIsFinished(scope, events, states, i - 1);
      assert Step(scope, events[i - 1], states[i - 1], states[i]);
    }
  }

  /** Each batch uses up rows above the checkpoint; when they are used up the worker can only finish. */
  lemma BatchesUseRowsUp(scope: Scope, ids: set<nat>, m: nat, s: State, t: State)
    requires Step(scope, CommitBatch(ids, m), s, t)
    ensures |Above(scope, t.rows, t.worker.cursor)| < |Above(scope, s.rows, s.worker.cursor)|
  {
    BatchAdvances(scope, s.rows, s.worker.cursor, ids, m);
    FillKeepsAbove(scope, s.rows, ids, m);
  }

  /** Resuming after a crash continues exactly after the last committed batch. */
  lemma ResumesWhereItStopped(scope: Scope, ids: set<nat>, m: nat, s: State, t: State, crashed: State, again: State)
    requires Step(scope, CommitBatch(ids, m), s, t) && Step(scope, Crash, t, crashed)
             && Step(scope, StartWorker, crashed, again)
    ensures again == t
  {
  }

  // ---------------------------------------------------------------- which rows are meant

  /** For one tenant, a finished backfill has synced every row of that tenant if and only if it left none behind; for
      all tenants, every row of the table. */
  lemma CompletedForTenants(scope: Scope, events: seq<Event>, states: seq<State>, i: nat)
    requires Run(scope, events, states) && Starts(states[0]) && i <= |events| && states[i].finished
    ensures scope.SingleTenant? ==>
              ((forall id :: id in states[i].rows && states[i].rows[id].tenant == scope.tenant ==>
                  states[i].rows[id].column == states[i].rows[id].source)
               <==> forall id: nat :: !LeftBehind(scope, events, states[0], i, id))
    ensures scope.AllTenants? ==>
              ((forall id :: id in states[i].rows ==> states[i].rows[id].column == states[i].rows[id].source)
               <==> forall id: nat :: !LeftBehind(scope, events, states[0], i, id))
  {
    hide LeftBehind, Run;
    CompletedMeansSynced(scope, events, states, i);
  }

  /** A batch of one tenant's backfill changes no row of another, and none at or below the cursor it starts from. */
  lemma BatchLeavesOthers(t: string, rows: map<nat, BRow>, cursor: nat, ids: set<nat>, n: nat, id: nat)
    requires IsBatch(ids, Above(SingleTenant(t), rows, cursor), n) && id in rows
    ensures rows[id].tenant != t || id <= cursor ==> Fill(rows, ids)[id] == rows[id]
    ensures Fill(rows, ids)[id].tenant == rows[id].tenant && Fill(rows, ids)[id].source == rows[id].source
    ensures id in ids ==> Fill(rows, ids)[id].column == rows[id].source
  {
  }
}
