/** The transactional outbox: at-least-once delivery with concurrent publishers, failures and crashes. */
module Outbox {
  datatype OutboxRow = OutboxRow(topic: string, payload: string, published: bool, attempts: nat)

  /** What the bus has accepted. */
  datatype Message = Message(id: nat, topic: string, payload: string)

  datatype Mark = Done | Failed

  function MessageOf(id: nat, row: OutboxRow): Message { Message(id, row.topic, row.payload) }

  function Marked(row: OutboxRow, mark: Mark): OutboxRow {
    match mark { case Done => row.(published := true) case Failed => row.(attempts := row.attempts + 1) }
  }

  /** The rows with a publisher's marks written into them. */
  function WithMarks(rows: map<nat, OutboxRow>, marks: map<nat, Mark>): map<nat, OutboxRow> {
    map id | id in rows :: if id in marks then Marked(rows[id], marks[id]) else rows[id]
  }

  // ---------------------------------------------------------------- one pass of one publisher

  function BatchMarks(batch: seq<nat>, ok: set<nat>): map<nat, Mark> {
    map id | id in batch :: if id in ok then Done else Failed
  }

  lemma MarkOne(rows: map<nat, OutboxRow>, batch: seq<nat>, ok: set<nat>, id: nat)
    requires id in rows && id !in batch
    ensures WithMarks(rows, BatchMarks(batch + [id], ok))
            == WithMarks(rows, BatchMarks(batch, ok))[id := Marked(rows[id], if id in ok then Done else Failed)]
    ensures id in WithMarks(rows, BatchMarks(batch, ok)) && WithMarks(rows, BatchMarks(batch, ok))[id] == rows[id]
  {
    assert forall k :: k in batch + [id] <==> k in batch || k == id;
  }

  lemma MarksWrittenOut(rows: map<nat, OutboxRow>, batch: seq<nat>, ok: set<nat>)
    ensures forall id :: id in rows ==>
              var t := WithMarks(rows, BatchMarks(batch, ok));
              id in t && t[id] == if id !in batch then rows[id]
                                  else if id in ok then rows[id].(published := true)
                                  else rows[id].(attempts := rows[id].attempts + 1)
  {
  }

  lemma NoMarks(rows: map<nat, OutboxRow>, ok: set<nat>)
    ensures WithMarks(rows, BatchMarks([], ok)) == rows
  {
  }

  function Messages(rows: map<nat, OutboxRow>, batch: seq<nat>, ok: set<nat>): seq<Message>
    requires forall id :: id in batch ==> id in rows
  {
    if |batch| == 0 then []
    else
      var last := batch[|batch| - 1];
      Messages(rows, batch[..|batch| - 1], ok) + (if last in ok then [MessageOf(last, rows[last])] else [])
  }

  /** One message for each accepted row of the batch, with its own topic and payload, and no other. */
  lemma {:induction false} MessagesExactly(rows: map<nat, OutboxRow>, batch: seq<nat>, ok: set<nat>, m: Message)
    requires forall id :: id in batch ==> id in rows
    ensures m in Messages(rows, batch, ok) <==>
            m.id in batch && m.id in ok && m.topic == rows[m.id].topic && m.payload == rows[m.id].payload
    decreases |batch|
  {
    if |batch| > 0 {
      assert batch == batch[..|batch| - 1] + [batch[|batch| - 1]];
      MessagesExactly(rows, batch[..|batch| - 1], ok, m);
    }
  }

  lemma NoMessages(rows: map<nat, OutboxRow>, ok: set<nat>)
    ensures Messages(rows, [], ok) == []
  {
  }

  lemma MessagesMore(rows: map<nat, OutboxRow>, batch: seq<nat>, ok: set<nat>, id: nat)
    requires id in rows && forall k :: k in batch ==> k in rows
    ensures Messages(rows, batch + [id], ok)
            == Messages(rows, batch, ok) + (if id in ok then [MessageOf(id, rows[id])] else [])
  {
    assert (batch + [id])[..|batch|] == batch;
  }

  function Inserted(rows: map<nat, OutboxRow>, id: nat, topic: string, payload: string): map<nat, OutboxRow> {
    rows[id := OutboxRow(topic, payload, false, 0)]
  }

  class Table {
    var rows: map<nat, OutboxRow>
    var bus: seq<Message>

    constructor ()
      ensures rows == map[] && bus == []
    {
      rows := map[];
      bus := [];
    }

    /** EnqueueOutboxEvent, in the transaction of the business write. */
    method Enqueue(id: nat, topic: string, payload: string)
      requires id !in rows
      modifies this`rows
      ensures rows == Inserted(old(rows), id, topic, payload)
    {
      rows := rows[id := OutboxRow(topic, payload, false, 0)];
    }

    /** What was enqueued is what the bus gets. */
    method EnqueueThenPublish(id: nat, topic: string, payload: string)
      requires id !in rows
      modifies this
      ensures bus == old(bus) + [Message(id, topic, payload)]
      ensures id in rows && rows[id].published && forall k :: k in old(rows) ==> k in rows && rows[k] == old(rows)[k]
    {
      Enqueue(id, topic, payload);
      ghost var inserted := rows;
      var all := PublishPending([id], {id});
      assert [id] == [] + [id];
      MessagesMore(inserted, [], {id}, id);
      NoMessages(inserted, {id});
      MarkOne(inserted, [], {id}, id);
      NoMarks(inserted, {id});
    }

    /** publishPending on a locked batch, when the bus accepts the ids in `ok`: each row is marked only after its
        own publish, a refused row waits for the next poll, and nothing else changes. */
    method PublishPending(batch: seq<nat>, ok: set<nat>) returns (allPublished: bool)
      requires forall id :: id in batch ==> id in rows && !rows[id].published
      requires forall i, j :: 0 <= i < j < |batch| ==> batch[i] != batch[j]
      modifies this
      ensures allPublished <==> forall id :: id in batch ==> id in ok
      ensures bus == old(bus) + Messages(old(rows), batch, ok)
      ensures rows == WithMarks(old(rows), BatchMarks(batch, ok))
      ensures forall id :: id in old(rows) ==>
                id in rows && rows[id] == if id !in batch then old(rows)[id]
                                          else if id in ok then old(rows)[id].(published := true)
                                          else old(rows)[id].(attempts := old(rows)[id].attempts + 1)
    {
      hide WithMarks, BatchMarks, Messages;
      ghost var before, sent := rows, bus;
      NoMarks(before, ok);
      assert Messages(before, [], ok) == [] by { NoMessages(before, ok); }
      allPublished := true;
      var i := 0;
      while i < |batch|
        invariant 0 <= i <= |batch|
        invariant allPublished <==> forall id :: id in batch[..i] ==> id in ok
        invariant bus == sent + Messages(before, batch[..i], ok)
        invariant rows == WithMarks(before, BatchMarks(batch[..i], ok))
      {
        var id := batch[i];
        assert batch[..i + 1] == batch[..i] + [id] && batch[..i + 1][..i] == batch[..i];
        assert id !in batch[..i];
        MarkOne(before, batch[..i], ok, id);
        MessagesMore(before, batch[..i], ok, id);
        if id in ok {
          bus := bus + [MessageOf(id, rows[id])];
          rows := rows[id := rows[id].(published := true)];
        } else {
          rows := rows[id := rows[id].(attempts := rows[id].attempts + 1)];
          allPublished := false;
        }
        i := i + 1;
      }
      assert batch[..|batch|] == batch;
      MarksWrittenOut(before, batch, ok);
    }
  }

  // ---------------------------------------------------------------- concurrent publishers

  /** A publisher's open transaction: the rows it has locked, those still to do, and the marks not yet committed. */
  datatype Tx = Tx(locked: set<nat>, todo: set<nat>, marks: map<nat, Mark>)

  datatype State = State(rows: map<nat, OutboxRow>, bus: seq<Message>, txs: map<nat, Tx>)

  datatype Event =
    | EnqueueRow(id: nat, topic: string, payload: string)
    | Open(who: nat, batch: set<nat>)
    | PublishOk(who: nat, id: nat)
    | PublishRefused(who: nat, id: nat)
    | Commit(who: nat)
    | Abort(who: nat)

  predicate LockedBy(s: State, who: nat, id: nat) { who in s.txs && id in s.txs[who].locked }

  ghost predicate Free(s: State, id: nat) { forall who :: !LockedBy(s, who, id) }

  ghost predicate Step(e: Event, s: State, t: State) {
    match e
    case EnqueueRow(id, topic, payload) => id !in s.rows && t == s.(rows := Inserted(s.rows, id, topic, payload))
    case Open(who, batch) =>
      && who !in s.txs && (forall id :: id in batch ==> id in s.rows && !s.rows[id].published && Free(s, id))
      && t == s.(txs := s.txs[who := Tx(batch, batch, map[])])
    case PublishOk(who, id) =>
      && who in s.txs && id in s.txs[who].todo && id in s.rows
      && t == s.(bus := s.bus + [MessageOf(id, s.rows[id])],
                 txs := s.txs[who := Tx(s.txs[who].locked, s.txs[who].todo - {id}, s.txs[who].marks[id := Done])])
    case PublishRefused(who, id) =>
      && who in s.txs && id in s.txs[who].todo
      && t == s.(txs := s.txs[who := Tx(s.txs[who].locked, s.txs[who].todo - {id}, s.txs[who].marks[id := Failed])])
    case Commit(who) =>
      && who in s.txs && s.txs[who].todo == {}
      && t == s.(rows := WithMarks(s.rows, s.txs[who].marks), txs := s.txs - {who})
    case Abort(who) => who in s.txs && t == s.(txs := s.txs - {who})
  }

  ghost predicate OnBus(s: State, id: nat) { id in s.rows && MessageOf(id, s.rows[id]) in s.bus }

  ghost predicate TxOk(s: State, who: nat)
    requires who in s.txs
  {
    var tx := s.txs[who];
    && tx.todo <= tx.locked && tx.marks.Keys <= tx.locked && tx.marks.Keys !! tx.todo
    && (forall id :: id in tx.locked ==> id in s.rows && !s.rows[id].published)
    && (forall id :: id in tx.marks && tx.marks[id] == Done ==> OnBus(s, id))
  }

  ghost predicate Inv(s: State) {
    && (forall who :: who in s.txs ==> TxOk(s, who))
    && (forall a, b, id :: LockedBy(s, a, id) && LockedBy(s, b, id) ==> a == b)
    && (forall id :: id in s.rows && s.rows[id].published ==> OnBus(s, id))
    && (forall m :: m in s.bus ==> m.id in s.rows && m == MessageOf(m.id, s.rows[m.id]))
  }

  lemma CommitKeepsInv(who: nat, s: State, t: State)
    requires Inv(s) && Step(Commit(who), s, t)
    ensures Inv(t)
  {
    var tx := s.txs[who];
    assert TxOk(s, who);
    forall id | id in s.rows ensures MessageOf(id, t.rows[id]) == MessageOf(id, s.rows[id]) {
    }
    forall w | w in t.txs ensures TxOk(t, w) {
      assert TxOk(s, w);
      forall id | id in t.txs[w].locked ensures !t.rows[id].published {
        assert LockedBy(s, w, id);
        assert id in tx.marks ==> LockedBy(s, who, id);
      }
    }
    forall id | id in t.rows && t.rows[id].published ensures OnBus(t, id) {
      if !s.rows[id].published { assert id in tx.marks && tx.marks[id] == Done; }
      assert OnBus(s, id);
    }
    forall a, b, id | LockedBy(t, a, id) && LockedBy(t, b, id) ensures a == b {
      assert LockedBy(s, a, id) && LockedBy(s, b, id);
    }
  }

  lemma PublishKeepsInv(e: Event, s: State, t: State)
    requires Inv(s) && Step(e, s, t) && (e.PublishOk? || e.PublishRefused?)
    ensures Inv(t)
  {
    assert TxOk(s, e.who);
    forall w | w in t.txs ensures TxOk(t, w) {
      assert TxOk(s, w);
      forall id | id in t.txs[w].marks && t.txs[w].marks[id] == Done ensures OnBus(t, id) {
        if w != e.who || id != e.id { assert OnBus(s, id); }
      }
    }
    forall id | id in t.rows && t.rows[id].published ensures OnBus(t, id) { assert OnBus(s, id); }
    forall a, b, id | LockedBy(t, a, id) && LockedBy(t, b, id) ensures a == b {
      assert LockedBy(s, a, id) && LockedBy(s, b, id);
    }
  }

  lemma OpenKeepsInv(e: Event, s: State, t: State)
    requires Inv(s) && Step(e, s, t) && (e.Open? || e.Abort? || e.EnqueueRow?)
    ensures Inv(t)
  {
    forall w | w in t.txs ensures TxOk(t, w) {
      if w in s.txs {
        assert TxOk(s, w);
        forall id | id in t.txs[w].marks && t.txs[w].marks[id] == Done ensures OnBus(t, id) { assert OnBus(s, id); }
      }
    }
    forall id | id in t.rows && t.rows[id].published ensures OnBus(t, id) { assert OnBus(s, id); }
    forall a, b, id | LockedBy(t, a, id) && LockedBy(t, b, id) ensures a == b {
      assert !(e.Open? && a == e.who) ==> LockedBy(s, a, id);
      assert !(e.Open? && b == e.who) ==> LockedBy(s, b, id);
      assert e.Open? && id in e.batch ==> Free(s, id);
    }
  }

  lemma StepKeepsInv(e: Event, s: State, t: State)
    requires Inv(s) && Step(e, s, t)
    ensures Inv(t)
  {
    hide Inv, Step;
    match e
    case Commit(who) => CommitKeepsInv(who, s, t);
    case PublishOk(_, _) => PublishKeepsInv(e, s, t);
    case PublishRefused(_, _) => PublishKeepsInv(e, s, t);
    case _ => OpenKeepsInv(e, s, t);
  }

  function Initial(): State { State(map[], [], map[]) }

  ghost predicate Run(events: seq<Event>, states: seq<State>) {
    && |states| == |events| + 1 && states[0] == Initial()
    && forall i :: 0 <= i < |events| ==> Step(events[i], states[i], states[i + 1])
  }

  lemma {:induction false} RunKeepsInv(events: seq<Event>, states: seq<State>, i: nat)
    requires Run(events, states) && i <= |events|
    ensures Inv(states[i])
  {
    hide Step;
    if i > 0 {
      RunKeepsInv(events, states, i - 1);
      assert Step(events[i - 1], states[i - 1], states[i]);
      StepKeepsInv(events[i - 1], states[i - 1], states[i]);
    }
  }

  /** A row is marked published only after the bus accepted exactly that row's message. */
  lemma PublishedWasDelivered(events: seq<Event>, states: seq<State>, i: nat, id: nat)
    requires Run(events, states) && i <= |events| && id in states[i].rows && states[i].rows[id].published
    ensures MessageOf(id, states[i].rows[id]) in states[i].bus
  {
    RunKeepsInv(events, states, i);
    assert OnBus(states[i], id);
  }

  /** An enqueued row is never lost: it stays, with its topic and payload, pending or published. */
  lemma {:induction false} NothingIsLost(events: seq<Event>, states: seq<State>, i: nat, j: nat, id: nat)
    requires Run(events, states) && i <= j <= |events| && id in states[i].rows
    ensures id in states[j].rows && MessageOf(id, states[j].rows[id]) == MessageOf(id, states[i].rows[id])
    ensures states[i].rows[id].published ==> states[j].rows[id].published
    decreases j - i
  {
    if i < j {
      NothingIsLost(events, states, i, j - 1, id);
      assert Step(events[j - 1], states[j - 1], states[j]);
      StepKeepsRow(events[j - 1], states[j - 1], states[j], id);
    }
  }

  lemma StepKeepsRow(e: Event, s: State, t: State, id: nat)
    requires Step(e, s, t) && id in s.rows
    ensures id in t.rows && MessageOf(id, t.rows[id]) == MessageOf(id, s.rows[id])
    ensures s.rows[id].published ==> t.rows[id].published
  {
  }

  // ---------------------------------------------------------------- exactly once without crashes

  function Deliveries(bus: seq<Message>, id: nat): nat {
    if |bus| == 0 then 0 else Deliveries(bus[..|bus| - 1], id) + (if bus[|bus| - 1].id == id then 1 else 0)
  }

  lemma DeliveriesMore(bus: seq<Message>, m: Message, id: nat)
    ensures Deliveries(bus + [m], id) == Deliveries(bus, id) + (if m.id == id then 1 else 0)
  {
    assert (bus + [m])[..|bus|] == bus;
  }

  /** Some open transaction has published the row and not yet committed. */
  ghost predicate Staged(s: State, id: nat) {
    exists who :: who in s.txs && id in s.txs[who].marks && s.txs[who].marks[id] == Done
  }

  ghost predicate Once(s: State) {
    forall id: nat {:trigger Deliveries(s.bus, id)} ::
      Deliveries(s.bus, id) == if (id in s.rows && s.rows[id].published) || Staged(s, id) then 1 else 0
  }

  lemma CommitOnce(who: nat, s: State, t: State, id: nat)
    requires Inv(s) && Step(Commit(who), s, t)
    ensures (id in t.rows && t.rows[id].published) || Staged(t, id) <==>
            (id in s.rows && s.rows[id].published) || Staged(s, id)
  {
    assert TxOk(s, who);
    var tx := s.txs[who];
    if Staged(s, id) {
      var w :| w in s.txs && id in s.txs[w].marks && s.txs[w].marks[id] == Done;
      assert TxOk(s, w);
      if w != who { assert w in t.txs; }
    }
    if Staged(t, id) {
      var w :| w in t.txs && id in t.txs[w].marks && t.txs[w].marks[id] == Done;
      assert w in s.txs;
    }
    if id in t.rows && t.rows[id].published && !s.rows[id].published { assert id in tx.marks && tx.marks[id] == Done; }
  }

  lemma PublishOnce(e: Event, s: State, t: State, id: nat)
    requires Inv(s) && Step(e, s, t) && (e.PublishOk? || e.PublishRefused?)
    ensures Staged(t, id) <==> Staged(s, id) || (e.PublishOk? && id == e.id)
    ensures e.PublishOk? ==> !Staged(s, e.id) && !s.rows[e.id].published
  {
    assert TxOk(s, e.who);
    if Staged(s, id) {
      var w :| w in s.txs && id in s.txs[w].marks && s.txs[w].marks[id] == Done;
      assert w in t.txs && id in t.txs[w].marks && t.txs[w].marks[id] == Done by {
        if w == e.who { assert id !in s.txs[w].todo; }
      }
    }
    if Staged(t, id) {
      var w :| w in t.txs && id in t.txs[w].marks && t.txs[w].marks[id] == Done;
      assert w in s.txs;
    }
    if e.PublishOk? {
      assert t.txs[e.who].marks[e.id] == Done;
      if Staged(s, e.id) {
        var w :| w in s.txs && e.id in s.txs[w].marks && s.txs[w].marks[e.id] == Done;
        assert TxOk(s, w);
        assert LockedBy(s, w, e.id) && LockedBy(s, e.who, e.id);
      }
    }
  }

  lemma OpenOnce(e: Event, s: State, t: State, id: nat)
    requires Step(e, s, t) && (e.Open? || e.EnqueueRow?)
    ensures Staged(t, id) <==> Staged(s, id)
    ensures (id in t.rows && t.rows[id].published) <==> (id in s.rows && s.rows[id].published)
  {
    if Staged(s, id) {
      var w :| w in s.txs && id in s.txs[w].marks && s.txs[w].marks[id] == Done;
      assert w in t.txs && id in t.txs[w].marks;
    }
    if Staged(t, id) {
      var w :| w in t.txs && id in t.txs[w].marks && t.txs[w].marks[id] == Done;
      assert w in s.txs && id in s.txs[w].marks;
    }
  }

  lemma StepKeepsOnce(e: Event, s: State, t: State)
    requires Inv(s) && Once(s) && Step(e, s, t) && !e.Abort?
    ensures Once(t)
  {
    hide Inv;
    forall id: nat
      ensures Deliveries(t.bus, id) == if (id in t.rows && t.rows[id].published) || Staged(t, id) then 1 else 0
    {
      match e {
        case Commit(who) => CommitOnce(who, s, t, id);
        case PublishOk(_, k) =>
          PublishOnce(e, s, t, id);
          DeliveriesMore(s.bus, MessageOf(k, s.rows[k]), id);
          assert Deliveries(s.bus, k) == 0;
        case PublishRefused(_, _) => PublishOnce(e, s, t, id);
        case _ => OpenOnce(e, s, t, id);
      }
    }
  }

  /** With no crash or database error, every published row has exactly one successful publish, and no row has two. */
  lemma {:induction false} ExactlyOnceWithoutCrashes(events: seq<Event>, states: seq<State>, i: nat)
    requires Run(events, states) && i <= |events| && forall k :: 0 <= k < i ==> !events[k].Abort?
    ensures Once(states[i])
    ensures forall id :: id in states[i].rows && states[i].rows[id].published ==> Deliveries(states[i].bus, id) == 1
  {
    hide Inv, Step;
    if i > 0 {
      ExactlyOnceWithoutCrashes(events, states, i - 1);
      RunKeepsInv(events, states, i - 1);
      assert Step(events[i - 1], states[i - 1], states[i]);
      StepKeepsOnce(events[i - 1], states[i - 1], states[i]);
    }
  }

  /** A crash after the publish and before the commit repeats the publish: at least once, not exactly once. */
  lemma CrashRepeatsPublish(s: State, a: State, b: State, c: State, d: State, e: State, who: nat, id: nat)
    requires Step(Open(who, {id}), s, a) && Step(PublishOk(who, id), a, b) && Step(Abort(who), b, c)
    requires Step(Open(who, {id}), c, d) && Step(PublishOk(who, id), d, e)
    ensures Deliveries(e.bus, id) == Deliveries(s.bus, id) + 2
  {
    DeliveriesMore(a.bus, MessageOf(id, a.rows[id]), id);
    DeliveriesMore(d.bus, MessageOf(id, d.rows[id]), id);
  }
}
