/** Optimistic concurrency: an unlocked read, then a write conditional on the caller's expected version, in
    every interleaving of updates, transitions, deletes and system-field writes on one record. */
module Crud {
  import opened Prelude
  import opened Json

  datatype Transition = Transition(action: string, from: string, to: string, setFields: set<string>)

  /** What the entity declares: system fields, the workflow's state field and its transitions. */
  datatype Meta = Meta(system: set<string>, state: Option<string>, transitions: seq<Transition>)

  /** Payload validation (None: refused), computed fields, guards, validators and the values of set-fields. */
  datatype Rules = Rules(
    validate: Record -> Option<Record>,
    recompute: Record -> Record,
    guard: (Transition, Record) -> bool,
    validator: (Transition, Record) -> bool,
    setValue: (Transition, string) -> Json)

  /** What metadata validation demands of a state field. That the field is not computed and not rewritten by payload
      validation, it does not demand. */
  predicate WellDeclared(meta: Meta) {
    meta.state.Some? ==>
      && meta.state.value !in meta.system
      && forall t :: t in meta.transitions ==> meta.state.value !in t.setFields
  }

  datatype Stored = Stored(data: Record, version: int, deleted: bool, status: Option<string>)

  // ---------------------------------------------------------------- what each call computes from its read

  function SystemPart(meta: Meta, d: Record): Record { map k | k in d && k in meta.system :: d[k] }

  function UserPart(meta: Meta, d: Record): Record { map k | k in d && k !in meta.system :: d[k] }

  datatype Refusal = SystemField | Invalid | NoWorkflow | InvalidTransition | GuardFailed | ValidatorFailed

  /** The caller's changes over the data that was read, with the state put back. */
  function Merge(meta: Meta, existing: Record, payload: Record): Record {
    var merged := existing + payload;
    if meta.state.Some? && meta.state.value in existing then merged[meta.state.value := existing[meta.state.value]]
      else merged
  }

  function UpdateData(meta: Meta, rules: Rules, existing: Record, payload: Record): Result<Record, Refusal> {
    if exists k :: k in payload && k in meta.system then Err(SystemField)
    else match rules.validate(Merge(meta, existing, payload))
      case None => Err(Invalid)
      case Some(d) => Ok(rules.recompute(d))
  }

  function FindTransition(ts: seq<Transition>, action: string, from: string): (r: Option<Transition>)
    ensures r.Some? ==> r.value in ts && r.value.action == action && r.value.from == from
  {
    if |ts| == 0 then None
    else if ts[0].action == action && ts[0].from == from then Some(ts[0])
    else FindTransition(ts[1..], action, from)
  }

  /** A stored state as text; JSON null reads as the empty text. */
  function StateText(j: Json): Option<string> {
    match j { case JStr(s) => Some(s) case JNull => Some("") case _ => None }
  }

  function StateOf(meta: Meta, d: Record): Option<string> {
    if meta.state.Some? && meta.state.value in d then StateText(d[meta.state.value]) else None
  }

  function WithSetFields(rules: Rules, t: Transition, d: Record): Record {
    map k | k in d.Keys + t.setFields :: if k in t.setFields then rules.setValue(t, k) else d[k]
  }

  function TransitionData(meta: Meta, rules: Rules, existing: Record, action: string, payload: Record)
    : Result<(Record, Transition), Refusal>
  {
    if meta.state.None? then Err(NoWorkflow)
    else match StateOf(meta, existing)
      case None => Err(InvalidTransition)
      case Some(from) =>
        match FindTransition(meta.transitions, action, from)
        case None => Err(InvalidTransition)
        case Some(t) =>
          if !rules.guard(t, existing) then Err(GuardFailed)
          else match rules.validate((existing + payload)[meta.state.value := JStr(t.to)])
            case None => Err(Invalid)
            case Some(d) => if !rules.validator(t, d) then Err(ValidatorFailed) else Ok((WithSetFields(rules, t, d), t))
  }

  // ---------------------------------------------------------------- the conditional writes

  predicate Matches(r: Stored, expected: int) { r.version == expected && !r.deleted }

  /** UPDATE ... SET data = (new - system) || stored system values, version + 1 WHERE version = expected. */
  function UpdateWrite(meta: Meta, r: Stored, data: Record): Stored {
    r.(data := UserPart(meta, data) + SystemPart(meta, r.data), version := r.version + 1)
  }

  function TransitionWrite(r: Stored, data: Record, to: string): Stored {
    r.(data := data, status := Some(to), version := r.version + 1)
  }

  function DeleteWrite(r: Stored): Stored { r.(deleted := true, version := r.version + 1) }

  /** SetSystemFields: data || patch, no new version. */
  function SystemWrite(r: Stored, patch: Record): Stored { r.(data := r.data + patch) }

  // ---------------------------------------------------------------- what a call does to the row

  datatype Request =
    | Update(expected: int, payload: Record)
    | Transit(expected: int, action: string, payload: Record)
    | Delete(expected: int)
    | SetSystem(patch: Record)

  predicate Versioned(req: Request) { !req.SetSystem? }

  function Outcome(meta: Meta, rules: Rules, req: Request, seen: Stored, row: Stored): Option<Stored>
    requires Versioned(req)
  {
    if !Matches(row, req.expected) then None
    else match req
      case Update(_, payload) =>
        (match UpdateData(meta, rules, seen.data, payload)
         case Ok(d) => Some(UpdateWrite(meta, row, d))
         case Err(_) => None)
      case Transit(_, action, payload) =>
        (match TransitionData(meta, rules, seen.data, action, payload)
         case Ok((d, t)) => Some(TransitionWrite(row, d, t.to))
         case Err(_) => None)
      case Delete(_) => Some(DeleteWrite(row))
  }

  /** Only a record that is not deleted is found. */
  function Fetched(row: Stored): Option<Stored> { if row.deleted then None else Some(row) }

  /** The outcome of a call whose write finds the row it read. */
  function Alone(meta: Meta, rules: Rules, req: Request, row: Stored): Option<Stored>
    requires Versioned(req)
  {
    match Fetched(row) { case None => None case Some(seen) => Outcome(meta, rules, req, seen, row) }
  }

  // ---------------------------------------------------------------- the imperative calls

  /** The merge loops of Update: copy what was read, lay the payload over it, put the state back. */
  method MergePayload(meta: Meta, existing: Record, payload: Record) returns (merged: Record)
    ensures merged == Merge(meta, existing, payload)
  {
    merged := map[];
    merged := CopyInto(merged, existing);
    merged := CopyInto(merged, payload);
    assert map[] + existing == existing;
    if meta.state.Some? && meta.state.value in existing {
      merged := merged[meta.state.value := existing[meta.state.value]];
    }
  }

  method CopyInto(target: Record, source: Record) returns (merged: Record)
    ensures merged == target + source
  {
    merged := target;
    var left := source.Keys;
    while left != {}
      invariant left <= source.Keys
      invariant merged == target + (map k | k in source && k !in left :: source[k])
      decreases |left|
    {
      var k :| k in left;
      merged := merged[k := source[k]];
      left := left - {k};
    }
  }

  /** rejectSystemFields: the system fields present in a payload. */
  method RejectSystemFields(system: seq<string>, payload: Record) returns (errors: set<string>)
    ensures errors == set k | k in system && k in payload
  {
    errors := {};
    var i := 0;
    while i < |system|
      invariant 0 <= i <= |system|
      invariant errors == set k | k in system[..i] && k in payload
    {
      assert system[..i + 1] == system[..i] + [system[i]];
      if system[i] in payload { errors := errors + {system[i]}; }
      i := i + 1;
    }
    assert system[..|system|] == system;
  }

  /** One row of an entity table, with the statements the calls run against it. */
  class RecordRow {
    var stored: Stored

    constructor (stored: Stored)
      ensures this.stored == stored
    {
      this.stored := stored;
    }

    /** The read that every call starts with: a deleted record is not found. */
    method FetchExisting() returns (r: Option<Stored>)
      ensures r == Fetched(stored)
    {
      if stored.deleted { return None; }
      return Some(stored);
    }

    method WriteUpdate(meta: Meta, expected: int, data: Record) returns (ok: bool)
      modifies this
      ensures ok == Matches(old(stored), expected)
      ensures stored == if ok then UpdateWrite(meta, old(stored), data) else old(stored)
    {
      if stored.version != expected || stored.deleted { return false; }
      stored := stored.(data := UserPart(meta, data) + SystemPart(meta, stored.data), version := stored.version + 1);
      return true;
    }

    method WriteTransition(expected: int, data: Record, to: string) returns (ok: bool)
      modifies this
      ensures ok == Matches(old(stored), expected)
      ensures stored == if ok then TransitionWrite(old(stored), data, to) else old(stored)
    {
      if stored.version != expected || stored.deleted { return false; }
      stored := stored.(data := data, status := Some(to), version := stored.version + 1);
      return true;
    }

    method WriteDelete(expected: int) returns (ok: bool)
      modifies this
      ensures ok == Matches(old(stored), expected)
      ensures stored == if ok then DeleteWrite(old(stored)) else old(stored)
    {
      if stored.version != expected || stored.deleted { return false; }
      stored := stored.(deleted := true, version := stored.version + 1);
      return true;
    }

    /** Update with nobody else at work. */
    method UpdateRecord(meta: Meta, rules: Rules, expected: int, payload: Record) returns (ok: bool)
      modifies this
      ensures var after := Alone(meta, rules, Update(expected, payload), old(stored));
              ok == after.Some? && stored == if ok then after.value else old(stored)
    {
      var existing := FetchExisting();
      if existing.None? { return false; }
      if exists k :: k in payload && k in meta.system { return false; }
      var merged := MergePayload(meta, existing.value.data, payload);
      var data := rules.validate(merged);
      if data.None? { return false; }
      ok := WriteUpdate(meta, expected, rules.recompute(data.value));
    }

    /** Transition with nobody else at work. */
    method TransitionRecord(meta: Meta, rules: Rules, expected: int, action: string, payload: Record) returns (ok: bool)
      modifies this
      ensures var after := Alone(meta, rules, Transit(expected, action, payload), old(stored));
              ok == after.Some? && stored == if ok then after.value else old(stored)
    {
      var existing := FetchExisting();
      if existing.None? || meta.state.None? { return false; }
      var from := StateOf(meta, existing.value.data);
      if from.None? { return false; }
      var t := FindTransition(meta.transitions, action, from.value);
      if t.None? || !rules.guard(t.value, existing.value.data) { return false; }
      var merged := CopyInto(existing.value.data, payload);
      var data := rules.validate(merged[meta.state.value := JStr(t.value.to)]);
      if data.None? || !rules.validator(t.value, data.value) { return false; }
      ok := WriteTransition(expected, WithSetFields(rules, t.value, data.value), t.value.to);
    }

    method DeleteRecord(meta: Meta, rules: Rules, expected: int) returns (ok: bool)
      modifies this
      ensures var after := Alone(meta, rules, Delete(expected), old(stored));
              ok == after.Some? && stored == if ok then after.value else old(stored)
    {
      var existing := FetchExisting();
      if existing.None? { return false; }
      ok := WriteDelete(expected);
    }

    method WriteSystemFields(patch: Record) returns (found: bool)
      modifies this
      ensures found == !old(stored).deleted
      ensures stored == if found then SystemWrite(old(stored), patch) else old(stored)
    {
      if stored.deleted { return false; }
      stored := stored.(data := stored.data + patch);
      return true;
    }
  }

  // ---------------------------------------------------------------- interleavings

  /** A call before its read, and between its read and its write. */
  datatype Call = Begun(req: Request, from: int) | Holding(req: Request, from: int, seen: Stored)

  /** A successful versioned write: the version when its call began, what it read, replaced and left. */
  datatype Write = Write(req: Request, from: int, seen: Stored, before: Stored, after: Stored)

  datatype State = State(row: Stored, calls: map<nat, Call>, writes: seq<Write>)

  datatype Event =
    | Begin(id: nat, req: Request)
    | Precheck(id: nat)
    | Commit(id: nat)
    | SystemCommit(id: nat)
    | Abandon(id: nat)

  ghost predicate Step(meta: Meta, rules: Rules, e: Event, s: State, t: State) {
    match e
    case Begin(id, req) =>
      && id !in s.calls
      && (req.SetSystem? ==> req.patch.Keys <= meta.system)
      && t == s.(calls := s.calls[id := Begun(req, s.row.version)])
    case Precheck(id) =>
      && id in s.calls && s.calls[id].Begun? && Versioned(s.calls[id].req)
      && (match Fetched(s.row)
          case None => t == s.(calls := s.calls - {id})
          case Some(seen) => t == s.(calls := s.calls[id := Holding(s.calls[id].req, s.calls[id].from, seen)]))
    case Commit(id) =>
      && id in s.calls && s.calls[id].Holding? && Versioned(s.calls[id].req)
      && var c := s.calls[id];
         (match Outcome(meta, rules, c.req, c.seen, s.row)
          case None => t == s.(calls := s.calls - {id})
          case Some(after) =>
            t == State(after, s.calls - {id}, s.writes + [Write(c.req, c.from, c.seen, s.row, after)]))
    case SystemCommit(id) =>
      && id in s.calls && s.calls[id].req.SetSystem?
      && t == s.(row := if s.row.deleted then s.row else SystemWrite(s.row, s.calls[id].req.patch),
                 calls := s.calls - {id})
    case Abandon(id) => t == s.(calls := s.calls - {id})
  }

  /** A waiting call's read is as old as its start and no newer than now; while the version has not moved, only
      system fields can have. */
  ghost predicate CallOk(meta: Meta, row: Stored, c: Call) {
    && c.from <= row.version
    && (c.req.SetSystem? ==> c.req.patch.Keys <= meta.system)
    && (c.Holding? ==> c.from <= c.seen.version <= row.version
                       && (c.seen.version == row.version ==> UserPart(meta, c.seen.data) == UserPart(meta, row.data)))
  }

  /** What holds of every successful write. */
  ghost predicate WriteOk(meta: Meta, rules: Rules, w: Write) {
    && Versioned(w.req) && w.req.expected == w.before.version && w.from <= w.seen.version <= w.before.version
    && w.after.version == w.before.version + 1
    && (w.seen.version == w.before.version ==> UserPart(meta, w.seen.data) == UserPart(meta, w.before.data))
    && Outcome(meta, rules, w.req, w.seen, w.before) == Some(w.after)
  }

  /** A write that computed its new data from exactly the version it replaced. */
  ghost predicate Lossless(meta: Meta, w: Write) {
    w.seen.version == w.before.version && UserPart(meta, w.seen.data) == UserPart(meta, w.before.data)
  }

  ghost predicate Inv(meta: Meta, rules: Rules, s: State) {
    && (forall id :: id in s.calls ==> CallOk(meta, s.row, s.calls[id]))
    && (forall i :: 0 <= i < |s.writes| ==>
       WriteOk(meta, rules, s.writes[i]) && s.writes[i].after.version <= s.row.version)
    && (forall i, j :: 0 <= i < j < |s.writes| ==> s.writes[i].after.version <= s.writes[j].before.version)
  }

  lemma SystemWriteKeepsUserPart(meta: Meta, r: Stored, patch: Record)
    requires patch.Keys <= meta.system
    ensures UserPart(meta, SystemWrite(r, patch).data) == UserPart(meta, r.data)
  {
  }

  lemma OutcomeVersion(meta: Meta, rules: Rules, req: Request, seen: Stored, row: Stored)
    requires Versioned(req) && Outcome(meta, rules, req, seen, row).Some?
    ensures Outcome(meta, rules, req, seen, row).value.version == row.version + 1 && row.version == req.expected
  {
  }

  lemma CommitKeepsInv(meta: Meta, rules: Rules, id: nat, s: State, t: State)
    requires Inv(meta, rules, s) && Step(meta, rules, Commit(id), s, t)
    ensures Inv(meta, rules, t)
  {
    hide Outcome, UserPart;
    var c := s.calls[id];
    if Outcome(meta, rules, c.req, c.seen, s.row).Some? {
      OutcomeVersion(meta, rules, c.req, c.seen, s.row);
      assert CallOk(meta, s.row, c);
      forall k | k in t.calls ensures CallOk(meta, t.row, t.calls[k]) { assert CallOk(meta, s.row, s.calls[k]); }
    }
  }

  lemma SystemCommitKeepsInv(meta: Meta, rules: Rules, id: nat, s: State, t: State)
    requires Inv(meta, rules, s) && Step(meta, rules, SystemCommit(id), s, t)
    ensures Inv(meta, rules, t)
  {
    assert CallOk(meta, s.row, s.calls[id]);
    SystemWriteKeepsUserPart(meta, s.row, s.calls[id].req.patch);
    hide Outcome, UserPart;
    forall k | k in t.calls ensures CallOk(meta, t.row, t.calls[k]) { assert CallOk(meta, s.row, s.calls[k]); }
  }

  lemma StepKeepsInv(meta: Meta, rules: Rules, e: Event, s: State, t: State)
    requires Inv(meta, rules, s) && Step(meta, rules, e, s, t)
    ensures Inv(meta, rules, t)
  {
    hide Outcome, UserPart;
    match e
    case Commit(id) => CommitKeepsInv(meta, rules, id, s, t);
    case SystemCommit(id) => SystemCommitKeepsInv(meta, rules, id, s, t);
    case Precheck(id) => assert CallOk(meta, s.row, s.calls[id]);
    case _ =>
  }

  ghost predicate Run(meta: Meta, rules: Rules, events: seq<Event>, states: seq<State>) {
    |states| == |events| + 1 && forall i :: 0 <= i < |events| ==> Step(meta, rules, events[i], states[i], states[i + 1])
  }

  ghost predicate Starts(s: State) { s.calls == map[] && s.writes == [] }

  lemma {:induction false} RunKeepsInv(meta: Meta, rules: Rules, events: seq<Event>, states: seq<State>, i: nat)
    requires Run(meta, rules, events, states) && Starts(states[0]) && i <= |events|
    ensures Inv(meta, rules, states[i])
  {
    hide Step;
    if i > 0 {
      RunKeepsInv(meta, rules, events, states, i - 1);
      assert Step(meta, rules, events[i - 1], states[i - 1], states[i]);
      StepKeepsInv(meta, rules, events[i - 1], states[i - 1], states[i]);
    }
  }

  // ---------------------------------------------------------------- the guarantees

  /** In every interleaving: each version is replaced by at most one successful write; and a write computed its
      new data from exactly the version it replaced if and only if the record had reached the caller's expected
      version when the call read it, which is so whenever it had when the call began. */
  lemma WritesAreLossless(meta: Meta, rules: Rules, events: seq<Event>, states: seq<State>, i: nat)
    requires Run(meta, rules, events, states) && Starts(states[0]) && i <= |events|
    ensures var writes := states[i].writes;
            && (forall a :: 0 <= a < |writes| ==>
                  && Versioned(writes[a].req)
                  && (Lossless(meta, writes[a]) <==> writes[a].req.expected <= writes[a].seen.version)
                  && (writes[a].req.expected <= writes[a].from ==> Lossless(meta, writes[a])))
            && (forall a, b :: 0 <= a < b < |writes| ==> writes[a].before.version < writes[b].before.version)
  {
    hide Step, Outcome, UserPart;
    RunKeepsInv(meta, rules, events, states, i);
    var writes := states[i].writes;
    forall a | 0 <= a < |writes|
      ensures Versioned(writes[a].req)
              && (Lossless(meta, writes[a]) <==> writes[a].req.expected <= writes[a].seen.version)
              && (writes[a].req.expected <= writes[a].from ==> Lossless(meta, writes[a]))
    {
      assert WriteOk(meta, rules, writes[a]);
    }
    forall a, b | 0 <= a < b < |writes| ensures writes[a].before.version < writes[b].before.version {
      assert WriteOk(meta, rules, writes[a]);
    }
  }

  lemma SameState(meta: Meta, a: Record, b: Record)
    requires meta.state.Some? && meta.state.value !in meta.system && UserPart(meta, a) == UserPart(meta, b)
    ensures meta.state.value in a <==> meta.state.value in b
    ensures meta.state.value in a ==> a[meta.state.value] == b[meta.state.value]
  {
    var f := meta.state.value;
    assert f in UserPart(meta, a) <==> f in a;
    assert f in UserPart(meta, b) <==> f in b;
    if f in a { assert UserPart(meta, a)[f] == a[f] && UserPart(meta, b)[f] == b[f]; }
  }

  /** What an update writes before the stored system values are put back. */
  function UpdatedData(meta: Meta, rules: Rules, w: Write): Option<Record>
    requires w.req.Update?
  {
    match UpdateData(meta, rules, w.seen.data, w.req.payload) { case Ok(d) => Some(d) case Err(_) => None }
  }

  /** Validation and recomputation leave the state of this update's data as it is. */
  ghost predicate RulesKeepState(meta: Meta, rules: Rules, w: Write)
    requires meta.state.Some?
  {
    var f := meta.state.value;
    match w.req
    case Update(_, payload) =>
      (match UpdatedData(meta, rules, w)
       case None => true
       case Some(d) => SameValue(f, Merge(meta, w.seen.data, payload), d))
    case Transit(_, action, payload) =>
      (match TransitionData(meta, rules, w.seen.data, action, payload)
       case Err(_) => true
       case Ok((d, t)) => StateOf(meta, d) == Some(t.to))
    case _ => true
  }

  /** The state stays through an update or a delete; a transition leaves it by a transition declared for its action and
      enters the target. */
  ghost predicate Lawful(meta: Meta, w: Write)
    requires meta.state.Some?
  {
    match w.req
    case Transit(_, action, _) =>
      exists t :: t in meta.transitions && t.action == action && StateOf(meta, w.before.data) == Some(t.from)
                  && StateOf(meta, w.after.data) == Some(t.to) && w.after.status == Some(t.to)
    case _ => SameValue(meta.state.value, w.before.data, w.after.data)
  }

  predicate SameValue(f: string, before: Record, after: Record) { f in before && f in after && after[f] == before[f] }

  /** Update: system values are the stored ones, whatever was stored while the call was on its way. */
  lemma UpdateKeepsSystem(meta: Meta, rules: Rules, w: Write)
    requires WriteOk(meta, rules, w) && w.req.Update?
    ensures SystemPart(meta, w.after.data) == SystemPart(meta, w.before.data)
  {
  }

  /** A stored state stays through an update if and only if validation and recomputation leave it alone. */
  lemma UpdateKeepsExactly(meta: Meta, rules: Rules, w: Write)
    requires WriteOk(meta, rules, w) && Lossless(meta, w) && w.req.Update? && WellDeclared(meta)
    requires meta.state.Some? && meta.state.value in w.before.data
    ensures Lawful(meta, w) <==> RulesKeepState(meta, rules, w)
  {
    var f := meta.state.value;
    SameState(meta, w.seen.data, w.before.data);
    var d := UpdateData(meta, rules, w.seen.data, w.req.payload).value;
    var merged := Merge(meta, w.seen.data, w.req.payload);
    assert merged[f] == w.seen.data[f];
    assert f !in SystemPart(meta, w.before.data) && (f in UserPart(meta, d) <==> f in d);
    if f in d { assert UserPart(meta, d)[f] == d[f]; }
  }

  /** A transition moves the state as declared if and only if validation leaves the target alone. */
  lemma TransitionMovesExactly(meta: Meta, rules: Rules, w: Write)
    requires WriteOk(meta, rules, w) && Lossless(meta, w) && w.req.Transit? && WellDeclared(meta) && meta.state.Some?
    ensures Lawful(meta, w) <==> RulesKeepState(meta, rules, w)
  {
    SameState(meta, w.seen.data, w.before.data);
    var (d, t) := TransitionData(meta, rules, w.seen.data, w.req.action, w.req.payload).value;
    assert StateOf(meta, w.before.data) == Some(t.from) && w.after.data == d && w.after.status == Some(t.to);
    assert t in meta.transitions && t.action == w.req.action;
  }

  /** The record had reached the expected version of a committing write when the call read it. */
  ghost predicate CommitsWhatItReached(e: Event, s: State) {
    e.Commit? && e.id in s.calls && s.calls[e.id].Holding? && Versioned(s.calls[e.id].req) ==>
    s.calls[e.id].req.expected <= s.calls[e.id].seen.version
  }

  lemma StepMovesState(meta: Meta, rules: Rules, e: Event, s: State, t: State)
    requires Inv(meta, rules, s) && Step(meta, rules, e, s, t) && WellDeclared(meta)
    requires meta.state.Some? && meta.state.value in s.row.data && CommitsWhatItReached(e, s)
    ensures t.writes == s.writes ==> SameValue(meta.state.value, s.row.data, t.row.data)
    ensures t.writes != s.writes ==>
              && |t.writes| == |s.writes| + 1
              && var w := t.writes[|s.writes|];
                 w.before == s.row && w.after == t.row && (Lawful(meta, w) <==> RulesKeepState(meta, rules, w))
  {
    if e.Commit? && t.writes != s.writes {
      StepKeepsInv(meta, rules, e, s, t);
      var w := t.writes[|s.writes|];
      assert WriteOk(meta, rules, w) && w.before == s.row && w.after == t.row && Lossless(meta, w);
      match w.req
      case Update(_, _) => UpdateKeepsExactly(meta, rules, w);
      case Transit(_, _, _) => TransitionMovesExactly(meta, rules, w);
      case Delete(_) =>
    } else if e.SystemCommit? {
      assert CallOk(meta, s.row, s.calls[e.id]);
      assert meta.state.value !in s.calls[e.id].req.patch;
    }
  }

  /** Over every run, on a record that holds a state: a step without a versioned write keeps it, and a write moves it
      only as declared if and only if validation and recomputation leave the state of that write's data alone. */
  lemma StateMovesByTransitions(meta: Meta, rules: Rules, events: seq<Event>, states: seq<State>, i: nat)
    requires Run(meta, rules, events, states) && Starts(states[0]) && i < |events| && WellDeclared(meta)
    requires meta.state.Some? && meta.state.value in states[i].row.data && CommitsWhatItReached(events[i], states[i])
    ensures var s, t := states[i], states[i + 1];
            && (t.writes == s.writes ==> SameValue(meta.state.value, s.row.data, t.row.data))
            && (t.writes != s.writes ==>
                  && |t.writes| == |s.writes| + 1
                  && var w := t.writes[|s.writes|];
                     w.before == s.row && w.after == t.row && (Lawful(meta, w) <==> RulesKeepState(meta, rules, w)))
  {
    hide Lawful, RulesKeepState;
    RunKeepsInv(meta, rules, events, states, i);
    StepMovesState(meta, rules, events[i], states[i], states[i + 1]);
  }

  // ---------------------------------------------------------------- which commits succeed, and deletion

  lemma {:induction false} FindsTransition(ts: seq<Transition>, action: string, from: string)
    ensures FindTransition(ts, action, from).Some? <==> exists t :: t in ts && t.action == action && t.from == from
    decreases |ts|
  {
    if |ts| > 0 { FindsTransition(ts[1..], action, from); }
  }

  /** The call's data is accepted: for an update, without system fields and after validation; for a transition, from
      the state that was read, through guard, validation and validator. */
  ghost predicate Acceptable(meta: Meta, rules: Rules, req: Request, seen: Record) {
    match req
    case Update(_, payload) =>
      (forall k :: k in payload ==> k !in meta.system) && rules.validate(Merge(meta, seen, payload)).Some?
    case Transit(_, action, payload) =>
      && meta.state.Some?
      && exists t :: t in meta.transitions && t.action == action && StateOf(meta, seen) == Some(t.from)
                     && FindTransition(meta.transitions, action, t.from) == Some(t) && rules.guard(t, seen)
                     && var d := rules.validate((seen + payload)[meta.state.value := JStr(t.to)]);
                        d.Some? && rules.validator(t, d.value)
    case _ => true
  }

  /** A commit succeeds if and only if the record is not deleted, is at the expected version, and the call's data is
      accepted; otherwise it leaves the record alone. */
  lemma CommitSucceedsExactly(meta: Meta, rules: Rules, id: nat, s: State, t: State)
    requires Step(meta, rules, Commit(id), s, t)
    ensures var c := s.calls[id];
            && (|t.writes| == |s.writes| + 1 <==>
                  !s.row.deleted && s.row.version == c.req.expected && Acceptable(meta, rules, c.req, c.seen.data))
            && (|t.writes| != |s.writes| + 1 ==> t.row == s.row && t.writes == s.writes)
  {
    var c := s.calls[id];
    if c.req.Transit? && meta.state.Some? && StateOf(meta, c.seen.data).Some? {
      FindsTransition(meta.transitions, c.req.action, StateOf(meta, c.seen.data).value);
    }
  }

  /** A deleted record is gone for good: it is never found again, no write succeeds, and nothing in it changes. */
  lemma {:induction false} DeletedStaysGone(
    meta: Meta, rules: Rules, events: seq<Event>, states: seq<State>, i: nat, j: nat)
    requires Run(meta, rules, events, states) && i <= j <= |events| && states[i].row.deleted
    ensures states[j].row == states[i].row && states[j].writes == states[i].writes && Fetched(states[j].row).None?
    decreases j - i
  {
    if i < j {
      DeletedStaysGone(meta, rules, events, states, i, j - 1);
      assert Step(meta, rules, events[j - 1], states[j - 1], states[j - 1 + 1]);
    }
  }

  // ---------------------------------------------------------------- where the guarantees end

  /** One call from begin to commit with nobody else at work, on a record at version 1. */
  lemma OneCall(
    meta: Meta, rules: Rules, data: Record, req: Request, after: Stored)
      returns (events: seq<Event>, states: seq<State>)
    requires Versioned(req)
             && Outcome(meta, rules, req, Stored(data, 1, false, None), Stored(data, 1, false, None)) == Some(after)
    ensures Run(meta, rules, events, states) && Starts(states[0]) && |events| == 3
    ensures states[0].row == Stored(data, 1, false, None) && states[3].row == after
    ensures states[3].writes == [Write(req, 1, states[0].row, states[0].row, after)]
  {
    hide Outcome;
    var row := Stored(data, 1, false, None);
    var s0 := State(row, map[], []);
    var s1 := s0.(calls := map[0 := Begun(req, 1)]);
    var s2 := s0.(calls := map[0 := Holding(req, 1, row)]);
    var s3 := State(after, map[], [Write(req, 1, row, row, after)]);
    events, states := [Begin(0, req), Precheck(0), Commit(0)], [s0, s1, s2, s3];
    assert map[0 := Holding(req, 1, row)] - {0} == map[];
    assert Step(meta, rules, events[0], s0, s1) && Step(meta, rules, events[1], s1, s2)
      && Step(meta, rules, events[2], s2, s3);
  }

  function StateIs(f: string, v: string): Record { map[f := JStr(v)] }

  /** A state field that is computed: an update with an empty payload moves the state, and no transition is declared. */
  lemma ComputedStateMoves(rules: Rules, f: string, from: string, to: string)
      returns (events: seq<Event>, states: seq<State>)
    requires from != to && rules.validate(StateIs(f, from)) == Some(StateIs(f, from))
             && rules.recompute(StateIs(f, from)) == StateIs(f, to)
    ensures var meta := Meta({}, Some(f), []);
            && WellDeclared(meta) && Run(meta, rules, events, states) && Starts(states[0]) && |events| == 3
            && StateOf(meta, states[0].row.data) == Some(from) && StateOf(meta, states[3].row.data) == Some(to)
  {
    var meta, d := Meta({}, Some(f), []), StateIs(f, from);
    assert Merge(meta, d, map[]) == d;
    var row := Stored(d, 1, false, None);
    var after := UpdateWrite(meta, row, StateIs(f, to));
    assert UserPart(meta, StateIs(f, to)) == StateIs(f, to) && SystemPart(meta, d) == map[];
    events, states := OneCall(meta, rules, d, Update(1, map[]), after);
  }

  /** A record without a stored state accepts one through a committed update. */
  lemma MissingStateCanBeSet(rules: Rules, f: string, v: string) returns (events: seq<Event>, states: seq<State>)
    requires rules.validate(StateIs(f, v)) == Some(StateIs(f, v)) && rules.recompute(StateIs(f, v)) == StateIs(f, v)
    ensures var meta := Meta({}, Some(f), []);
            && Run(meta, rules, events, states) && Starts(states[0]) && |events| == 3
            && StateOf(meta, states[0].row.data) == None && StateOf(meta, states[3].row.data) == Some(v)
  {
    var meta := Meta({}, Some(f), []);
    assert Merge(meta, map[], StateIs(f, v)) == StateIs(f, v);
    var row := Stored(map[], 1, false, None);
    var after := UpdateWrite(meta, row, StateIs(f, v));
    assert UserPart(meta, StateIs(f, v)) == StateIs(f, v) && SystemPart(meta, map[]) == map[];
    events, states := OneCall(meta, rules, map[], Update(1, StateIs(f, v)), after);
  }

  /** A run in which a call expects version 2 while it reads version 1: both updates succeed, and the second erases what
      the first one stored under `k`. */
  lemma FutureVersionLosesData(rules: Rules, k: string, theirs: Json, m: string, mine: Json)
      returns (events: seq<Event>, states: seq<State>)
    requires k != m
    requires rules.validate(map[k := theirs]) == Some(map[k := theirs])
             && rules.recompute(map[k := theirs]) == map[k := theirs]
    requires rules.validate(map[m := mine]) == Some(map[m := mine]) && rules.recompute(map[m := mine]) == map[m := mine]
    ensures var meta := Meta({}, None, []);
            && Run(meta, rules, events, states) && Starts(states[0])
            && var last := states[|events|];
               && |last.writes| == 2 && !Lossless(meta, last.writes[1])
               && last.writes[1].before.data == map[k := theirs] && last.row.data == map[m := mine]
  {
    var meta := Meta({}, None, []);
    var row := Stored(map[], 1, false, None);
    var a, b := Update(1, map[k := theirs]), Update(2, map[m := mine]);
    assert Merge(meta, map[], map[k := theirs]) == map[k := theirs]
      && Merge(meta, map[], map[m := mine]) == map[m := mine];
    WithoutSystemFields(meta, map[k := theirs], map[]);
    WithoutSystemFields(meta, map[m := mine], map[k := theirs]);
    var row2 := Stored(map[k := theirs], 2, false, None);
    var row3 := Stored(map[m := mine], 3, false, None);
    assert Outcome(meta, rules, a, row, row) == Some(row2) && Outcome(meta, rules, b, row, row2) == Some(row3);
    hide Outcome, UserPart;
    events, states := TwoCalls(meta, rules, row, a, row2, b, row3);
    assert row2.data != row.data by { assert k in row2.data; }
  }

  lemma WithoutSystemFields(meta: Meta, d: Record, stored: Record)
    requires meta.system == {}
    ensures UserPart(meta, d) + SystemPart(meta, stored) == d
  {
  }

  /** Two calls that both read `row` and then commit one after the other. */
  lemma TwoCalls(meta: Meta, rules: Rules, row: Stored, a: Request, row2: Stored, b: Request, row3: Stored)
      returns (events: seq<Event>, states: seq<State>)
    requires Versioned(a) && Versioned(b) && !row.deleted
    requires Outcome(meta, rules, a, row, row) == Some(row2) && Outcome(meta, rules, b, row, row2) == Some(row3)
    ensures Run(meta, rules, events, states) && Starts(states[0]) && |events| == 6
    ensures states[6].row == row3
    ensures states[6].writes == [Write(a, row.version, row, row, row2), Write(b, row.version, row, row2, row3)]
  {
    hide Outcome;
    var v := row.version;
    var s0 := State(row, map[], []);
    var s1 := s0.(calls := map[0 := Begun(a, v)]);
    var s2 := s0.(calls := map[0 := Begun(a, v), 1 := Begun(b, v)]);
    var s3 := s0.(calls := map[0 := Holding(a, v, row), 1 := Begun(b, v)]);
    var s4 := s0.(calls := map[0 := Holding(a, v, row), 1 := Holding(b, v, row)]);
    var s5 := State(row2, map[1 := Holding(b, v, row)], [Write(a, v, row, row, row2)]);
    var s6 := State(row3, map[], s5.writes + [Write(b, v, row, row2, row3)]);
    events := [Begin(0, a), Begin(1, b), Precheck(0), Precheck(1), Commit(0), Commit(1)];
    states := [s0, s1, s2, s3, s4, s5, s6];
    assert s4.calls - {0} == s5.calls && s5.calls - {1} == map[];
    assert Step(meta, rules, events[0], s0, s1) && Step(meta, rules, events[1], s1, s2)
      && Step(meta, rules, events[2], s2, s3);
    assert Step(meta, rules, events[3], s3, s4) && Step(meta, rules, events[4], s4, s5)
      && Step(meta, rules, events[5], s5, s6);
  }

  /** One transition, from one state to another, on a record with a system field. */
  function OneTransition(f: string, k: string, action: string, from: string, to: string): Meta {
    Meta({k}, Some(f), [Transition(action, from, to, {})])
  }

  function StateAnd(f: string, v: string, k: string, x: Json): Record { map[f := JStr(v), k := x] }

  lemma OnlyTransition(rules: Rules, f: string, k: string, action: string, from: string, to: string, x: Json,
    payload: Record, y: Json)
    requires f != k && (k in payload ==> payload[k] == y) && (k !in payload ==> x == y) && payload.Keys <= {k}
    requires (forall t, d :: rules.guard(t, d)) && (forall t, d :: rules.validator(t, d))
    requires rules.validate(StateAnd(f, to, k, y)) == Some(StateAnd(f, to, k, y))
    ensures TransitionData(OneTransition(f, k, action, from, to), rules, StateAnd(f, from, k, x), action, payload)
            == Ok((StateAnd(f, to, k, y), Transition(action, from, to, {})))
  {
    var d := StateAnd(f, from, k, x);
    assert (d + payload)[f := JStr(to)] == StateAnd(f, to, k, y);
    assert WithSetFields(rules, Transition(action, from, to, {}), StateAnd(f, to, k, y)) == StateAnd(f, to, k, y);
  }

  /** A run in which a system write commits between the read and the write of a transition: the transition puts back
      the value it had read. */
  lemma TransitionUndoesSystemWrite(
    rules: Rules, f: string, k: string, action: string, from: string, to: string, stale: Json, newer: Json)
      returns (events: seq<Event>, states: seq<State>)
    requires f != k
    requires (forall t, d :: rules.guard(t, d)) && (forall t, d :: rules.validator(t, d))
    requires rules.validate(StateAnd(f, to, k, stale)) == Some(StateAnd(f, to, k, stale))
    ensures var meta := OneTransition(f, k, action, from, to);
            && WellDeclared(meta) && Run(meta, rules, events, states) && Starts(states[0]) && |events| == 5
            && states[4].row.data == StateAnd(f, from, k, newer) && states[5].row.data == StateAnd(f, to, k, stale)
  {
    var meta, d := OneTransition(f, k, action, from, to), StateAnd(f, from, k, stale);
    var row := Stored(d, 1, false, None);
    var a, b := Transit(1, action, map[]), SetSystem(map[k := newer]);
    var patched := Stored(StateAnd(f, from, k, newer), 1, false, None);
    var after := Stored(StateAnd(f, to, k, stale), 2, false, Some(to));
    OnlyTransition(rules, f, k, action, from, to, stale, map[], stale);
    assert Outcome(meta, rules, a, row, patched) == Some(after);
    assert SystemWrite(row, map[k := newer]) == patched;
    hide Outcome, StateAnd, SystemWrite;
    events, states := SystemWriteBetween(meta, rules, row, a, b, after);
  }

  /** A call that reads `row` and commits after a system write. */
  lemma SystemWriteBetween(meta: Meta, rules: Rules, row: Stored, a: Request, b: Request, after: Stored)
      returns (events: seq<Event>, states: seq<State>)
    requires Versioned(a) && b.SetSystem? && b.patch.Keys <= meta.system && !row.deleted
    requires Outcome(meta, rules, a, row, SystemWrite(row, b.patch)) == Some(after)
    ensures Run(meta, rules, events, states) && Starts(states[0]) && |events| == 5
    ensures states[4].row == SystemWrite(row, b.patch) && states[5].row == after
  {
    hide Outcome, SystemWrite;
    var v, patched := row.version, SystemWrite(row, b.patch);
    var s0 := State(row, map[], []);
    var s1 := s0.(calls := map[0 := Begun(a, v)]);
    var s2 := s0.(calls := map[0 := Holding(a, v, row)]);
    var s3 := s0.(calls := map[0 := Holding(a, v, row), 1 := Begun(b, v)]);
    var s4 := s2.(row := patched);
    var s5 := State(after, map[], [Write(a, v, row, patched, after)]);
    events, states := [Begin(0, a), Precheck(0), Begin(1, b), SystemCommit(1), Commit(0)], [s0, s1, s2, s3, s4, s5];
    assert s3.calls - {1} == s2.calls && s4.calls - {0} == map[];
    assert Step(meta, rules, events[0], s0, s1) && Step(meta, rules, events[1], s1, s2)
      && Step(meta, rules, events[2], s2, s3);
    assert Step(meta, rules, events[3], s3, s4) && Step(meta, rules, events[4], s4, s5);
  }

  /** A run in which a transition stores a system field that its payload names; an update with that payload is
      refused. */
  lemma TransitionStoresSystemField(
    rules: Rules, f: string, k: string, action: string, from: string, to: string, x: Json, y: Json)
      returns (events: seq<Event>, states: seq<State>)
    requires f != k
    requires (forall t, d :: rules.guard(t, d)) && (forall t, d :: rules.validator(t, d))
    requires rules.validate(StateAnd(f, to, k, y)) == Some(StateAnd(f, to, k, y))
    ensures var meta := OneTransition(f, k, action, from, to);
            && WellDeclared(meta) && Run(meta, rules, events, states) && Starts(states[0]) && |events| == 3
            && states[0].row.data == StateAnd(f, from, k, x) && states[3].row.data == StateAnd(f, to, k, y)
            && UpdateData(meta, rules, StateAnd(f, from, k, x), map[k := y]) == Err(SystemField)
  {
    var meta := OneTransition(f, k, action, from, to);
    OnlyTransition(rules, f, k, action, from, to, x, map[k := y], y);
    assert k in map[k := y] && k in meta.system;
    events, states := OneCall(meta, rules, StateAnd(f, from, k, x), Transit(1, action, map[k := y]),
      Stored(StateAnd(f, to, k, y), 2, false, Some(to)));
  }
}
