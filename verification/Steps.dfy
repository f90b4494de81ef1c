/** Step chains: run in order, pause at wait steps, resume once per pause. */
module Steps {
  import opened Prelude

  /** A wait names an entity and either a workflow action or a record event. */
  datatype Wait = Wait(entity: string, action: Option<string>, event: Option<string>)

  datatype Activity = Act(kind: string) | WaitEvent(wait: Wait) | BadWait

  datatype Status = Running | Waiting | Success | Failed

  /** The indexes below `n` of the steps that do work, in order. */
  function Acts(steps: seq<Activity>, n: nat): (r: seq<nat>)
    requires n <= |steps|
    ensures forall k :: 0 <= k < |r| ==> r[k] < n && steps[r[k]].Act?
  {
    if n == 0 then [] else Acts(steps, n - 1) + (if steps[n - 1].Act? then [n - 1] else [])
  }

  lemma {:induction false} ActsHas(steps: seq<Activity>, n: nat, i: nat)
    requires n <= |steps|
    ensures i in Acts(steps, n) <==> i < n && steps[i].Act?
  {
    if n > 0 { ActsHas(steps, n - 1, i); }
  }

  lemma {:induction false} ActsAscend(steps: seq<Activity>, n: nat)
    requires n <= |steps|
    ensures forall j, k :: 0 <= j < k < |Acts(steps, n)| ==> Acts(steps, n)[j] < Acts(steps, n)[k]
  {
    if n > 0 { ActsAscend(steps, n - 1); }
  }

  lemma {:induction false} ActsPrefix(steps: seq<Activity>, n: nat, m: nat)
    requires n <= m <= |steps|
    ensures Acts(steps, n) <= Acts(steps, m)
    decreases m - n
  {
    if n < m { ActsPrefix(steps, n, m - 1); }
  }

  // ---------------------------------------------------------------- one segment of a chain

  datatype Row = Row(status: Status, index: nat, wait: Option<Wait>)

  datatype End = Finished | Paused(at: nat) | FailedAt(at: nat) | BadConfig(at: nat)

  /** Where a segment that starts at `p` ends, when the steps that work are those in `ok`. */
  function EndFrom(steps: seq<Activity>, p: nat, ok: set<nat>): (e: End)
    requires p <= |steps|
    ensures e.Finished? || p <= e.at < |steps|
    ensures e.Paused? ==> steps[e.at].WaitEvent?
    decreases |steps| - p
  {
    if p == |steps| then Finished
    else match steps[p]
      case WaitEvent(_) => Paused(p)
      case BadWait => BadConfig(p)
      case Act(_) => if p in ok then EndFrom(steps, p + 1, ok) else FailedAt(p)
  }

  /** The first step from `p` on that a segment does not get past: a wait, a bad one, or a step that does not work. */
  ghost predicate FirstStop(steps: seq<Activity>, p: nat, ok: set<nat>, q: nat) {
    && p <= q < |steps| && !(steps[q].Act? && q in ok)
    && forall k :: p <= k < q ==> steps[k].Act? && k in ok
  }

  /** A segment pauses at a wait, fails at a step that does not work, gives up at a bad wait, whichever comes first, and
      finishes when there is none. */
  lemma {:induction false} EndsAtFirstStop(steps: seq<Activity>, p: nat, ok: set<nat>)
    requires p <= |steps|
    ensures var e := EndFrom(steps, p, ok);
            && (e.Finished? <==> forall k :: p <= k < |steps| ==> steps[k].Act? && k in ok)
            && (forall q: nat :: FirstStop(steps, p, ok, q) ==>
                  e == if steps[q].WaitEvent? then Paused(q) else if steps[q].Act? then FailedAt(q) else BadConfig(q))
    decreases |steps| - p
  {
    if p < |steps| && steps[p].Act? && p in ok {
      EndsAtFirstStop(steps, p + 1, ok);
      forall q: nat | FirstStop(steps, p, ok, q) ensures FirstStop(steps, p + 1, ok, q) {}
    }
  }

  /** How far the steps have been started when a segment has ended. */
  function Reached(steps: seq<Activity>, e: End): nat {
    match e
    case Finished => |steps|
    case Paused(i) => i
    case FailedAt(i) => i + 1
    case BadConfig(i) => i
  }

  class Chain {
    var row: Row
    var executed: seq<nat>

    constructor ()
      ensures row == Row(Running, 0, None) && executed == []
    {
      row := Row(Running, 0, None);
      executed := [];
    }

    /** runStepRange: a paused, failed or finished row, and exactly the steps up to there executed. */
    method RunStepRange(steps: seq<Activity>, start: nat, ok: set<nat>) returns (end: End)
      requires start <= |steps| && executed == Acts(steps, start)
      modifies this
      ensures end == EndFrom(steps, start, ok)
      ensures Reached(steps, end) <= |steps| && executed == Acts(steps, Reached(steps, end))
      ensures end.Paused? ==> row.status == Waiting && row.index == end.at && row.wait == Some(steps[end.at].wait)
      ensures end.FailedAt? ==> row.status == Failed && row.index == end.at
      ensures end.Finished? ==> row.status == Success
      ensures end.BadConfig? ==> row.status == old(row).status
    {
      var p := start;
      while p < |steps|
        invariant start <= p <= |steps| && executed == Acts(steps, p)
        invariant EndFrom(steps, start, ok) == EndFrom(steps, p, ok)
        invariant row.status == old(row).status
      {
        match steps[p] {
          case WaitEvent(wait) =>
            row := Row(Waiting, p, Some(wait));
            return Paused(p);
          case BadWait => return BadConfig(p);
          case Act(_) =>
            executed := executed + [p];
            if p !in ok {
              row := row.(status := Failed, index := p);
              return FailedAt(p);
            }
            row := row.(index := p + 1);
            p := p + 1;
        }
      }
      row := row.(status := Success);
      return Finished;
    }
  }

  // ---------------------------------------------------------------- matching events against waiting runs

  datatype Detail = OnAction(action: string) | OnRecordEvent(event: string)

  predicate Matches(row: Row, entity: string, detail: Detail) {
    row.status == Waiting && row.wait.Some? && row.wait.value.entity == entity
    && match detail
       case OnAction(a) => row.wait.value.action == Some(a)
       case OnRecordEvent(e) => row.wait.value.event == Some(e)
  }

  function Released(runs: map<nat, Row>, ids: set<nat>): map<nat, Row> {
    map id | id in runs :: if id in ids then runs[id].(status := Running) else runs[id]
  }

  class RunTable {
    var runs: map<nat, Row>

    constructor ()
      ensures runs == map[]
    {
      runs := map[];
    }

    /** resumeMatching: every matching waiting run is flipped to running and handed out once, in one transaction. */
    method ResumeMatching(entity: string, detail: Detail) returns (resumed: seq<(nat, nat)>)
      modifies this
      ensures runs == Released(old(runs), set id | id in old(runs) && Matches(old(runs)[id], entity, detail))
      ensures runs.Keys == old(runs).Keys
      ensures forall id :: id in runs ==>
                runs[id] == if Matches(old(runs)[id], entity, detail) then old(runs)[id].(status := Running)
                            else old(runs)[id]
      ensures forall id, p :: (id, p) in resumed <==>
              id in old(runs) && Matches(old(runs)[id], entity, detail) && p == old(runs)[id].index + 1
      ensures forall i, j :: 0 <= i < j < |resumed| ==> resumed[i].0 != resumed[j].0
    {
      resumed := [];
      ghost var before := runs;
      var left := set id | id in runs && Matches(runs[id], entity, detail);
      ghost var all := left;
      while left != {}
        invariant left <= all
        invariant runs == Released(before, all - left)
        invariant forall id, p :: (id, p) in resumed <==> id in all && id !in left && p == before[id].index + 1
        invariant forall i, j :: 0 <= i < j < |resumed| ==> resumed[i].0 != resumed[j].0
        decreases |left|
      {
        var id :| id in left;
        assert forall i :: 0 <= i < |resumed| ==> resumed[i] in resumed && resumed[i].0 != id by {
          forall i | 0 <= i < |resumed| ensures resumed[i] in resumed && resumed[i].0 != id {
            var r := resumed[i];
            assert (r.0, r.1) in resumed;
          }
        }
        resumed := resumed + [(id, runs[id].index + 1)];
        runs := runs[id := runs[id].(status := Running)];
        left := left - {id};
      }
    }
  }

  // ---------------------------------------------------------------- one run under concurrent events and crashes

  /** `segments` are the positions of the processes working on the run; `pauses` and `resumes` the wait steps it
      stopped at and was released from. */
  datatype State = State(
    row: Row, segments: multiset<nat>, executed: seq<nat>, pauses: seq<nat>, resumes: seq<nat>, end: Option<End>)

  datatype Event =
    | StepDone(p: nat, recorded: bool)
    | StepFailed(p: nat, recorded: bool)
    | PauseAt(p: nat)
    | GiveUp(p: nat)
    | Finish(recorded: bool)
    | Resume(entity: string, detail: Detail)
    | Crash(p: nat)

  function Without(s: multiset<nat>, p: nat): multiset<nat> { s - multiset{p} }

  ghost predicate Step(steps: seq<Activity>, e: Event, s: State, t: State) {
    match e
    case StepDone(p, recorded) =>
      && p in s.segments && p < |steps| && steps[p].Act?
      && t == s.(segments := Without(s.segments, p) + multiset{p + 1}, executed := s.executed + [p],
                 row := if recorded then s.row.(index := p + 1) else s.row)
    case StepFailed(p, recorded) =>
      && p in s.segments && p < |steps| && steps[p].Act?
      && t == s.(segments := Without(s.segments, p), executed := s.executed + [p], end := Some(FailedAt(p)),
                 row := if recorded then s.row.(status := Failed, index := p) else s.row)
    case PauseAt(p) =>
      && p in s.segments && p < |steps| && steps[p].WaitEvent?
      && t == s.(segments := Without(s.segments, p), row := Row(Waiting, p, Some(steps[p].wait)),
         pauses := s.pauses + [p])
    case GiveUp(p) =>
      && p in s.segments && p < |steps| && !steps[p].Act?
      && t == s.(segments := Without(s.segments, p), end := Some(BadConfig(p)))
    case Finish(recorded) =>
      && |steps| in s.segments
      && t == s.(segments := Without(s.segments, |steps|), end := Some(Finished),
                 row := if recorded then s.row.(status := Success) else s.row)
    case Resume(entity, detail) =>
      && Matches(s.row, entity, detail)
      && t == s.(row := s.row.(status := Running), segments := s.segments + multiset{s.row.index + 1},
         resumes := s.resumes + [s.row.index])
    case Crash(p) => p in s.segments && t == s.(segments := Without(s.segments, p))
  }

  function StartState(): State { State(Row(Running, 0, None), multiset{0}, [], [], [], None) }

  /** How far the run has got. */
  ghost predicate At(steps: seq<Activity>, s: State, n: nat) {
    && n <= |steps| && s.executed == Acts(steps, n)
    && (s.row.status == Waiting ==>
       s.segments == multiset{} && s.row.index == n < |steps| && steps[n].WaitEvent? && s.end == None
       && s.row.wait == Some(steps[n].wait))
    && (s.row.status != Waiting ==> s.segments == multiset{n} || s.segments == multiset{})
    && (s.segments != multiset{} ==> s.end == None)
    && (s.end.Some? ==> Reached(steps, s.end.value) == n)
    && (s.end.Some? && s.end.value.FailedAt? ==> steps[s.end.value.at].Act?)
    && (s.row.status == Failed ==> s.end.Some? && s.end.value.FailedAt?)
    && (s.row.status == Success ==> s.end == Some(Finished))
  }

  ghost predicate PausesOk(s: State, n: nat) {
    && (forall i, j :: 0 <= i < j < |s.pauses| ==> s.pauses[i] < s.pauses[j])
    && (forall i :: 0 <= i < |s.pauses| ==> s.pauses[i] <= n)
    && (s.row.status == Waiting ==>
       |s.pauses| > 0 && s.pauses[|s.pauses| - 1] == s.row.index && s.resumes == s.pauses[..|s.pauses| - 1])
    && (s.row.status != Waiting ==> s.resumes == s.pauses && forall i :: 0 <= i < |s.pauses| ==> s.pauses[i] < n)
  }

  /** The process that acts is the one at the front. */
  lemma WhoActs(steps: seq<Activity>, s: State, n: nat, p: nat)
    requires At(steps, s, n) && p in s.segments
    ensures p == n && s.segments == multiset{n} && s.row.status != Waiting && Without(s.segments, p) == multiset{}
    ensures s.end == None
  {
    assert p in multiset{n};
  }

  lemma WorkAt(steps: seq<Activity>, e: Event, s: State, t: State, n: nat)
    requires At(steps, s, n) && PausesOk(s, n) && Step(steps, e, s, t) && (e.StepDone? || e.StepFailed?)
    ensures n < |steps| && At(steps, t, n + 1) && PausesOk(t, n + 1)
  {
    WhoActs(steps, s, n, e.p);
    if e.StepDone? { assert t.segments == multiset{n + 1}; }
  }

  lemma StopAt(steps: seq<Activity>, e: Event, s: State, t: State, n: nat)
    requires At(steps, s, n) && PausesOk(s, n) && Step(steps, e, s, t) && (e.PauseAt? || e.GiveUp? || e.Crash?)
    ensures At(steps, t, n) && PausesOk(t, n)
  {
    WhoActs(steps, s, n, e.p);
    if e.PauseAt? { assert t.pauses[..|t.pauses| - 1] == s.pauses; }
  }

  lemma FinishAt(steps: seq<Activity>, e: Event, s: State, t: State, n: nat)
    requires At(steps, s, n) && PausesOk(s, n) && Step(steps, e, s, t) && e.Finish?
    ensures At(steps, t, n) && PausesOk(t, n)
  {
    WhoActs(steps, s, n, |steps|);
  }

  lemma ResumeAt(steps: seq<Activity>, e: Event, s: State, t: State, n: nat)
    requires At(steps, s, n) && PausesOk(s, n) && Step(steps, e, s, t) && e.Resume?
    ensures n < |steps| && At(steps, t, n + 1) && PausesOk(t, n + 1)
  {
    assert Acts(steps, n + 1) == Acts(steps, n);
    assert t.segments == multiset{n + 1};
    assert s.pauses[..|s.pauses| - 1] + [s.pauses[|s.pauses| - 1]] == s.pauses;
  }

  lemma StepAt(steps: seq<Activity>, e: Event, s: State, t: State, n: nat) returns (m: nat)
    requires At(steps, s, n) && PausesOk(s, n) && Step(steps, e, s, t)
    ensures At(steps, t, m) && PausesOk(t, m) && n <= m
  {
    hide At, PausesOk, Step;
    match e {
      case StepDone(_, _) =>
        WorkAt(steps, e, s, t, n);
        m := n + 1;
      case StepFailed(_, _) =>
        WorkAt(steps, e, s, t, n);
        m := n + 1;
      case Finish(_) =>
        FinishAt(steps, e, s, t, n);
        m := n;
      case Resume(_, _) =>
        ResumeAt(steps, e, s, t, n);
        m := n + 1;
      case _ =>
        StopAt(steps, e, s, t, n);
        m := n;
    }
  }

  ghost predicate Run(steps: seq<Activity>, events: seq<Event>, states: seq<State>) {
    && |states| == |events| + 1 && states[0] == StartState()
    && forall i :: 0 <= i < |events| ==> Step(steps, events[i], states[i], states[i + 1])
  }

  lemma {:induction false} RunAt(steps: seq<Activity>, events: seq<Event>, states: seq<State>, i: nat) returns (n: nat)
    requires Run(steps, events, states) && i <= |events|
    ensures At(steps, states[i], n) && PausesOk(states[i], n)
  {
    if i == 0 {
      n := 0;
    } else {
      var before := RunAt(steps, events, states, i - 1);
      assert Step(steps, events[i - 1], states[i - 1], states[i]);
      n := StepAt(steps, events[i - 1], states[i - 1], states[i], before);
    }
  }

  /** Over every run, with any concurrent events and crashes: at most one process works on a run; the executed
      steps are an in-order, repeat-free prefix of the steps that do work; each pause is resumed at most once. */
  lemma ChainsRunInOrder(steps: seq<Activity>, events: seq<Event>, states: seq<State>, i: nat)
    requires Run(steps, events, states) && i <= |events|
    ensures |states[i].segments| <= 1
    ensures states[i].executed <= Acts(steps, |steps|)
    ensures forall a, b :: 0 <= a < b < |states[i].executed| ==> states[i].executed[a] < states[i].executed[b]
    ensures states[i].resumes <= states[i].pauses
    ensures forall a, b :: 0 <= a < b < |states[i].resumes| ==> states[i].resumes[a] < states[i].resumes[b]
  {
    var n := RunAt(steps, events, states, i);
    ActsPrefix(steps, n, |steps|);
    ActsAscend(steps, n);
  }

  /** When the run ends in success the prefix is complete; when it ends failed, the failing step is the last one
      that ran. */
  lemma ChainsEndAsTheySay(steps: seq<Activity>, events: seq<Event>, states: seq<State>, i: nat)
    requires Run(steps, events, states) && i <= |events|
    ensures states[i].row.status == Success || states[i].end == Some(Finished) ==>
            states[i].executed == Acts(steps, |steps|)
    ensures states[i].row.status == Failed ==>
            && states[i].end.Some? && states[i].end.value.FailedAt?
            && |states[i].executed| > 0 && states[i].executed[|states[i].executed| - 1] == states[i].end.value.at
    ensures states[i].end.Some? ==> states[i].segments == multiset{} && states[i].row.status != Waiting
  {
    var n := RunAt(steps, events, states, i);
  }

  /** What a wait step waits for: its own entity, and the very action or record event it names. */
  predicate WaitsFor(steps: seq<Activity>, p: nat, entity: string, detail: Detail) {
    && p < |steps| && steps[p].WaitEvent? && steps[p].wait.entity == entity
    && (detail.OnAction? ==> steps[p].wait.action == Some(detail.action))
    && (detail.OnRecordEvent? ==> steps[p].wait.event == Some(detail.event))
  }

  /** Over every run, an event releases the run if and only if the run is paused at a step that waits for it; it goes on
      with the step after that. */
  lemma ResumedByItsEvent(
    steps: seq<Activity>, events: seq<Event>, states: seq<State>, i: nat, entity: string, detail: Detail)
    requires Run(steps, events, states) && i <= |events|
    ensures (exists t :: Step(steps, Resume(entity, detail), states[i], t)) <==>
            states[i].row.status == Waiting && WaitsFor(steps, states[i].row.index, entity, detail)
    ensures forall t :: Step(steps, Resume(entity, detail), states[i], t) ==>
              t.segments == multiset{states[i].row.index + 1} && t.row.status == Running
              && t.executed == states[i].executed
  {
    var s := states[i];
    var n := RunAt(steps, events, states, i);
    if s.row.status == Waiting && WaitsFor(steps, s.row.index, entity, detail) {
      var t := s.(row := s.row.(status := Running), segments := s.segments + multiset{s.row.index + 1},
                  resumes := s.resumes + [s.row.index]);
      assert Step(steps, Resume(entity, detail), s, t);
    }
  }
}
