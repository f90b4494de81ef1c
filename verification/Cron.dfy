/** The job scheduler: claims, bounded retries under crashes and redeliveries, and backoff in 64-bit time. */
module Cron {
  import opened Prelude

  // ---------------------------------------------------------------- backoff

  const TWO_31 := 0x8000_0000
  const TWO_32 := 0x1_0000_0000
  const TWO_63 := 0x8000_0000_0000_0000
  const TWO_64 := 0x1_0000_0000_0000_0000

  newtype Int32 = x: int | -0x8000_0000 <= x < 0x8000_0000

  function Wrap32(x: int): (r: int)
    ensures -TWO_31 <= r < TWO_31
  {
    (x + TWO_31) % TWO_32 - TWO_31
  }

  function Wrap64(x: int): (r: int)
    ensures -TWO_63 <= r < TWO_63
  {
    (x + TWO_63) % TWO_64 - TWO_63
  }

  lemma WrapIsExact(x: int)
    ensures Wrap64(x) == x <==> -TWO_63 <= x < TWO_63
  {
  }

  function Pow2(n: nat): (r: nat)
    ensures r >= 1
  {
    if n == 0 then 1 else 2 * Pow2(n - 1)
  }

  lemma {:induction false} Pow2UpTo30(n: nat)
    requires n <= 30
    ensures Pow2(n) <= 0x4000_0000
    decreases 30 - n
  {
    if n < 30 {
      Pow2UpTo30(n + 1);
    } else {
      assert Pow2(5) == 32;
      assert Pow2(10) == 32 * Pow2(5);
      assert Pow2(15) == 32 * Pow2(10);
      assert Pow2(20) == 32 * Pow2(15);
      assert Pow2(25) == 32 * Pow2(20);
      assert Pow2(30) == 32 * Pow2(25);
    }
  }

  function Exponent(attempt: int): (e: nat)
    ensures e <= 30
  {
    var e := Wrap32(attempt - 1);
    if e < 0 then 0 else if e > 30 then 30 else e
  }

  /** The seconds a retry should wait: base doubled per failed attempt, at most 30 times. */
  function BackoffSeconds(base: int, attempt: int): int { base * Pow2(Exponent(attempt)) }

  /** From the first attempt on, the exponent is attempt - 1, capped at 30. */
  lemma ExponentOfAttempt(attempt: int)
    requires 1 <= attempt < TWO_31
    ensures Exponent(attempt) == if attempt - 1 < 30 then attempt - 1 else 30
  {
  }

  const NANOSECONDS := 1_000_000_000

  /** backoffDelay, a duration in nanoseconds that wraps around in 64 bits. It is the intended delay if and only
      if that many nanoseconds fit. */
  method BackoffDelay(retryBackoffSeconds: Int32, attempt: Int32) returns (delay: int)
    ensures var s := BackoffSeconds(retryBackoffSeconds as int, attempt as int);
            && (delay == s * NANOSECONDS <==> -9223372036 <= s <= 9223372036)
            && delay == Wrap64(s * NANOSECONDS)
  {
    var exponent := Wrap32(attempt as int - 1);
    if exponent < 0 { exponent := 0; }
    if exponent > 30 { exponent := 30; }
    Pow2UpTo30(exponent);
    ShiftFits(retryBackoffSeconds as int, Pow2(exponent));
    var seconds := Wrap64(retryBackoffSeconds as int * Pow2(exponent));
    delay := Wrap64(seconds * NANOSECONDS);
    WrapIsExact(seconds * NANOSECONDS);
  }

  lemma ShiftFits(base: int, factor: int)
    requires -TWO_31 <= base < TWO_31 && 1 <= factor <= 0x4000_0000
    ensures -TWO_63 <= base * factor < TWO_63
    ensures Wrap64(base * factor) == base * factor
  {
    if base >= 0 { MulBound(base, factor); } else { MulBound(-base, factor); }
    assert base * factor == -((-base) * factor);
    WrapIsExact(base * factor);
  }

  lemma MulBound(a: int, b: int)
    requires 0 <= a <= TWO_31 && 1 <= b <= 0x4000_0000
    ensures 0 <= a * b <= TWO_31 * 0x4000_0000
  {
    MulMono(a, b, 0x4000_0000);
    MulMono(0x4000_0000, a, TWO_31);
  }

  lemma MulMono(a: int, b: int, c: int)
    requires 0 <= a && 0 <= b <= c
    ensures 0 <= a * b <= a * c
  {
  }

  // ---------------------------------------------------------------- finishing a run

  datatype RunStatus = Enqueued | Succeeded | FailedRun | WaitingRun

  datatype RunRow = RunRow(attempt: int, status: RunStatus, scheduledFor: int)

  /** What a due message carries. */
  datatype Payload = Payload(runId: nat, attempt: int, maxAttempts: int)

  predicate IsInt32(x: int) { -TWO_31 <= x < TWO_31 }

  /** When the attempt after `attempt` is due, if that one fails at `now`, in nanoseconds. */
  function RetryAt(backoff: Int32, attempt: int, now: int): int {
    now + Wrap64(BackoffSeconds(backoff as int, attempt) * NANOSECONDS)
  }

  /** A run that ended, and on a failure with attempts left the next attempt after the backoff. */
  ghost predicate Finishes(
    backoff: Int32, p: Payload, ok: bool, now: int, before: seq<RunRow>, after: seq<RunRow>, next: Option<Payload>)
    requires p.runId < |before|
  {
    var done := before[p.runId := before[p.runId].(status := if ok then Succeeded else FailedRun)];
    if !ok && p.attempt < p.maxAttempts then
      && after == done + [RunRow(p.attempt + 1, Enqueued, RetryAt(backoff, p.attempt, now))]
      && next == Some(Payload(|before|, p.attempt + 1, p.maxAttempts))
    else after == done && next == None
  }

  /** The runs of one job. */
  class RunHistory {
    const backoff: Int32
    var runs: seq<RunRow>

    constructor (backoff: Int32)
      ensures this.backoff == backoff && runs == []
    {
      this.backoff := backoff;
      runs := [];
    }

    /** The first run of a firing. */
    method Fire(scheduledFor: int, maxAttempts: int) returns (p: Payload)
      modifies this
      ensures runs == old(runs) + [RunRow(1, Enqueued, scheduledFor)]
      ensures p == Payload(|old(runs)|, 1, maxAttempts)
    {
      runs := runs + [RunRow(1, Enqueued, scheduledFor)];
      return Payload(|runs| - 1, 1, maxAttempts);
    }

    /** FinishRunWithRetry: record the outcome, and on a failure with attempts left schedule the next one. */
    method FinishRunWithRetry(p: Payload, ok: bool, now: int) returns (next: Option<Payload>)
      requires p.runId < |runs| && IsInt32(p.attempt)
      modifies this
      ensures Finishes(backoff, p, ok, now, old(runs), runs, next)
    {
      runs := runs[p.runId := runs[p.runId].(status := if ok then Succeeded else FailedRun)];
      if ok || p.attempt >= p.maxAttempts { return None; }
      var delay := BackoffDelay(backoff, p.attempt as Int32);
      runs := runs + [RunRow(p.attempt + 1, Enqueued, now + delay)];
      return Some(Payload(|runs| - 1, p.attempt + 1, p.maxAttempts));
    }

    /** Execute: a run that is already finished or waiting is not run again. */
    method Execute(p: Payload, ok: bool, now: int) returns (ran: bool, next: Option<Payload>)
      requires p.runId < |runs| && IsInt32(p.attempt)
      modifies this
      ensures ran == (old(runs)[p.runId].status == Enqueued)
      ensures !ran ==> runs == old(runs) && next == None
      ensures ran ==> Finishes(backoff, p, ok, now, old(runs), runs, next)
    {
      if runs[p.runId].status != Enqueued { return false, None; }
      next := FinishRunWithRetry(p, ok, now);
      ran := true;
    }

    /** A failing run whose message arrives twice is executed once. */
    method FailDeliveredTwice(p: Payload, now: int) returns (executions: int, next: Option<Payload>)
      requires p.runId < |runs| && IsInt32(p.attempt) && runs[p.runId].status == Enqueued
      modifies this
      ensures executions == 1 && Finishes(backoff, p, false, now, old(runs), runs, next)
    {
      hide RetryAt;
      executions := 0;
      var ran: bool;
      ran, next := Execute(p, false, now);
      if ran { executions := executions + 1; }
      var again, _ := Execute(p, false, now);
      if again { executions := executions + 1; }
    }

    /** Without crashes or overlapping deliveries, a firing that always fails is executed exactly the maximum
        number of times, although every message is delivered twice. Its runs carry the attempts 1, 2, ... up to the
        maximum, all failed, and each but the first is due one backoff after the failure before it; `fails` are the
        times of the failures. */
    method FailUntilExhausted(scheduledFor: int, maxAttempts: int, fails: seq<int>) returns (executions: int)
      requires maxAttempts >= 1 && IsInt32(maxAttempts) && |fails| == maxAttempts
      modifies this
      ensures executions == maxAttempts
      ensures |runs| == |old(runs)| + maxAttempts && runs[..|old(runs)|] == old(runs)
      ensures forall j :: |old(runs)| <= j < |runs| ==>
                runs[j] == RunRow(j - |old(runs)| + 1, FailedRun, DueAt(backoff, scheduledFor, fails, j - |old(runs)|))
    {
      hide RetryAt;
      ghost var before := runs;
      var p := Fire(scheduledFor, maxAttempts);
      executions := 0;
      var due := true;
      while due
        invariant 0 <= executions <= maxAttempts
        invariant due ==> executions < maxAttempts && p == Payload(|before| + executions, executions + 1, maxAttempts)
        invariant due ==> |runs| == |before| + executions + 1
        invariant due ==>
                  runs[|before| + executions]
                    == RunRow(executions + 1, Enqueued, DueAt(backoff, scheduledFor, fails, executions))
        invariant !due ==> executions == maxAttempts && |runs| == |before| + maxAttempts
        invariant runs[..|before|] == before
        invariant forall j :: |before| <= j < |before| + executions ==>
                    runs[j] == RunRow(j - |before| + 1, FailedRun, DueAt(backoff, scheduledFor, fails, j - |before|))
        decreases due, maxAttempts - executions
      {
        var more, next := FailDeliveredTwice(p, fails[executions]);
        executions := executions + more;
        if next.Some? { p := next.value; } else { due := false; }
      }
    }
  }

  /** When the run of attempt `k + 1` is due. */
  function DueAt(backoff: Int32, scheduledFor: int, fails: seq<int>, k: int): int
    requires 0 <= k <= |fails|
  {
    if k == 0 then scheduledFor else RetryAt(backoff, k, fails[k - 1])
  }

  /** The wait before attempt `k + 1` is the base doubled k - 1 times, at most 30 times, whenever that many nanoseconds
      fit. */
  lemma RetryDelay(backoff: Int32, k: int, now: int)
    requires 1 <= k < TWO_31
    ensures var s := backoff as int * Pow2(if k - 1 < 30 then k - 1 else 30);
            RetryAt(backoff, k, now) == now + s * NANOSECONDS <==> -9223372036 <= s <= 9223372036
  {
    ExponentOfAttempt(k);
    WrapIsExact(BackoffSeconds(backoff as int, k) * NANOSECONDS);
  }

  // ---------------------------------------------------------------- retries under crashes and redeliveries

  /** `messages` may be delivered any number of times; `working` have passed the status check; `retrying` have
      recorded a failure and not yet inserted the next attempt. */
  datatype State = State(runs: map<nat, RunRow>, messages: set<Payload>, working: multiset<Payload>,
      retrying: multiset<Payload>)

  datatype Event =
    | FireJob(id: nat, at: int)
    | ClaimRetry(id: nat)
    | Deliver(p: Payload)
    | FinishOk(p: Payload)
    | FinishFailed(p: Payload)
    | InsertRetry(p: Payload, id: nat, at: int)
    | PauseRun(p: Payload)
    | ResumeRun(id: nat)
    | Crash

  ghost predicate Step(max: int, e: Event, s: State, t: State) {
    match e
    case FireJob(id, at) =>
      id !in s.runs
        && t == s.(runs := s.runs[id := RunRow(1, Enqueued, at)], messages := s.messages + {Payload(id, 1, max)})
    case ClaimRetry(id) =>
      && id in s.runs && s.runs[id].attempt > 1 && s.runs[id].status == Enqueued
      && t == s.(messages := s.messages + {Payload(id, s.runs[id].attempt, max)})
    case Deliver(p) => p in s.messages && t == s.(working := s.working + multiset{p})
    case FinishOk(p) =>
      && p in s.working && p.runId in s.runs
      && t == s.(working := s.working - multiset{p}, runs := s.runs[p.runId := s.runs[p.runId].(status := Succeeded)])
    case FinishFailed(p) =>
      && p in s.working && p.runId in s.runs
      && t == s.(working := s.working - multiset{p}, runs := s.runs[p.runId := s.runs[p.runId].(status := FailedRun)],
                 retrying := if p.attempt < p.maxAttempts then s.retrying + multiset{p} else s.retrying)
    case InsertRetry(p, id, at) =>
      && p in s.retrying && id !in s.runs
      && t == s.(retrying := s.retrying - multiset{p}, runs := s.runs[id := RunRow(p.attempt + 1, Enqueued, at)])
    case PauseRun(p) =>
      && p in s.working && p.runId in s.runs
      && t == s.(working := s.working - multiset{p}, runs := s.runs[p.runId := s.runs[p.runId].(status := WaitingRun)])
    case ResumeRun(id) =>
      id in s.runs && s.runs[id].status == WaitingRun
        && t == s.(working := s.working + multiset{Payload(id, s.runs[id].attempt, max)})
    case Crash => t == s.(working := multiset{}, retrying := multiset{})
  }

  predicate InBounds(max: int, attempt: int) { 1 <= attempt <= max }

  ghost predicate RunsOk(max: int, runs: map<nat, RunRow>) {
    forall id :: id in runs ==> InBounds(max, runs[id].attempt)
  }

  ghost predicate PayloadsOk(max: int, ps: multiset<Payload>) {
    forall p :: p in ps ==> InBounds(max, p.attempt) && p.maxAttempts == max
  }

  ghost predicate Bounded(max: int, s: State) {
    && RunsOk(max, s.runs)
    && (forall p :: p in s.messages ==> InBounds(max, p.attempt) && p.maxAttempts == max)
    && PayloadsOk(max, s.working)
    && PayloadsOk(max, s.retrying) && (forall p :: p in s.retrying ==> p.attempt < max)
  }

  lemma PutRun(max: int, runs: map<nat, RunRow>, id: nat, row: RunRow)
    requires RunsOk(max, runs) && InBounds(max, row.attempt)
    ensures RunsOk(max, runs[id := row])
  {
  }

  lemma PutPayload(max: int, ps: multiset<Payload>, p: Payload)
    requires PayloadsOk(max, ps) && InBounds(max, p.attempt) && p.maxAttempts == max
    ensures PayloadsOk(max, ps + multiset{p})
    ensures forall x :: x in ps + multiset{p} <==> x in ps || x == p
  {
  }

  lemma TakePayload(max: int, ps: multiset<Payload>, p: Payload)
    requires PayloadsOk(max, ps)
    ensures PayloadsOk(max, ps - multiset{p})
    ensures forall x :: x in ps - multiset{p} ==> x in ps
  {
  }

  lemma StepStaysBounded(max: int, e: Event, s: State, t: State)
    requires max >= 1 && Bounded(max, s) && Step(max, e, s, t)
    ensures Bounded(max, t)
  {
    match e
    case FireJob(id, at) =>
      PutRun(max, s.runs, id, RunRow(1, Enqueued, at));
    case ClaimRetry(id) =>
      assert InBounds(max, s.runs[id].attempt);
    case Deliver(p) =>
      PutPayload(max, s.working, p);
    case ResumeRun(id) =>
      PutPayload(max, s.working, Payload(id, s.runs[id].attempt, max));
    case InsertRetry(p, id, at) =>
      TakePayload(max, s.retrying, p);
      PutRun(max, s.runs, id, RunRow(p.attempt + 1, Enqueued, at));
    case FinishOk(p) =>
      TakePayload(max, s.working, p);
      PutRun(max, s.runs, p.runId, s.runs[p.runId].(status := Succeeded));
    case PauseRun(p) =>
      TakePayload(max, s.working, p);
      PutRun(max, s.runs, p.runId, s.runs[p.runId].(status := WaitingRun));
    case FinishFailed(p) =>
      TakePayload(max, s.working, p);
      PutRun(max, s.runs, p.runId, s.runs[p.runId].(status := FailedRun));
      if p.attempt < p.maxAttempts { PutPayload(max, s.retrying, p); }
    case Crash =>
  }

  ghost predicate Run(max: int, events: seq<Event>, states: seq<State>) {
    && |states| == |events| + 1 && states[0] == State(map[], {}, multiset{}, multiset{})
    && forall i :: 0 <= i < |events| ==> Step(max, events[i], states[i], states[i + 1])
  }

  /** Over every run with crashes, redeliveries, overlapping executions and stale reclaims, every run row ever
      created has an attempt between 1 and the maximum. */
  lemma {:induction false} RetriesAreBounded(max: int, events: seq<Event>, states: seq<State>, i: nat)
    requires max >= 1 && Run(max, events, states) && i <= |events|
    ensures Bounded(max, states[i])
  {
    if i > 0 {
      RetriesAreBounded(max, events, states, i - 1);
      assert Step(max, events[i - 1], states[i - 1], states[i]);
      StepStaysBounded(max, events[i - 1], states[i - 1], states[i]);
    }
  }

  // ---------------------------------------------------------------- claiming due jobs

  /** A schedule is a next-run function; None when it has no future occurrence or does not parse. */
  datatype Job = Job(enabled: bool, schedule: Option<nat>, nextRunAt: Option<int>)

  type Calendar = (nat, int) -> Option<int>

  /** The next occurrence is strictly after the time it is asked for. */
  ghost predicate StrictlyLater(next: Calendar) {
    forall spec: nat, t: int {:trigger next(spec, t)} :: next(spec, t).Some? ==> next(spec, t).value > t
  }

  predicate Due(job: Job, now: int) { job.enabled && job.nextRunAt.Some? && job.nextRunAt.value <= now }

  function NextFor(next: Calendar, job: Job, now: int): Option<int> {
    match job.schedule { case Some(spec) => next(spec, now) case None => None }
  }

  /** A claimed job: moved on to its next occurrence, or disabled when it has none. */
  function Claimed(next: Calendar, job: Job, now: int): Job {
    match NextFor(next, job, now) { case Some(t) => job.(nextRunAt := Some(t)) case None => job.(enabled := false) }
  }

  datatype ScheduledRun = ScheduledRun(job: nat, scheduledFor: int)

  class JobTable {
    var jobs: map<nat, Job>
    var runs: seq<ScheduledRun>

    constructor (jobs: map<nat, Job>)
      ensures this.jobs == jobs && runs == []
    {
      this.jobs := jobs;
      runs := [];
    }

    /** ClaimDueJobs on the rows the query locked: one run per job that moves on, for the time it was due. */
    method ClaimDueJobs(next: Calendar, now: int, locked: set<nat>) returns (claimed: int)
      requires forall id :: id in locked ==> id in jobs && Due(jobs[id], now)
      modifies this
      ensures claimed == |locked|
      ensures jobs == map id | id in old(jobs) :: if id in locked then Claimed(next, old(jobs)[id], now)
              else old(jobs)[id]
      ensures |runs| >= |old(runs)| && runs[..|old(runs)|] == old(runs)
      ensures forall r :: r in runs[|old(runs)|..] <==>
                r.job in locked && NextFor(next, old(jobs)[r.job], now).Some?
                  && old(jobs)[r.job].nextRunAt == Some(r.scheduledFor)
    {
      claimed := |locked|;
      ghost var before, earlier := jobs, runs;
      var left := locked;
      assert runs[|runs|..] == [];
      while left != {}
        invariant left <= locked
        invariant jobs == map id | id in before :: if id in locked - left then Claimed(next, before[id], now)
                  else before[id]
        invariant |runs| >= |earlier| && runs[..|earlier|] == earlier
        invariant forall r :: r in runs[|earlier|..] <==>
                    r.job in locked - left && NextFor(next, before[r.job], now).Some?
                      && before[r.job].nextRunAt == Some(r.scheduledFor)
        decreases |left|
      {
        var id :| id in left;
        var job := jobs[id];
        var t := if job.schedule.None? then None else next(job.schedule.value, now);
        ghost var known := runs[|earlier|..];
        if t.None? {
          jobs := jobs[id := job.(enabled := false)];
        } else {
          jobs := jobs[id := job.(nextRunAt := t)];
          runs := runs + [ScheduledRun(id, job.nextRunAt.value)];
          assert runs[|earlier|..] == known + [ScheduledRun(id, job.nextRunAt.value)];
        }
        left := left - {id};
      }
      assert locked - {} == locked;
    }
  }

  // ---------------------------------------------------------------- one job over time

  /** One schedule job; `fired` are the scheduled times of its first-attempt runs, in order, and `edits` the clock
      readings of edits under way. */
  datatype JobState = JobState(job: Job, clock: int, fired: seq<int>, edits: map<nat, int>)

  datatype JobEvent =
    | Tick(clock: int)
    | Claim(now: int)
    | EditRead(id: nat)
    | EditWrite(id: nat, schedule: Option<nat>, enabled: bool)

  /** The job an edit writes, from the clock it read; None when its schedule has no next occurrence. */
  function Edited(next: Calendar, schedule: Option<nat>, enabled: bool, read: int): Option<Job> {
    match schedule
    case None => Some(Job(enabled, None, None))
    case Some(spec) => if next(spec, read).None? then None else Some(Job(enabled, schedule, next(spec, read)))
  }

  /** Due again at a time no later than the last that fired. */
  predicate Late(job: Job, fired: seq<int>) {
    job.enabled && job.nextRunAt.Some? && |fired| > 0 && job.nextRunAt.value <= fired[|fired| - 1]
  }

  predicate Fires(next: Calendar, e: JobEvent, s: JobState) { e.Claim? && NextFor(next, s.job, e.now).Some? }

  /** A ticker's `now` may lag behind the clock; an edit reads the clock in one step and writes in another. */
  ghost predicate JobStep(next: Calendar, e: JobEvent, s: JobState, t: JobState) {
    match e
    case Tick(clock) => clock >= s.clock && t == s.(clock := clock)
    case Claim(now) =>
      && now <= s.clock && Due(s.job, now)
      && t == s.(job := Claimed(next, s.job, now),
                 fired := if Fires(next, e, s) then s.fired + [s.job.nextRunAt.value] else s.fired)
    case EditRead(id) => id !in s.edits && t == s.(edits := s.edits[id := s.clock])
    case EditWrite(id, schedule, enabled) =>
      && id in s.edits
      && match Edited(next, schedule, enabled, s.edits[id])
         case None => t == s.(edits := s.edits - {id})
         case Some(job) => t == s.(edits := s.edits - {id}, job := job)
  }

  ghost predicate Increasing(times: seq<int>) { forall i, j :: 0 <= i < j < |times| ==> times[i] < times[j] }

  predicate FiredByNow(s: JobState) { |s.fired| > 0 ==> s.fired[|s.fired| - 1] <= s.clock }

  /** An edit write that finds a next occurrence, or takes the schedule away. */
  predicate Rewrites(next: Calendar, e: JobEvent, s: JobState) {
    e.EditWrite? && e.id in s.edits && Edited(next, e.schedule, e.enabled, s.edits[e.id]).Some?
  }

  /** It makes the job due at a time no later than the last that fired, counted from the clock the edit read. */
  predicate PutsBack(next: Calendar, e: JobEvent, s: JobState) {
    Rewrites(next, e, s) && Late(Edited(next, e.schedule, e.enabled, s.edits[e.id]).value, s.fired)
  }

  lemma JobStepKeeps(next: Calendar, e: JobEvent, s: JobState, t: JobState)
    requires StrictlyLater(next) && FiredByNow(s) && JobStep(next, e, s, t)
    ensures FiredByNow(t)
    ensures Late(t.job, t.fired) <==>
            PutsBack(next, e, s) || (!e.Claim? && !Rewrites(next, e, s) && Late(s.job, s.fired))
    ensures Increasing(t.fired) <==> Increasing(s.fired) && !(Fires(next, e, s) && Late(s.job, s.fired))
  {
    if Fires(next, e, s) {
      var n := |s.fired|;
      assert t.fired[..n] == s.fired;
      if Increasing(t.fired) {
        forall i, j | 0 <= i < j < n ensures s.fired[i] < s.fired[j] { assert t.fired[i] < t.fired[j]; }
        if n > 0 { assert t.fired[n - 1] < t.fired[n]; }
      }
    }
  }

  ghost predicate JobRun(next: Calendar, events: seq<JobEvent>, states: seq<JobState>) {
    && |states| == |events| + 1 && states[0].fired == [] && states[0].edits == map[]
    && forall i :: 0 <= i < |events| ==> JobStep(next, events[i], states[i], states[i + 1])
  }

  /** Event `k` puts the job back, and until `i` no claim takes it and no other edit is written. */
  ghost predicate PutBackSince(next: Calendar, events: seq<JobEvent>, states: seq<JobState>, k: nat, i: nat)
    requires |states| == |events| + 1 && k < i <= |events|
  {
    && PutsBack(next, events[k], states[k])
    && forall j :: k < j < i ==> !events[j].Claim? && !Rewrites(next, events[j], states[j])
  }

  lemma {:induction false} LateSince(next: Calendar, events: seq<JobEvent>, states: seq<JobState>, i: nat)
    requires StrictlyLater(next) && JobRun(next, events, states) && i <= |events|
    ensures FiredByNow(states[i])
    ensures Late(states[i].job, states[i].fired) <==>
            exists k: nat :: k < i && PutBackSince(next, events, states, k, i)
  {
    hide JobStep, PutsBack, Rewrites, Late, Increasing, Fires;
    if i == 0 {
      NothingFired(states[0]);
    } else {
      LateSince(next, events, states, i - 1);
      assert JobStep(next, events[i - 1], states[i - 1], states[i - 1 + 1]);
      JobStepKeeps(next, events[i - 1], states[i - 1], states[i]);
      var last: nat := i - 1;
      if k: nat :| k < last && PutBackSince(next, events, states, k, last) {
        if !events[i - 1].Claim? && !Rewrites(next, events[i - 1], states[i - 1]) {
          assert PutBackSince(next, events, states, k, i);
        }
      }
      if PutsBack(next, events[i - 1], states[i - 1]) { assert PutBackSince(next, events, states, i - 1, i); }
      if k: nat :| k < i && PutBackSince(next, events, states, k, i) {
        if k < i - 1 { assert PutBackSince(next, events, states, k, i - 1); }
      }
    }
  }

  /** Event `k` is an edit that puts the job back, and event `m` the claim that fires it there. */
  ghost predicate FiresAgain(next: Calendar, events: seq<JobEvent>, states: seq<JobState>, k: nat, m: nat)
    requires |states| == |events| + 1 && k < m < |events|
  {
    PutBackSince(next, events, states, k, m) && Fires(next, events[m], states[m])
  }

  /** Over every run with concurrent tickers and edits and a clock that does not go back, the scheduled times of a job's
      first-attempt runs strictly increase if and only if no edit computes, from the clock it read, a time no later than
      the last that fired and a claim fires the job before another edit is written. */
  lemma {:induction false} FiresOnceExactly(next: Calendar, events: seq<JobEvent>, states: seq<JobState>, i: nat)
    requires StrictlyLater(next) && JobRun(next, events, states) && i <= |events|
    ensures FiredByNow(states[i])
    ensures Increasing(states[i].fired) <==>
            forall k: nat, m: nat :: k < m < i ==> !FiresAgain(next, events, states, k, m)
  {
    hide JobStep, Increasing, Fires, PutBackSince, Late;
    LateSince(next, events, states, i);
    if i > 0 {
      FiresOnceExactly(next, events, states, i - 1);
      LateSince(next, events, states, i - 1);
      assert JobStep(next, events[i - 1], states[i - 1], states[i - 1 + 1]);
      JobStepKeeps(next, events[i - 1], states[i - 1], states[i]);
      var last: nat := i - 1;
      if k: nat :| k < last && PutBackSince(next, events, states, k, last) {
        assert FiresAgain(next, events, states, k, i - 1) <==> Fires(next, events[i - 1], states[i - 1]);
      }
    } else {
      NothingFired(states[0]);
    }
  }

  lemma NothingFired(s: JobState)
    requires s.fired == []
    ensures Increasing(s.fired) && FiredByNow(s) && !Late(s.job, s.fired)
  {
  }

  /** No edit's job has fired at a time after the clock that edit read: in particular no claim fires in between. */
  ghost predicate EditsAreTimely(events: seq<JobEvent>, states: seq<JobState>)
    requires |states| == |events| + 1
  {
    forall k :: 0 <= k < |events| && events[k].EditWrite? && events[k].id in states[k].edits ==>
      |states[k].fired| > 0 ==> states[k].fired[|states[k].fired| - 1] <= states[k].edits[events[k].id]
  }

  /** With timely edits no occurrence fires twice. */
  lemma NoOccurrenceFiresTwice(next: Calendar, events: seq<JobEvent>, states: seq<JobState>, i: nat)
    requires StrictlyLater(next) && JobRun(next, events, states) && EditsAreTimely(events, states) && i <= |events|
    ensures Increasing(states[i].fired)
  {
    hide JobStep, Fires, Increasing;
    FiresOnceExactly(next, events, states, i);
    forall k: nat, m: nat | k < m < i ensures !FiresAgain(next, events, states, k, m) {
      assert events[k].EditWrite? && events[k].id in states[k].edits ==> !PutsBack(next, events[k], states[k]);
    }
  }

  /** An edit is timely when nothing fires between its read and its write. */
  lemma QuietEditIsTimely(next: Calendar, events: seq<JobEvent>, states: seq<JobState>, r: nat, w: nat)
    requires StrictlyLater(next) && JobRun(next, events, states) && r < w < |events|
    requires events[r].EditRead? && events[w].EditWrite? && events[w].id == events[r].id
    requires events[w].id in states[w].edits && states[w].edits[events[w].id] == states[r].clock
    requires states[w].fired == states[r].fired && |states[w].fired| > 0
    ensures states[w].fired[|states[w].fired| - 1] <= states[w].edits[events[w].id]
  {
    hide JobStep;
    FiresOnceExactly(next, events, states, r);
  }

  /** A run in which an edit reads the clock before a claim and writes after it: the claim's time fires again. */
  lemma SplitEditFiresTwice(next: Calendar, spec: nat, start: int)
      returns (events: seq<JobEvent>, states: seq<JobState>)
    requires StrictlyLater(next) && next(spec, start).Some? && next(spec, next(spec, start).value).Some?
    ensures JobRun(next, events, states)
    ensures states[|events|].fired == [next(spec, start).value, next(spec, start).value]
  {
    var due := next(spec, start).value;
    var later := next(spec, due);
    var s0 := JobState(Job(true, Some(spec), Some(due)), start, [], map[]);
    var s1 := s0.(edits := map[0 := start]);
    var s2 := s1.(clock := due);
    var s3 := s2.(job := Job(true, Some(spec), later), fired := [due]);
    var s4 := s3.(edits := map[], job := Job(true, Some(spec), Some(due)));
    var s5 := s4.(job := Job(true, Some(spec), later), fired := [due, due]);
    events := [EditRead(0), Tick(due), Claim(due), EditWrite(0, Some(spec), true), Claim(due)];
    states := [s0, s1, s2, s3, s4, s5];
    assert map[0 := start] - {0} == map[];
    assert JobStep(next, events[0], s0, s1);
    assert JobStep(next, events[1], s1, s2);
    assert JobStep(next, events[2], s2, s3);
    assert JobStep(next, events[3], s3, s4);
    assert JobStep(next, events[4], s4, s5);
  }
}
