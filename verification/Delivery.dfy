/**
 The outbox delivery protocol as a step system: any number of workers, each with its
 in-flight batch, over one `notification_jobs` table and one non-decreasing clock.

 One step is one committed statement or one local action. Crashes, reaps, any send
 outcome, and writes that commit although the worker sees an error may happen anywhere.
 */
module Delivery {
  import opened Basics
  import opened Outbox

  // The worker settings the protocol depends on; any integers.
  datatype Config = Config(maxAttempts: int, backoffBase: int, reaperIdle: int)

  const FINALIZE_MAX_ATTEMPTS := 3

  // What one pass through recipient lookup, rendering and `Mailer.send` ends with.
  datatype Outcome = Accepted | Permanent(error: string) | Transient(error: string)

  // `tries` counts the finalizer transactions that have reported an error so far.
  datatype TaskPhase = Queued | Sent(outcome: Outcome, tries: nat) | Done

  // `attempts` is the attempt number carried by the claimed job.
  datatype Task = Task(attempts: nat, phase: TaskPhase)

  // A failing worker claims nothing more, but what it already started may still act.
  datatype Mode = Running | Failing | Dead

  datatype Worker = Worker(
    mode: Mode,
    batch: map<JobId, Task>,
    lastCommit: int,      // statement time of the last committed renewal
    lastSuccess: int,     // clock reading after the last renewal seen to succeed
    renewed: bool,        // a renewal committed and its report is outstanding
    leaseLost: bool)

  // How a claim ended, for the history kept beside the table.
  datatype End = Open | ByCompleted | ByFailed | ByRetry | ByReap

  datatype ClaimRec = ClaimRec(owner: WorkerId, sends: nat, end: End)

  // `log[j]` holds one record per claim of job `j`, oldest first.
  datatype State = State(
    now: int,
    rows: Table,
    workers: map<WorkerId, Worker>,
    log: map<JobId, seq<ClaimRec>>)

  datatype Step =
    | Tick(to: int)
    | Insert(j: JobId, due: int)
    | Start(w: WorkerId)
    | Claim(w: WorkerId, sel: set<JobId>)
    | ClaimUnreported(w: WorkerId, sel: set<JobId>)
    | Send(w: WorkerId, j: JobId, outcome: Outcome)
    | TryFinalize(w: WorkerId, j: JobId, committed: bool, reported: bool)
    | BatchDone(w: WorkerId)
    | Reap(sel: set<JobId>)
    | Renew(w: WorkerId)
    | RenewReport(w: WorkerId, ok: bool)
    | Fail(w: WorkerId)
    | Exit(w: WorkerId)

  // ---------------------------------------------------------------- decisions

  // The per-job decision matrix of `_process_one`.
  function FinalizerFor(c: Config, outcome: Outcome, attempts: nat): Finalizer
    requires attempts >= 1
  {
    match outcome
    case Accepted => MarkCompleted
    case Permanent(error) => MarkFailed(error)
    case Transient(error) =>
      if attempts >= c.maxAttempts then MarkFailed(error)
      else MarkRetry(error, BackoffDelay(attempts, c.backoffBase))
  }

  function EndOf(f: Finalizer): End {
    match f
    case MarkCompleted => ByCompleted
    case MarkRetry(_, _) => ByRetry
    case MarkFailed(_) => ByFailed
  }

  // ---------------------------------------------------------------- steps

  predicate Live(s: State, w: WorkerId) {
    w in s.workers && s.workers[w].mode != Dead
  }

  // `_drain` claims only between batches, once every task of the previous one is over.
  predicate MayClaim(s: State, w: WorkerId, sel: set<JobId>) {
    && w in s.workers && s.workers[w].mode == Running && s.workers[w].batch == map[]
    && sel <= Due(s.rows, s.now)
  }

  predicate Enabled(c: Config, s: State, e: Step) {
    match e
    case Tick(to) => s.now <= to
    case Insert(j, due) => j !in s.rows && due <= s.now
    case Start(w) => w !in s.workers
    case Claim(w, sel) => MayClaim(s, w, sel)
    case ClaimUnreported(w, sel) => MayClaim(s, w, sel)
    case Send(w, j, _) => Live(s, w) && j in s.workers[w].batch && s.workers[w].batch[j].phase == Queued
    case TryFinalize(w, j, committed, reported) =>
      && Live(s, w) && j in s.workers[w].batch && s.workers[w].batch[j].phase.Sent?
      && s.workers[w].batch[j].attempts >= 1
      && s.workers[w].batch[j].phase.tries < FINALIZE_MAX_ATTEMPTS
      && (reported ==> committed)
    case BatchDone(w) =>
      && w in s.workers && s.workers[w].mode == Running
      && forall j :: j in s.workers[w].batch ==> s.workers[w].batch[j].phase == Done
    case Reap(sel) => sel <= Stale(s.rows, s.now, c.reaperIdle)
    case Renew(w) => Live(s, w) && !s.workers[w].leaseLost
    case RenewReport(w, ok) => Live(s, w) && !s.workers[w].leaseLost && (ok ==> s.workers[w].renewed)
    case Fail(w) => w in s.workers && s.workers[w].mode == Running
    case Exit(w) => Live(s, w)
  }

  function LogOf(s: State, j: JobId): seq<ClaimRec> {
    if j in s.log then s.log[j] else []
  }

  // A claim opens a record for every selected row.
  function LogClaims(s: State, w: WorkerId, sel: set<JobId>): map<JobId, seq<ClaimRec>> {
    map j | j in s.log :: if j in sel then s.log[j] + [ClaimRec(w, 0, Open)] else s.log[j]
  }

  // Ending a claim always concerns the claim the row is under, the latest one.
  function EndLast(L: seq<ClaimRec>, end: End): seq<ClaimRec> {
    if L == [] then L else L[|L| - 1 := L[|L| - 1].(end := end)]
  }

  function LogReaps(s: State, sel: set<JobId>): map<JobId, seq<ClaimRec>> {
    map j | j in s.log :: if j in sel then EndLast(s.log[j], ByReap) else s.log[j]
  }

  // An accepted send is recorded under the claim its task was created for.
  function LogSend(L: seq<ClaimRec>, attempts: nat, outcome: Outcome): seq<ClaimRec> {
    if outcome == Accepted && 1 <= attempts <= |L|
    then L[attempts - 1 := L[attempts - 1].(sends := L[attempts - 1].sends + 1)]
    else L
  }

  function ClaimState(s: State, w: WorkerId, sel: set<JobId>): State
    requires MayClaim(s, w, sel)
  {
    s.(rows := ClaimRows(s.rows, sel, w, s.now), log := LogClaims(s, w, sel))
  }

  function SetWorker(s: State, w: WorkerId, k: Worker): State {
    s.(workers := s.workers[w := k])
  }

  function NewBatch(rows: Table, sel: set<JobId>): map<JobId, Task> {
    map j | j in sel && j in rows :: Task(rows[j].attempts + 1, Queued)
  }

  function TaskAfterTry(t: Task, reported: bool): Task
    requires t.phase.Sent?
  {
    t.(phase := if reported then Done else t.phase.(tries := t.phase.tries + 1))
  }

  // Out of tries, the error leaves the consumer.
  function ModeAfterTry(mode: Mode, t: Task, reported: bool): Mode
    requires t.phase.Sent?
  {
    if !reported && mode == Running && t.phase.tries + 1 == FINALIZE_MAX_ATTEMPTS then Failing else mode
  }

  function TryFinalizeState(c: Config, s: State, w: WorkerId, j: JobId, committed: bool, reported: bool): State
    requires Enabled(c, s, TryFinalize(w, j, committed, reported))
  {
    var k := s.workers[w];
    var t := k.batch[j];
    var f := FinalizerFor(c, t.phase.outcome, t.attempts);
    var wrote := committed && Fence(s.rows, j, w);
    s.(rows := if wrote then FinalizeRows(s.rows, j, w, f, s.now) else s.rows,
       log := if wrote && j in s.log then s.log[j := EndLast(s.log[j], EndOf(f))] else s.log,
       workers := s.workers[w := k.(batch := k.batch[j := TaskAfterTry(t, reported)], mode := ModeAfterTry(k.mode, t, reported))])
  }

  function Apply(c: Config, s: State, e: Step): State
    requires Enabled(c, s, e)
  {
    match e
    case Tick(to) => s.(now := to)
    case Insert(j, due) => s.(rows := s.rows[j := Row(Pending, None, 0, due, 0, None)], log := s.log[j := []])
    case Start(w) => SetWorker(s, w, Worker(Running, map[], s.now, s.now, false, false))
    case Claim(w, sel) =>
      SetWorker(ClaimState(s, w, sel), w, s.workers[w].(batch := NewBatch(s.rows, sel)))
    case ClaimUnreported(w, sel) =>
      SetWorker(ClaimState(s, w, sel), w, s.workers[w].(mode := Failing))
    case Send(w, j, outcome) =>
      var k := s.workers[w];
      SetWorker(s.(log := s.log[j := LogSend(LogOf(s, j), k.batch[j].attempts, outcome)]),
                w, k.(batch := k.batch[j := k.batch[j].(phase := Sent(outcome, 0))]))
    case TryFinalize(w, j, committed, reported) => TryFinalizeState(c, s, w, j, committed, reported)
    case BatchDone(w) => SetWorker(s, w, s.workers[w].(batch := map[]))
    case Reap(sel) => s.(rows := ReapRows(s.rows, sel), log := LogReaps(s, sel))
    case Renew(w) =>
      SetWorker(s.(rows := RenewRows(s.rows, w, s.now)), w, s.workers[w].(lastCommit := s.now, renewed := true))
    case RenewReport(w, ok) =>
      var k := s.workers[w];
      SetWorker(s, w, if ok then k.(lastSuccess := s.now, renewed := false)
                      else k.(renewed := false, leaseLost := s.now - k.lastSuccess > c.reaperIdle))
    case Fail(w) => SetWorker(s, w, s.workers[w].(mode := Failing))
    case Exit(w) => SetWorker(s, w, s.workers[w].(mode := Dead))
  }

  // ---------------------------------------------------------------- runs

  // No worker has started yet and every row is untouched.
  predicate Initial(s: State) {
    && s.workers == map[] && s.log.Keys == s.rows.Keys
    && forall j :: j in s.rows ==> s.log[j] == [] && s.rows[j].status == Pending && s.rows[j].lockedBy == None && s.rows[j].attempts == 0
  }

  ghost predicate IsRun(c: Config, ss: seq<State>, es: seq<Step>) {
    && |ss| == |es| + 1
    && Initial(ss[0])
    && forall i :: 0 <= i < |es| ==> StepAt(c, ss, es, i)
  }

  ghost predicate StepAt(c: Config, ss: seq<State>, es: seq<Step>, i: nat)
    requires |ss| == |es| + 1 && i < |es|
  {
    Enabled(c, ss[i], es[i]) && ss[i + 1] == Apply(c, ss[i], es[i])
  }

  // Taking steps one after the other; None once a step is not enabled.
  function Replay(c: Config, s: State, es: seq<Step>): Option<State> {
    if es == [] then Some(s)
    else
      var before := Replay(c, s, es[..|es| - 1]);
      if before.Some? && Enabled(c, before.value, es[|es| - 1])
      then Some(Apply(c, before.value, es[|es| - 1]))
      else None
  }

  lemma ReplayOneMore(c: Config, s: State, es: seq<Step>, e: Step)
    requires Replay(c, s, es).Some? && Enabled(c, Replay(c, s, es).value, e)
    ensures Replay(c, s, es + [e]) == Some(Apply(c, Replay(c, s, es).value, e))
  {
    assert (es + [e])[..|es|] == es;
  }

  lemma {:induction false} ReplayConcat(c: Config, s: State, es: seq<Step>, fs: seq<Step>)
    requires Replay(c, s, es).Some?
    ensures Replay(c, s, es + fs) == Replay(c, Replay(c, s, es).value, fs)
  {
    if fs == [] {
      assert es + fs == es;
    } else {
      ReplayConcat(c, s, es, fs[..|fs| - 1]);
      assert (es + fs)[..|es + fs| - 1] == es + fs[..|fs| - 1];
    }
  }

  // Steps that replay from the last state of a run prolong the run.
  lemma {:induction false} ReplayProlongsRun(c: Config, ss: seq<State>, es: seq<Step>, fs: seq<Step>) returns (tt: seq<State>)
    requires IsRun(c, ss, es) && Replay(c, ss[|es|], fs).Some?
    ensures IsRun(c, tt, es + fs) && ss <= tt && tt[|es + fs|] == Replay(c, ss[|es|], fs).value
  {
    if fs == [] {
      tt := ss;
      assert es + fs == es;
    } else {
      var n := |fs| - 1;
      var before := ReplayProlongsRun(c, ss, es, fs[..n]);
      tt := before + [Replay(c, ss[|es|], fs).value];
      var all := es + fs;
      assert all[..|all| - 1] == es + fs[..n];
      forall i | 0 <= i < |all| ensures StepAt(c, tt, all, i) {
        if i < |all| - 1 { assert StepAt(c, before, es + fs[..n], i); }
      }
    }
  }
}
