/**
 `hefest/worker/consumer.py`: draining the outbox with one worker.

 The methods work on the job table step by step as the code does. Clock readings, send
 outcomes, database faults, lease renewals by the heartbeat task, the order in which the tasks
 of a batch go on, and the stop signal are arbitrary. Every database action is shown to be one
 step of the delivery protocol, so a drain prolongs a run of that protocol; the protocol's rule
 that a worker claims only between batches is what the loop provides.
 */
module Consumer {
  import opened Basics
  import opened Outbox
  import opened Delivery
  import opened DeliveryInvariant
  import opened DeliveryTheorems

  // ---------------------------------------------------------------- bounds on a drain

  // The attempt number a job cannot exceed within one drain that finds it at `attempts`.
  function CapOf(c: Config, attempts: nat): nat {
    if c.maxAttempts > attempts + 1 then c.maxAttempts else attempts + 1
  }

  // Claims a drain may still spend, as pairs of job and attempt number.
  ghost function Remaining(c: Config, start: Table, rows: Table): set<(JobId, nat)>
    requires rows.Keys == start.Keys
  {
    set j, k | j in rows && rows[j].status !in {Completed, Failed} && rows[j].attempts <= k < CapOf(c, start[j].attempts) :: (j, k)
  }

  // Row by row, what a drain that began at `start` has kept so far.
  ghost predicate Within(c: Config, start: Table, rows: Table) {
    && rows.Keys == start.Keys
    && forall j :: j in rows ==>
         && start[j].attempts <= rows[j].attempts <= CapOf(c, start[j].attempts)
         && (rows[j].status == Pending ==> rows[j].attempts < CapOf(c, start[j].attempts))
  }

  // The same row, renewed at most.
  predicate SameLease(r: Row, r': Row) {
    r' == r.(heartbeatAt := r'.heartbeatAt)
  }

  // A row claimed at `since` afterwards: still as claimed, or finalized under that claim.
  predicate Settling(c: Config, since: int, r: Row, r': Row) {
    || SameLease(r, r')
    || (r'.attempts == r.attempts &&
        (r'.status in {Completed, Failed} ||
         (r'.status == Pending && r.attempts < c.maxAttempts && r'.nextAttemptAt > since)))
  }

  // Committing the finalizer of a claimed row settles it, and repeating it changes nothing more.
  lemma FinalizeSettles(c: Config, since: int, r: Row, rows: Table, j: JobId, w: WorkerId, o: Outcome, now: int)
    requires j in rows && Settling(c, since, r, rows[j]) && since <= now && c.backoffBase > 0
    requires r.status == Processing && r.lockedBy == Some(w) && r.attempts >= 1
    ensures var rows' := FinalizeRows(rows, j, w, FinalizerFor(c, o, r.attempts), now);
            && rows' == rows[j := rows'[j]]
            && Settling(c, since, r, rows'[j]) && rows'[j].status != Processing
  {
  }

  ghost function InProcess(rows: Table): set<JobId> {
    set j | j in rows && rows[j].status == Processing
  }

  // Rows a reaper has returned, and nothing else, differ.
  ghost predicate OnlyReaped(start: Table, rows: Table) {
    && rows.Keys == start.Keys
    && forall j :: j in rows ==> rows[j] == start[j] || (start[j].status == Processing && rows[j] == ReapRow(start[j]))
  }

  lemma ReapShrinks(start: Table, rows: Table, sel: set<JobId>)
    requires OnlyReaped(start, rows) && sel <= InProcess(rows)
    ensures OnlyReaped(start, ReapRows(rows, sel))
    ensures sel != {} ==> InProcess(ReapRows(rows, sel)) < InProcess(rows)
  {
    assert InProcess(ReapRows(rows, sel)) == InProcess(rows) - sel;
    if sel != {} {
      var j :| j in sel;
      assert j in InProcess(rows);
    }
  }

  // After a batch, settled or broken off: every claimed row settles, the others are untouched.
  ghost predicate BatchResult(c: Config, since: int, claimed: Table, rows: Table, ids: set<JobId>) {
    && rows.Keys == claimed.Keys && ids <= claimed.Keys
    && (forall j :: j in claimed && j !in ids ==> rows[j] == claimed[j])
    && (forall j :: j in ids ==> Settling(c, since, claimed[j], rows[j]))
  }

  // Everything pending is due only after `at`.
  ghost predicate NothingDue(rows: Table, at: int) {
    forall j :: j in rows && rows[j].status == Pending ==> rows[j].nextAttemptAt > at
  }

  // A short claim takes everything due, so what is pending after its batch is due later.
  lemma ShortClaimDrains(c: Config, rows: Table, sel: set<JobId>, limit: nat, w: WorkerId, now: int, rows': Table)
    requires ClaimSelection(rows, now, limit, sel) && |sel| < limit
    requires BatchResult(c, now, ClaimRows(rows, sel, w, now), rows', sel)
    ensures NothingDue(rows', now)
  {
    forall j | j in rows' && rows'[j].status == Pending ensures rows'[j].nextAttemptAt > now {
      if j !in sel {
        assert j !in Due(rows, now);
      }
    }
  }

  lemma ClaimsShrink(c: Config, start: Table, rows: Table, sel: set<JobId>, w: WorkerId, now: int, rows': Table)
    requires Within(c, start, rows) && sel <= Due(rows, now) && sel != {}
    requires BatchResult(c, now, ClaimRows(rows, sel, w, now), rows', sel)
    ensures Within(c, start, rows')
    ensures Remaining(c, start, rows') < Remaining(c, start, rows)
  {
    forall j, k | (j, k) in Remaining(c, start, rows') ensures (j, k) in Remaining(c, start, rows) {
    }
    var j :| j in sel;
    assert (j, rows[j].attempts) in Remaining(c, start, rows);
    assert (j, rows[j].attempts) !in Remaining(c, start, rows');
  }

  // No job is claimed in `es` more than max(1, maxAttempts - attempts at the start) times.
  ghost predicate ClaimBounds(c: Config, start: Table, es: seq<Step>) {
    forall j :: j in start ==>
      ClaimsOf(es, j) <= if c.maxAttempts - start[j].attempts > 1 then c.maxAttempts - start[j].attempts else 1
  }

  lemma AttemptsStep(c: Config, s: State, e: Step, j: JobId)
    requires Enabled(c, s, e) && j in s.rows
    ensures j in Apply(c, s, e).rows
    ensures Apply(c, s, e).rows[j].attempts == s.rows[j].attempts + if ClaimsJob(e, j) then 1 else 0
  {
  }

  // Attempts move with the claim steps and with nothing else.
  lemma {:induction false} AttemptsCountClaims(c: Config, run: Run, m: nat, n: nat, j: JobId)
    requires IsRun(c, run.states, run.steps) && m <= n < |run.states| && j in run.states[m].rows
    ensures j in run.states[n].rows
    ensures run.states[n].rows[j].attempts == run.states[m].rows[j].attempts + ClaimsOf(run.steps[m..n], j)
    decreases n
  {
    if m < n {
      AttemptsCountClaims(c, run, m, n - 1, j);
      assert StepAt(c, run.states, run.steps, n - 1);
      AttemptsStep(c, run.states[n - 1], run.steps[n - 1], j);
      assert run.steps[m..n][..n - m - 1] == run.steps[m..n - 1];
    }
  }

  // That is what being within the caps amounts to.
  lemma WithinBounds(c: Config, run: Run, m: nat)
    requires IsRun(c, run.states, run.steps) && m <= |run.steps|
    requires Within(c, run.states[m].rows, run.states[|run.steps|].rows)
    ensures ClaimBounds(c, run.states[m].rows, run.steps[m..])
  {
    var start, es := run.states[m].rows, run.steps[m..];
    assert es == run.steps[m..|run.steps|];
    forall j | j in start
      ensures ClaimsOf(es, j) <= if c.maxAttempts - start[j].attempts > 1 then c.maxAttempts - start[j].attempts else 1
    {
      AttemptsCountClaims(c, run, m, |run.steps|, j);
    }
  }

  // What is still leased was leased before, and its heartbeat is not older than `since`.
  ghost predicate OnlyFreshLeases(start: Table, rows: Table, since: int) {
    rows.Keys == start.Keys &&
    forall j :: j in rows && rows[j].status == Processing ==> rows[j] == start[j] && rows[j].heartbeatAt >= since
  }

  lemma FreshAfterReap(start: Table, rows: Table, now: int, idle: int, since: int)
    requires OnlyReaped(start, rows) && Stale(rows, now, idle) == {} && since <= now - idle
    ensures OnlyFreshLeases(start, rows, since)
  {
    forall j | j in rows && rows[j].status == Processing ensures rows[j].heartbeatAt >= since {
      assert j !in Stale(rows, now, idle);
    }
  }

  lemma LeasesKept(c: Config, start: Table, rows: Table, sel: set<JobId>, w: WorkerId, at: int, rows': Table, since: int)
    requires OnlyFreshLeases(start, rows, since)
    requires BatchResult(c, at, ClaimRows(rows, sel, w, at), rows', sel) && Released(rows', sel)
    ensures OnlyFreshLeases(start, rows', since)
  {
  }

  lemma NothingClaimed(c: Config, rows: Table, w: WorkerId, now: int, rows': Table)
    requires BatchResult(c, now, ClaimRows(rows, {}, w, now), rows', {})
    ensures rows' == rows
  {
  }

  lemma WithinStart(c: Config, start: Table, rows: Table)
    requires OnlyReaped(start, rows)
    ensures Within(c, start, rows)
  {
  }

  // ---------------------------------------------------------------- renewals in between

  // Renewals by worker `w` have touched the heartbeats of rows it holds, and nothing else.
  ghost predicate Beaten(w: WorkerId, rows: Table, rows': Table) {
    && rows'.Keys == rows.Keys
    && forall j :: j in rows ==> rows'[j] == rows[j] || (Fence(rows, j, w) && SameLease(rows[j], rows'[j]))
  }

  lemma BeatenMore(w: WorkerId, a: Table, b: Table, d: Table)
    requires Beaten(w, a, b) && Beaten(w, b, d)
    ensures Beaten(w, a, d)
  {
  }

  ghost predicate NoneHeld(rows: Table, w: WorkerId) {
    forall j :: j in rows ==> !Fence(rows, j, w)
  }

  // ---------------------------------------------------------------- a batch on its way

  // One task and its row, which was `r` when it was claimed.
  predicate TaskRow(c: Config, since: int, w: WorkerId, r: Row, r': Row, t: Task) {
    && r.status == Processing && r.lockedBy == Some(w) && t.attempts == r.attempts >= 1
    && match t.phase
       case Queued => SameLease(r, r')
       case Sent(_, tries) => Settling(c, since, r, r') && tries < FINALIZE_MAX_ATTEMPTS
       case Done => Settling(c, since, r, r') && r'.status != Processing
  }

  // Every task of the batch is somewhere on its way; rows outside it are as they were.
  ghost predicate Midway(c: Config, since: int, w: WorkerId, claimed: Table, rows: Table, batch: map<JobId, Task>) {
    && rows.Keys == claimed.Keys && batch.Keys <= claimed.Keys
    && (forall j :: j in claimed && j !in batch ==> rows[j] == claimed[j] && !Fence(claimed, j, w))
    && (forall j :: j in batch ==> TaskRow(c, since, w, claimed[j], rows[j], batch[j]))
  }

  lemma MidwayStart(c: Config, rows: Table, sel: set<JobId>, w: WorkerId, now: int)
    requires NoneHeld(rows, w) && sel <= Due(rows, now)
    ensures var claimed := ClaimRows(rows, sel, w, now);
            Midway(c, now, w, claimed, claimed, NewBatch(rows, sel)) && NewBatch(rows, sel).Keys == sel
  {
  }

  lemma MidwayQueued(c: Config, rows: Table, sel: set<JobId>, w: WorkerId, now: int)
    requires NoneHeld(rows, w) && sel <= Due(rows, now)
    ensures var claimed := ClaimRows(rows, sel, w, now);
            && FreshBatch(c, now, w, claimed, NewBatch(rows, sel), sel)
            && BatchResult(c, now, claimed, claimed, sel)
  {
    MidwayStart(c, rows, sel, w, now);
  }

  // A batch just claimed.
  ghost predicate FreshBatch(c: Config, since: int, w: WorkerId, claimed: Table, batch: map<JobId, Task>, ids: set<JobId>) {
    && Midway(c, since, w, claimed, claimed, batch) && batch.Keys == ids
    && forall j :: j in batch ==> batch[j].phase == Queued
  }

  lemma MidwayBeaten(c: Config, since: int, w: WorkerId, claimed: Table, rows: Table, rows': Table, batch: map<JobId, Task>)
    requires Midway(c, since, w, claimed, rows, batch) && Beaten(w, rows, rows')
    ensures Midway(c, since, w, claimed, rows', batch)
  {
  }

  lemma MidwayMove(c: Config, since: int, w: WorkerId, claimed: Table, rows: Table, batch: map<JobId, Task>, j: JobId, r: Row, t: Task)
    requires Midway(c, since, w, claimed, rows, batch) && j in batch
    requires TaskRow(c, since, w, claimed[j], r, t)
    ensures Midway(c, since, w, claimed, rows[j := r], batch[j := t])
  {
  }

  lemma MidwayResult(c: Config, since: int, w: WorkerId, claimed: Table, rows: Table, batch: map<JobId, Task>, j: JobId, r: Row)
    requires Midway(c, since, w, claimed, rows, batch) && j in batch
    requires Settling(c, since, claimed[j], r)
    ensures BatchResult(c, since, claimed, rows[j := r], batch.Keys)
  {
  }

  // No row of `ids` is leased any more.
  ghost predicate Released(rows: Table, ids: set<JobId>) {
    forall j :: j in ids && j in rows ==> rows[j].status != Processing
  }

  lemma MidwayDone(c: Config, since: int, w: WorkerId, claimed: Table, rows: Table, batch: map<JobId, Task>)
    requires Midway(c, since, w, claimed, rows, batch) && forall j :: j in batch ==> batch[j].phase == Done
    ensures BatchResult(c, since, claimed, rows, batch.Keys) && Released(rows, batch.Keys)
  {
  }

  // The steps a task may still take: a send and three tries.
  function StepsLeft(t: Task): nat {
    match t.phase
    case Queued => FINALIZE_MAX_ATTEMPTS + 1
    case Sent(_, tries) => if tries < FINALIZE_MAX_ATTEMPTS then FINALIZE_MAX_ATTEMPTS - tries else 0
    case Done => 0
  }

  ghost function Todo(batch: map<JobId, Task>): set<(JobId, nat)> {
    set j, k | j in batch && 0 <= k < StepsLeft(batch[j]) :: (j, k)
  }

  lemma TodoShrinks(batch: map<JobId, Task>, j: JobId, t: Task)
    requires j in batch && StepsLeft(t) < StepsLeft(batch[j])
    ensures Todo(batch[j := t]) < Todo(batch)
  {
    assert (j, StepsLeft(t)) in Todo(batch) && (j, StepsLeft(t)) !in Todo(batch[j := t]);
  }

  // One try of a finalizer, whether it wrote anything or not and whether it was seen or not.
  lemma MidwayTried(c: Config, since: int, w: WorkerId, claimed: Table, rows: Table, batch: map<JobId, Task>,
                    j: JobId, now: int, committed: bool, reported: bool)
    requires Midway(c, since, w, claimed, rows, batch) && since <= now && c.backoffBase > 0
    requires j in batch && batch[j].phase.Sent? && (reported ==> committed)
    ensures var f := FinalizerFor(c, batch[j].phase.outcome, batch[j].attempts);
            var rows' := if committed then FinalizeRows(rows, j, w, f, now) else rows;
            var t := TaskAfterTry(batch[j], reported);
            && BatchResult(c, since, claimed, rows', batch.Keys) && Todo(batch[j := t]) < Todo(batch)
            && (reported || t.phase.tries < FINALIZE_MAX_ATTEMPTS ==> Midway(c, since, w, claimed, rows', batch[j := t]))
  {
    var f := FinalizerFor(c, batch[j].phase.outcome, batch[j].attempts);
    var rows' := if committed then FinalizeRows(rows, j, w, f, now) else rows;
    var t := TaskAfterTry(batch[j], reported);
    FinalizeSettles(c, since, claimed[j], rows, j, w, batch[j].phase.outcome, now);
    assert rows' == rows[j := rows'[j]];
    MidwayResult(c, since, w, claimed, rows, batch, j, rows'[j]);
    TodoShrinks(batch, j, t);
    if reported || t.phase.tries < FINALIZE_MAX_ATTEMPTS {
      MidwayMove(c, since, w, claimed, rows, batch, j, rows'[j], t);
    }
  }

  // ---------------------------------------------------------------- what the world does

  datatype Fault = NoFault | TransientFault | OtherFault

  // The n-th action that can go wrong does so as `fault(n)` says, or ends with `outcome(n)` if it
  // is a delivery; a stop signal has arrived at the n-th look if `signal(n)`.
  datatype World = World(fault: nat -> Fault, outcome: nat -> Outcome, signal: nat -> bool)

  // Actions that can go wrong; a finalizer has failed `tries` times before.
  datatype Act = Reaping | Claiming | Delivering | Finalizing(tries: nat)

  // What the consumer does not survive: any fault, except a transient one while the finalizer
  // has a try left.
  predicate Fatal(a: Act, f: Fault) {
    match a
    case Finalizing(tries) => f == OtherFault || (f == TransientFault && tries + 1 >= 3)
    case _ => f != NoFault
  }

  ghost predicate WentWell(world: World, acts: seq<Act>) {
    forall n :: 0 <= n < |acts| ==> !Fatal(acts[n], world.fault(n))
  }

  lemma WentWellMore(world: World, acts: seq<Act>, a: Act)
    ensures WentWell(world, acts + [a]) <==> WentWell(world, acts) && !Fatal(a, world.fault(|acts|))
  {
    var more := acts + [a];
    assert more[|acts|] == a;
    assert forall n :: 0 <= n < |acts| ==> more[n] == acts[n];
  }

  // Something fatal has happened since `was`.
  ghost predicate Struck(world: World, was: seq<Act>, acts: seq<Act>) {
    exists n :: |was| <= n < |acts| && Fatal(acts[n], world.fault(n))
  }

  lemma StruckIff(world: World, was: seq<Act>, acts: seq<Act>)
    requires was <= acts && WentWell(world, was)
    ensures Struck(world, was, acts) <==> !WentWell(world, acts)
  {
    assert forall n :: 0 <= n < |was| ==> was[n] == acts[n];
  }

  ghost predicate Signalled(world: World, looks: nat) {
    exists n :: 0 <= n < looks && world.signal(n)
  }

  lemma SignalledMore(world: World, looks: nat)
    ensures Signalled(world, looks + 1) <==> Signalled(world, looks) || world.signal(looks)
  {
    if world.signal(looks) { assert Signalled(world, looks + 1); }
    if n :| 0 <= n < looks && world.signal(n) { assert n < looks + 1; }
  }

  // ---------------------------------------------------------------- what a run shows

  // The states and steps of a run so far, and the actions that could go wrong.
  datatype Run = Run(states: seq<State>, steps: seq<Step>, acts: seq<Act>)

  predicate ClaimStep(e: Step) { e.Claim? || e.ClaimUnreported? }

  ghost predicate Prolongs(was: Run, run: Run) {
    was.states <= run.states && was.steps <= run.steps && was.acts <= run.acts
  }

  // `run` continues `was` without a claim.
  ghost predicate Unclaimed(was: Run, run: Run) {
    Prolongs(was, run) && forall m :: |was.steps| <= m < |run.steps| ==> !ClaimStep(run.steps[m])
  }

  // Nor with the end of a batch.
  ghost predicate Quiet(was: Run, run: Run) {
    Prolongs(was, run) && forall m :: |was.steps| <= m < |run.steps| ==> !ClaimStep(run.steps[m]) && !run.steps[m].BatchDone?
  }

  // The last claim from step `from` on is one at time `at`.
  ghost predicate LastClaimAt(run: Run, from: nat, at: int) {
    exists k :: from <= k < |run.steps| && k < |run.states| && run.steps[k].Claim? && run.states[k].now == at && NoClaimAfter(run.steps, k)
  }

  ghost predicate NoClaimAfter(es: seq<Step>, k: int) {
    forall m :: 0 <= m < |es| && k < m ==> !ClaimStep(es[m])
  }

  lemma ClaimIsLast(was: Run, run: Run, at: int)
    requires Prolongs(was, run) && |was.states| == |was.steps| + 1 && was.states[|was.steps|].now == at
    requires |run.steps| == |was.steps| + 1 && run.steps[|was.steps|].Claim?
    ensures LastClaimAt(run, |was.steps|, at)
  {
    assert NoClaimAfter(run.steps, |was.steps|);
  }

  lemma LastClaimKept(was: Run, run: Run, from: nat, at: int)
    requires LastClaimAt(was, from, at) && Unclaimed(was, run)
    ensures LastClaimAt(run, from, at)
  {
    var k :| from <= k < |was.steps| && k < |was.states| && was.steps[k].Claim? && was.states[k].now == at && NoClaimAfter(was.steps, k);
    assert run.steps[k] == was.steps[k] && run.states[k] == was.states[k];
    forall m | 0 <= m < |run.steps| && k < m ensures !ClaimStep(run.steps[m]) {
      if m < |was.steps| { assert run.steps[m] == was.steps[m]; }
    }
    assert NoClaimAfter(run.steps, k);
  }

  lemma LastClaimFrom(run: Run, from: nat, later: nat, at: int)
    requires LastClaimAt(run, later, at) && from <= later
    ensures LastClaimAt(run, from, at)
  {
    var k :| later <= k < |run.steps| && k < |run.states| && run.steps[k].Claim? && run.states[k].now == at && NoClaimAfter(run.steps, k);
  }

  lemma OneMoreStep(c: Config, run: Run, e: Step)
    requires IsRun(c, run.states, run.steps) && Enabled(c, run.states[|run.steps|], e)
    ensures IsRun(c, run.states + [Apply(c, run.states[|run.steps|], e)], run.steps + [e])
  {
    var ss, es := run.states + [Apply(c, run.states[|run.steps|], e)], run.steps + [e];
    forall i | 0 <= i < |es| ensures StepAt(c, ss, es, i) {
      if i < |run.steps| { assert StepAt(c, run.states, run.steps, i); }
    }
  }

  function SendStepsOf(es: seq<Step>, w: WorkerId, j: JobId): nat {
    if es == [] then 0
    else SendStepsOf(es[..|es| - 1], w, j) + if es[|es| - 1].Send? && es[|es| - 1].w == w && es[|es| - 1].j == j then 1 else 0
  }

  function TriesOf(es: seq<Step>, w: WorkerId, j: JobId): nat {
    if es == [] then 0
    else TriesOf(es[..|es| - 1], w, j) + if es[|es| - 1].TryFinalize? && es[|es| - 1].w == w && es[|es| - 1].j == j then 1 else 0
  }

  // A task sends once and then tries its finalizer at most three times.
  predicate CountsFit(sends: nat, tries: nat, phase: TaskPhase) {
    match phase
    case Queued => sends == 0 && tries == 0
    case Sent(_, n) => sends == 1 && tries == n <= 3
    case Done => sends == 1 && 1 <= tries <= 3
  }

  ghost predicate TaskCounted(s: State, es: seq<Step>, w: WorkerId, j: JobId) {
    && w in s.workers && j in s.workers[w].batch
    && CountsFit(SendStepsOf(es, w, j), TriesOf(es, w, j), s.workers[w].batch[j].phase)
  }

  lemma TaskCountStep(c: Config, s: State, e: Step, w: WorkerId, j: JobId, sends: nat, tries: nat)
    requires Enabled(c, s, e) && !ClaimStep(e) && !e.BatchDone?
    requires w in s.workers && j in s.workers[w].batch && CountsFit(sends, tries, s.workers[w].batch[j].phase)
    ensures var s' := Apply(c, s, e);
            && w in s'.workers && j in s'.workers[w].batch
            && CountsFit(sends + (if e.Send? && e.w == w && e.j == j then 1 else 0),
                         tries + (if e.TryFinalize? && e.w == w && e.j == j then 1 else 0),
                         s'.workers[w].batch[j].phase)
  {
  }

  lemma {:induction false} TaskCounts(c: Config, run: Run, m: nat, n: nat, w: WorkerId, j: JobId)
    requires IsRun(c, run.states, run.steps) && m <= n < |run.states|
    requires w in run.states[m].workers && j in run.states[m].workers[w].batch && run.states[m].workers[w].batch[j].phase == Queued
    requires forall i :: m <= i < n ==> !ClaimStep(run.steps[i]) && !run.steps[i].BatchDone?
    ensures TaskCounted(run.states[n], run.steps[m..n], w, j)
    decreases n
  {
    if m < n {
      TaskCounts(c, run, m, n - 1, w, j);
      assert StepAt(c, run.states, run.steps, n - 1);
      var es := run.steps[m..n - 1];
      assert run.steps[m..n][..n - m - 1] == es;
      TaskCountStep(c, run.states[n - 1], run.steps[n - 1], w, j, SendStepsOf(es, w, j), TriesOf(es, w, j));
    }
  }

  // Each job of a batch is sent at most once and finalized in at most three tries; both happen
  // if the batch goes through.
  ghost predicate EachOnce(es: seq<Step>, w: WorkerId, ids: set<JobId>, ok: bool) {
    forall j :: j in ids ==>
      && SendStepsOf(es, w, j) <= 1 && TriesOf(es, w, j) <= 3
      && (ok ==> SendStepsOf(es, w, j) == 1 && TriesOf(es, w, j) >= 1)
  }

  lemma BatchCounts(c: Config, was: Run, run: Run, w: WorkerId, ids: set<JobId>, ok: bool)
    requires IsRun(c, was.states, was.steps) && IsRun(c, run.states, run.steps) && Quiet(was, run)
    requires var s := was.states[|was.steps|];
             w in s.workers && s.workers[w].batch.Keys == ids && forall j :: j in ids ==> s.workers[w].batch[j].phase == Queued
    requires var s := run.states[|run.steps|];
             ok ==> w in s.workers && forall j :: j in s.workers[w].batch ==> s.workers[w].batch[j].phase == Done
    ensures EachOnce(run.steps[|was.steps|..], w, ids, ok)
  {
    var m, n := |was.steps|, |run.steps|;
    var es := run.steps[m..];
    assert es == run.steps[m..n] && run.states[m] == was.states[m];
    forall j | j in ids
      ensures && SendStepsOf(es, w, j) <= 1 && TriesOf(es, w, j) <= 3
              && (ok ==> SendStepsOf(es, w, j) == 1 && TriesOf(es, w, j) >= 1)
    {
      TaskCounts(c, run, m, n, w, j);
    }
  }

  lemma OnceToTheEnd(es: seq<Step>, w: WorkerId, ids: set<JobId>, e: Step)
    requires EachOnce(es, w, ids, true) && e.BatchDone?
    ensures EachOnce(es + [e], w, ids, true)
  {
    assert (es + [e])[..|es|] == es;
  }

  // ---------------------------------------------------------------- one worker's share of the system

  // The whole system as one worker's local state, the shared rows, and the rest.
  ghost function Compose(now: int, rows: Table, others: map<WorkerId, Worker>, me: WorkerId,
                         self: Worker, mode: Mode, batch: map<JobId, Task>, log: map<JobId, seq<ClaimRec>>): State {
    State(now, rows, others[me := self.(mode := mode, batch := batch)], log)
  }

  lemma ComposeClaim(c: Config, s: State, others: map<WorkerId, Worker>, me: WorkerId, self: Worker, sel: set<JobId>)
    requires s == Compose(s.now, s.rows, others, me, self, Running, map[], s.log)
    requires sel <= Due(s.rows, s.now)
    ensures Enabled(c, s, Claim(me, sel))
    ensures Apply(c, s, Claim(me, sel)) == Compose(s.now, ClaimRows(s.rows, sel, me, s.now), others, me, self, Running, NewBatch(s.rows, sel), LogClaims(s, me, sel))
  {
    assert Apply(c, s, Claim(me, sel)).workers == others[me := self.(mode := Running, batch := NewBatch(s.rows, sel))];
  }

  function TasksOf(jobs: map<JobId, nat>): map<JobId, Task> {
    map j | j in jobs :: Task(jobs[j], Queued)
  }

  lemma TasksAreNew(rows: Table, sel: set<JobId>, w: WorkerId, now: int, jobs: map<JobId, nat>)
    requires jobs.Keys == sel <= rows.Keys && forall j :: j in jobs ==> jobs[j] == ClaimRows(rows, sel, w, now)[j].attempts
    ensures TasksOf(jobs) == NewBatch(rows, sel)
  {
  }

  lemma ComposeMissed(c: Config, s: State, others: map<WorkerId, Worker>, me: WorkerId, self: Worker, sel: set<JobId>)
    requires s == Compose(s.now, s.rows, others, me, self, Running, map[], s.log)
    requires sel <= Due(s.rows, s.now)
    ensures Enabled(c, s, ClaimUnreported(me, sel))
    ensures Apply(c, s, ClaimUnreported(me, sel)) == Compose(s.now, ClaimRows(s.rows, sel, me, s.now), others, me, self, Failing, map[], LogClaims(s, me, sel))
  {
    assert Apply(c, s, ClaimUnreported(me, sel)).workers == others[me := self.(mode := Failing, batch := map[])];
  }

  lemma ComposeReport(c: Config, s: State, others: map<WorkerId, Worker>, me: WorkerId, self: Worker, mode: Mode, batch: map<JobId, Task>, ok: bool)
    requires s == Compose(s.now, s.rows, others, me, self, mode, batch, s.log)
    requires mode != Dead && !self.leaseLost && (ok ==> self.renewed)
    ensures Enabled(c, s, RenewReport(me, ok))
    ensures Apply(c, s, RenewReport(me, ok)) == Compose(s.now, s.rows, others, me, AfterReport(c, self, s.now, ok), mode, batch, s.log)
  {
    var k := Apply(c, s, RenewReport(me, ok)).workers;
    assert k == others[me := k[me]];
  }

  // What the heartbeat task concludes from a renewal.
  function AfterReport(c: Config, self: Worker, now: int, ok: bool): Worker {
    if ok then self.(lastSuccess := now, renewed := false)
    else self.(renewed := false, leaseLost := now - self.lastSuccess > c.reaperIdle)
  }

  function LogTry(log: map<JobId, seq<ClaimRec>>, j: JobId, held: bool, f: Finalizer): map<JobId, seq<ClaimRec>> {
    if held && j in log then log[j := EndLast(log[j], EndOf(f))] else log
  }

  lemma ComposeTry(c: Config, s: State, others: map<WorkerId, Worker>, me: WorkerId, self: Worker, mode: Mode,
                   batch: map<JobId, Task>, j: JobId, committed: bool, reported: bool)
    requires s == Compose(s.now, s.rows, others, me, self, mode, batch, s.log)
    requires Enabled(c, s, TryFinalize(me, j, committed, reported))
    ensures var t := batch[j];
            var f := FinalizerFor(c, t.phase.outcome, t.attempts);
            var held := committed && Fence(s.rows, j, me);
            Apply(c, s, TryFinalize(me, j, committed, reported)) ==
            Compose(s.now, if committed then FinalizeRows(s.rows, j, me, f, s.now) else s.rows, others, me, self,
                    ModeAfterTry(mode, t, reported), batch[j := TaskAfterTry(t, reported)],
                    LogTry(s.log, j, held, f))
  {
    var k := Apply(c, s, TryFinalize(me, j, committed, reported)).workers;
    assert k == others[me := k[me]];
  }

  datatype DrainEnd = Drained | Stopped | Raised

  class Consumer {
    const c: Config
    const me: WorkerId
    const db: JobTable
    var now: int
    var mode: Mode
    var batch: map<JobId, Task>
    var stop: bool          // shutdown requested or lease lost; never taken back
    var self: Worker        // the lease state kept by the heartbeat task

    // What happens to the consumer, and how far it has got.
    const world: World
    var point: nat
    var looks: nat

    // The rest of the system: finished workers, the claim history, and the run from its beginning.
    ghost var others: map<WorkerId, Worker>
    ghost var log: map<JobId, seq<ClaimRec>>
    ghost var run: Run

    ghost function View(): State
      reads this, db
    {
      Compose(now, db.rows, others, me, self, mode, batch, log)
    }

    // The system is where a run of the protocol has led, so every theorem about such runs holds
    // of whatever the consumer does; and it stops only when told to or without its lease.
    ghost predicate Sound()
      reads this, db
    {
      && IsRun(c, run.states, run.steps) && run.states[|run.steps|] == View() && |run.acts| == point
      && (stop <==> self.leaseLost || Signalled(world, looks))
    }

    // The consumer runs exactly as long as nothing fatal has happened to it.
    ghost predicate Valid()
      reads this, db
    {
      Sound() && (mode == Running <==> WentWell(world, run.acts))
    }

    // Takes over at the end of a run, when every other worker has exited.
    constructor (c: Config, me: WorkerId, db: JobTable, now: int, self: Worker, world: World, ghost run: Run)
      requires IsRun(c, run.states, run.steps) && run.acts == []
      requires var s := run.states[|run.steps|]; me in s.workers && s.rows == db.rows && s.now == now && s.workers[me] == self
      requires self.mode == Running && self.batch == map[]
      ensures Valid() && this.run == run && this.world == world && looks == 0
      ensures this.c == c && this.me == me && this.db == db && mode == Running && batch == map[]
    {
      ghost var s := run.states[|run.steps|];
      this.c, this.me, this.db, this.now, this.self := c, me, db, now, self;
      mode, batch, stop := Running, map[], self.leaseLost;
      this.world, point, looks := world, 0, 0;
      this.run, others, log := run, s.workers, s.log;
      new;
      assert View().workers == s.workers;
    }

    // For instance: accepted sends of a job exceed its reaps by at most one, and its attempts
    // count its claims.
    lemma ConsumerGuarantees(j: JobId)
      requires Valid() && j in db.rows
      ensures SendsOf(run.steps, j) <= 1 + ReapsOf(run.steps, j)
      ensures db.rows[j].status == Completed ==> SendsOf(run.steps, j) >= 1
      ensures db.rows[j].attempts == ClaimsOf(run.steps, j)
    {
      NearExactlyOnce(c, run.states, run.steps, j);
      AttemptAccounting(c, run.states, run.steps, j);
    }

    // Between batches this worker holds nothing.
    lemma NothingHeld()
      requires Valid() && mode == Running && batch == map[]
      ensures NoneHeld(db.rows, me)
    {
      InvRun(c, run.states, run.steps, |run.steps|);
      forall j | j in db.rows ensures !Fence(db.rows, j, me) { assert HoldOk(View(), me, j); }
    }

    // ---------------------------------------------------------------- single protocol steps

    // Bookkeeping after one step: the view has moved to `Apply` of the step.
    ghost method Record(s: State, e: Step)
      requires IsRun(c, run.states, run.steps) && run.states[|run.steps|] == s && |run.acts| == point
      requires Enabled(c, s, e) && View() == Apply(c, s, e) && (stop <==> self.leaseLost || Signalled(world, looks))
      modifies this`run
      ensures Sound() && run == Run(old(run).states + [View()], old(run).steps + [e], old(run).acts)
    {
      OneMoreStep(c, run, e);
      run := Run(run.states + [View()], run.steps + [e], run.acts);
    }

    // The next action that can go wrong, and how it goes.
    method NextFault(a: Act) returns (fault: Fault)
      requires Valid()
      modifies this`point, this`run
      ensures Sound() && run == old(run).(acts := old(run).acts + [a])
      ensures fault == world.fault(|old(run).acts|)
      ensures WentWell(world, run.acts) <==> WentWell(world, old(run).acts) && !Fatal(a, fault)
    {
      fault := world.fault(point);
      WentWellMore(world, run.acts, a);
      point := point + 1;
      run := run.(acts := run.acts + [a]);
    }

    // Time passes, any amount, and a stop signal may arrive.
    method Elapse()
      requires Valid()
      modifies this`now, this`stop, this`looks, this`run
      ensures Valid() && now >= old(now) && Quiet(old(run), run)
    {
      ghost var s := View();
      var later: int := *;
      if later >= now { now := later; }
      SignalledMore(world, looks);
      stop := stop || world.signal(looks);
      looks := looks + 1;
      Record(s, Tick(now));
    }

    // The heartbeat task renews all rows this worker holds.
    method RenewOnce()
      requires Valid() && mode != Dead && !self.leaseLost
      modifies this`self, this`run, db
      ensures Valid() && Quiet(old(run), run) && Beaten(me, old(db.rows), db.rows)
      ensures self == old(self).(lastCommit := now, renewed := true)
    {
      ghost var s := View();
      var _ := db.RenewHeartbeat(me, now);
      self := self.(lastCommit := now, renewed := true);
      assert View().workers == Apply(c, s, Renew(me)).workers;
      Record(s, Renew(me));
    }

    // It takes note of a renewal, and gives up the lease after too long a silence.
    method NoteRenewal(ok: bool)
      requires Valid() && mode != Dead && !self.leaseLost && (ok ==> self.renewed)
      modifies this`self, this`run, this`stop
      ensures Valid() && Quiet(old(run), run)
    {
      ghost var s := View();
      ComposeReport(c, s, others, me, self, mode, batch, ok);
      self := AfterReport(c, self, now, ok);
      stop := stop || self.leaseLost;
      Record(s, RenewReport(me, ok));
    }

    // One action of the heartbeat task: a renewal, or the note of its success or failure.
    method Beat()
      requires Valid() && mode != Dead
      modifies this`stop, this`run, this`self, db
      ensures Valid() && Quiet(old(run), run) && Beaten(me, old(db.rows), db.rows)
    {
      var renew: bool, seen: bool := *, *;
      if !self.leaseLost {
        if renew {
          RenewOnce();
        } else {
          NoteRenewal(seen && self.renewed);
        }
      }
    }

    // What may happen while the drain awaits something: time, renewals, a stop signal.
    method Meanwhile()
      requires Valid() && mode != Dead
      modifies this`now, this`stop, this`looks, this`run, this`self, db
      ensures Valid() && now >= old(now)
      ensures Quiet(old(run), run) && Beaten(me, old(db.rows), db.rows)
    {
      var turns: nat := *;
      while turns > 0
        invariant Valid() && now >= old(now)
        invariant Quiet(old(run), run) && Beaten(me, old(db.rows), db.rows)
      {
        ghost var rows := db.rows;
        Elapse();
        Beat();
        BeatenMore(me, old(db.rows), rows, db.rows);
        turns := turns - 1;
      }
      Elapse();
    }

    // Between batches renewals find nothing.
    method Idle()
      requires Valid() && mode == Running && batch == map[]
      modifies this`now, this`stop, this`looks, this`run, this`self, db
      ensures Valid() && now >= old(now)
      ensures Quiet(old(run), run) && db.rows == old(db.rows)
    {
      NothingHeld();
      Meanwhile();
    }

    // An exception that is not handled ends the consumer.
    method RaiseError()
      requires Sound() && mode == Running
      modifies this`run, this`mode
      ensures Sound() && Quiet(old(run), run) && mode == Failing
      ensures run.steps == old(run).steps + [Fail(me)] && run.acts == old(run).acts
    {
      ghost var s := View();
      mode := Failing;
      assert View().workers == Apply(c, s, Fail(me)).workers;
      Record(s, Fail(me));
    }

    method ReapOnce(limit: nat, commits: bool) returns (affected: nat, ghost sel: set<JobId>)
      requires Sound()
      modifies this`log, this`run, db
      ensures Sound() && run.acts == old(run).acts && Unclaimed(old(run), run) && run.steps == old(run).steps + [Reap(sel)]
      ensures sel <= Stale(old(db.rows), now, c.reaperIdle) && db.rows == ReapRows(old(db.rows), sel)
      ensures commits ==> affected == |sel| <= limit && (affected < limit ==> sel == Stale(old(db.rows), now, c.reaperIdle))
    {
      ghost var s := View();
      affected, sel := 0, {};
      if commits {
        affected, sel := db.ReapStale(now, c.reaperIdle, limit);
      }
      log := LogReaps(s, sel);
      Record(s, Reap(sel));
    }

    // One reap transaction. `sel` is what it returned to pending, even if the worker does not
    // learn of it.
    method ReapPass(limit: nat) returns (ok: bool, affected: nat, ghost sel: set<JobId>)
      requires Valid() && mode == Running
      modifies this`log, this`point, this`run, this`mode, db
      ensures Valid() && mode == (if ok then Running else Failing) && run.acts == old(run).acts + [Reaping]
      ensures Unclaimed(old(run), run) && run.steps == old(run).steps + (if ok then [Reap(sel)] else [Reap(sel), Fail(me)])
      ensures sel <= Stale(old(db.rows), now, c.reaperIdle) && db.rows == ReapRows(old(db.rows), sel)
      ensures ok ==> affected == |sel| <= limit && (affected < limit ==> sel == Stale(old(db.rows), now, c.reaperIdle))
    {
      var committed: bool := *;
      var fault := NextFault(Reaping);
      ok := fault == NoFault;
      affected, sel := ReapOnce(limit, committed || ok);
      if !ok {
        RaiseError();
      }
    }

    // One claim transaction. `sel` is what it claimed, even if the worker does not learn of it.
    method ClaimPass(limit: nat) returns (ok: bool, count: nat, ghost sel: set<JobId>)
      requires Valid() && mode == Running && batch == map[]
      modifies this`log, this`point, this`run, this`batch, this`mode, db
      ensures Valid() && mode == (if ok then Running else Failing) && Prolongs(old(run), run)
      ensures ok ==> LastClaimAt(run, |old(run).steps|, now)
      ensures sel <= Due(old(db.rows), now) && db.rows == ClaimRows(old(db.rows), sel, me, now)
      ensures BatchResult(c, now, db.rows, db.rows, sel)
      ensures ok ==> ClaimSelection(old(db.rows), now, limit, sel) && count == |sel|
      ensures ok ==> FreshBatch(c, now, me, db.rows, batch, sel)
    {
      NothingHeld();
      var fault := NextFault(Claiming);
      ok := fault == NoFault;
      if ok {
        count, sel := ClaimSeen(limit);
        ClaimIsLast(old(run), run, now);
      } else {
        count := 0;
        sel := ClaimMissed(limit);
      }
      MidwayQueued(c, old(db.rows), sel, me, now);
    }

    method ClaimSeen(limit: nat) returns (count: nat, ghost sel: set<JobId>)
      requires Sound() && mode == Running && batch == map[]
      modifies this`log, this`run, this`batch, db
      ensures Sound() && run.acts == old(run).acts && Prolongs(old(run), run) && run.steps == old(run).steps + [Claim(me, sel)]
      ensures db.rows == ClaimRows(old(db.rows), sel, me, now) && batch == NewBatch(old(db.rows), sel)
      ensures ClaimSelection(old(db.rows), now, limit, sel) && count == |sel|
    {
      ghost var s := View();
      var jobs := db.ClaimBatch(me, now, limit);
      sel, count := jobs.Keys, |jobs.Keys|;
      batch := TasksOf(jobs);
      TasksAreNew(s.rows, sel, me, now, jobs);
      log := LogClaims(s, me, sel);
      ComposeClaim(c, s, others, me, self, sel);
      Record(s, Claim(me, sel));
    }

    method TakeUnseen(limit: nat) returns (ghost sel: set<JobId>)
      modifies db
      ensures sel <= Due(old(db.rows), now) && db.rows == ClaimRows(old(db.rows), sel, me, now)
    {
      sel := {};
      var committed: bool := *;
      if committed {
        var jobs := db.ClaimBatch(me, now, limit);
        sel := jobs.Keys;
      }
    }

    // An error is raised, although the claim may have committed.
    method ClaimMissed(limit: nat) returns (ghost sel: set<JobId>)
      requires Sound() && mode == Running && batch == map[]
      modifies this`log, this`run, this`mode, db
      ensures Sound() && run.acts == old(run).acts && Prolongs(old(run), run) && run.steps == old(run).steps + [ClaimUnreported(me, sel)] && mode == Failing
      ensures sel <= Due(old(db.rows), now) && db.rows == ClaimRows(old(db.rows), sel, me, now)
    {
      ghost var s := View();
      sel := TakeUnseen(limit);
      log := LogClaims(s, me, sel);
      mode := Failing;
      ComposeMissed(c, s, others, me, self, sel);
      Record(s, ClaimUnreported(me, sel));
    }

    method SendOne(j: JobId, outcome: Outcome)
      requires Sound() && mode != Dead && j in batch && batch[j].phase == Queued
      modifies this`log, this`run, this`batch
      ensures Sound() && run.acts == old(run).acts && Quiet(old(run), run) && run.steps == old(run).steps + [Send(me, j, outcome)]
      ensures batch == old(batch)[j := old(batch)[j].(phase := Sent(outcome, 0))]
    {
      ghost var s := View();
      log := s.log[j := LogSend(LogOf(s, j), batch[j].attempts, outcome)];
      batch := batch[j := batch[j].(phase := Sent(outcome, 0))];
      assert View().workers == Apply(c, s, Send(me, j, outcome)).workers;
      Record(s, Send(me, j, outcome));
    }

    method Write(j: JobId, f: Finalizer, committed: bool) returns (held: bool)
      modifies db
      ensures held == (committed && Fence(old(db.rows), j, me))
      ensures db.rows == if committed then FinalizeRows(old(db.rows), j, me, f, now) else old(db.rows)
    {
      held := false;
      if committed {
        held := db.Finalize(j, me, f, now);
      }
    }

    // One finalizer transaction: it may not commit, or commit without the worker learning of it.
    method TryOnce(j: JobId, committed: bool, reported: bool)
      requires Sound() && mode != Dead && j in batch && batch[j].phase.Sent? && batch[j].attempts >= 1
      requires batch[j].phase.tries < FINALIZE_MAX_ATTEMPTS && (reported ==> committed)
      modifies this`log, this`run, this`batch, this`mode, db
      ensures Sound() && Quiet(old(run), run)
      ensures run.acts == old(run).acts && run.steps == old(run).steps + [TryFinalize(me, j, committed, reported)]
      ensures db.rows == if committed
                         then FinalizeRows(old(db.rows), j, me, FinalizerFor(c, old(batch)[j].phase.outcome, old(batch)[j].attempts), now)
                         else old(db.rows)
      ensures batch == old(batch)[j := TaskAfterTry(old(batch)[j], reported)]
      ensures mode == ModeAfterTry(old(mode), old(batch)[j], reported)
    {
      ghost var s := View();
      var t := batch[j];
      var f := FinalizerFor(c, t.phase.outcome, t.attempts);
      ComposeTry(c, s, others, me, self, mode, batch, j, committed, reported);
      var held := Write(j, f, committed);
      log := LogTry(log, j, held, f);
      batch := batch[j := TaskAfterTry(t, reported)];
      mode := ModeAfterTry(mode, t, reported);
      assert View() == Apply(c, s, TryFinalize(me, j, committed, reported));
      Record(s, TryFinalize(me, j, committed, reported));
    }

    // The batch that began after `was` is over.
    method FinishBatch(ghost was: Run, ghost ids: set<JobId>)
      requires Valid() && mode == Running && forall j :: j in batch ==> batch[j].phase == Done
      requires Quiet(was, run) && EachOnce(run.steps[|was.steps|..], me, ids, true)
      modifies this`run, this`batch
      ensures Valid() && batch == map[] && run.steps == old(run).steps + [BatchDone(me)]
      ensures Unclaimed(was, run) && EachOnce(run.steps[|was.steps|..], me, ids, true)
    {
      ghost var s, es := View(), run.steps[|was.steps|..];
      batch := map[];
      assert View().workers == Apply(c, s, BatchDone(me)).workers;
      Record(s, BatchDone(me));
      OnceToTheEnd(es, me, ids, BatchDone(me));
      assert run.steps[|was.steps|..] == es + [BatchDone(me)];
    }

    // ---------------------------------------------------------------- the tasks of a batch

    // Recipient lookup, rendering and sending, with any outcome; an error of another kind
    // ends the consumer.
    method Deliver(j: JobId, ghost since: int, ghost claimed: Table) returns (ok: bool)
      requires Valid() && mode == Running && j in batch && batch[j].phase == Queued
      requires Midway(c, since, me, claimed, db.rows, batch)
      modifies this`log, this`point, this`run, this`batch, this`mode
      ensures Valid() && Quiet(old(run), run) && batch.Keys == old(batch.Keys)
      ensures ok ==> mode == Running && Midway(c, since, me, claimed, db.rows, batch) && Todo(batch) < Todo(old(batch))
      ensures ok ==> run.steps == old(run).steps + [Send(me, j, world.outcome(|old(run).acts|))]
      ensures !ok ==> mode == Failing && BatchResult(c, since, claimed, db.rows, batch.Keys)
    {
      assert db.rows[j := db.rows[j]] == db.rows;
      var outcome := world.outcome(point);
      var fault := NextFault(Delivering);
      ok := fault == NoFault;
      if ok {
        ghost var t := batch[j].(phase := Sent(outcome, 0));
        MidwayMove(c, since, me, claimed, db.rows, batch, j, db.rows[j], t);
        TodoShrinks(batch, j, t);
        SendOne(j, outcome);
      } else {
        MidwayResult(c, since, me, claimed, db.rows, batch, j, db.rows[j]);
        RaiseError();
      }
    }

    // One try of `_commit_finalizer`. A fault lets the task try again, except after the third try;
    // the transaction may have committed all the same.
    method AttemptFinalizer(j: JobId, ghost since: int, ghost claimed: Table) returns (fault: Fault)
      requires Valid() && mode == Running && c.backoffBase > 0 && since <= now
      requires j in batch && batch[j].phase.Sent? && Midway(c, since, me, claimed, db.rows, batch)
      modifies this`log, this`point, this`run, this`batch, this`mode, db
      ensures Sound() && Quiet(old(run), run) && batch.Keys == old(batch.Keys)
      ensures WentWell(world, run.acts) <==> !Fatal(Finalizing(old(batch)[j].phase.tries), fault)
      ensures mode == if fault != NoFault && old(batch)[j].phase.tries + 1 == 3 then Failing else Running
      ensures mode == Running ==> Midway(c, since, me, claimed, db.rows, batch) && Todo(batch) < Todo(old(batch))
      ensures BatchResult(c, since, claimed, db.rows, batch.Keys)
    {
      var committed: bool := *;
      fault := NextFault(Finalizing(batch[j].phase.tries));
      var reported := fault == NoFault;
      MidwayTried(c, since, me, claimed, db.rows, batch, j, now, committed || reported, reported);
      TryOnce(j, committed || reported, reported);
    }

    // A fault that is not transient ends the consumer at once.
    method FinalizeTask(j: JobId, ghost since: int, ghost claimed: Table) returns (ok: bool)
      requires Valid() && mode == Running && c.backoffBase > 0 && since <= now
      requires j in batch && batch[j].phase.Sent? && Midway(c, since, me, claimed, db.rows, batch)
      modifies this`log, this`point, this`run, this`batch, this`mode, db
      ensures Valid() && Quiet(old(run), run) && batch.Keys == old(batch.Keys)
      ensures ok ==> mode == Running && Midway(c, since, me, claimed, db.rows, batch) && Todo(batch) < Todo(old(batch))
      ensures !ok ==> mode == Failing && BatchResult(c, since, claimed, db.rows, batch.Keys)
    {
      assert batch[j].phase.tries < 3;
      var fault := AttemptFinalizer(j, since, claimed);
      if mode == Running && fault == OtherFault {
        RaiseError();
      }
      ok := mode == Running;
    }

    // One task goes on to its next await: it sends, or tries its finalizer.
    method StepTask(j: JobId, ghost since: int, ghost claimed: Table) returns (ok: bool)
      requires Valid() && mode == Running && c.backoffBase > 0 && since <= now
      requires j in batch && batch[j].phase != Done && Midway(c, since, me, claimed, db.rows, batch)
      modifies this`now, this`stop, this`looks, this`point, this`log, this`run, this`batch, this`mode, this`self, db
      ensures Valid() && now >= old(now) && Quiet(old(run), run) && batch.Keys == old(batch.Keys)
      ensures ok ==> mode == Running && Midway(c, since, me, claimed, db.rows, batch) && Todo(batch) < Todo(old(batch))
      ensures !ok ==> mode == Failing && BatchResult(c, since, claimed, db.rows, batch.Keys)
    {
      ghost var rows := db.rows;
      Meanwhile();
      MidwayBeaten(c, since, me, claimed, rows, db.rows, batch);
      if batch[j].phase == Queued {
        ok := Deliver(j, since, claimed);
      } else {
        ok := FinalizeTask(j, since, claimed);
      }
    }

    // All tasks of one claim, interleaved in any way; the first error ends them.
    method RunTasks(ghost since: int, ghost claimed: Table) returns (ok: bool)
      requires Valid() && mode == Running && c.backoffBase > 0 && since <= now
      requires Midway(c, since, me, claimed, db.rows, batch)
      modifies this`now, this`stop, this`looks, this`point, this`log, this`run, this`batch, this`mode, this`self, db
      ensures Valid() && now >= old(now) && Quiet(old(run), run) && batch.Keys == old(batch.Keys)
      ensures BatchResult(c, since, claimed, db.rows, batch.Keys)
      ensures ok ==> mode == Running && Released(db.rows, batch.Keys) && forall j :: j in batch ==> batch[j].phase == Done
      ensures !ok ==> mode == Failing
    {
      while exists j :: j in batch && batch[j].phase != Done
        invariant Valid() && mode == Running && now >= old(now) && Quiet(old(run), run) && batch.Keys == old(batch.Keys)
        invariant Midway(c, since, me, claimed, db.rows, batch)
        decreases Todo(batch)
      {
        var j :| j in batch && batch[j].phase != Done;
        ok := StepTask(j, since, claimed);
        if !ok {
          return;
        }
      }
      MidwayDone(c, since, me, claimed, db.rows, batch);
      ok := true;
    }

    // The batch of one claim. Each job is sent once, with at most three tries to finalize it, and
    // is released in the end.
    method ProcessBatch(ghost since: int, ghost claimed: Table) returns (ok: bool)
      requires Valid() && mode == Running && c.backoffBase > 0 && since <= now
      requires Midway(c, since, me, claimed, db.rows, batch) && forall j :: j in batch ==> batch[j].phase == Queued
      modifies this`now, this`stop, this`looks, this`point, this`log, this`run, this`batch, this`mode, this`self, db
      ensures Valid() && now >= old(now) && Unclaimed(old(run), run)
      ensures BatchResult(c, since, claimed, db.rows, old(batch).Keys)
      ensures EachOnce(run.steps[|old(run).steps|..], me, old(batch).Keys, ok)
      ensures ok ==> mode == Running && batch == map[] && Released(db.rows, old(batch).Keys)
      ensures !ok ==> mode == Failing
    {
      ok := RunTasks(since, claimed);
      BatchCounts(c, old(run), run, me, batch.Keys, ok);
      if ok {
        FinishBatch(old(run), batch.Keys);
      }
    }

    // ---------------------------------------------------------------- _drain

    // Reaps in bounded passes while full ones come back.
    method ReapAll(reapBatch: nat) returns (ok: bool, stopped: bool)
      requires Valid() && mode == Running && batch == map[] && reapBatch >= 1
      modifies this`now, this`stop, this`looks, this`point, this`log, this`run, this`mode, this`self, db
      ensures Valid() && now >= old(now) && Unclaimed(old(run), run)
      ensures OnlyReaped(old(db.rows), db.rows)
      ensures mode == (if ok then Running else Failing)
      ensures stopped ==> stop
      ensures ok && !stopped ==> Stale(db.rows, now, c.reaperIdle) == {}
    {
      while true
        invariant Valid() && mode == Running && now >= old(now) && Unclaimed(old(run), run)
        invariant OnlyReaped(old(db.rows), db.rows)
        decreases InProcess(db.rows)
      {
        Idle();
        ghost var before, sel := db.rows, {};
        var affected;
        ok, affected, sel := ReapPass(reapBatch);
        ReapShrinks(old(db.rows), before, sel);
        if !ok || affected < reapBatch {
          return ok, false;
        }
        if stop {
          return true, true;
        }
      }
    }

    // One claim and its batch. `count` is the number of jobs claimed.
    method ClaimAndProcess(claimBatch: nat) returns (count: nat, ok: bool, ghost at: int, ghost sel: set<JobId>)
      requires Valid() && mode == Running && batch == map[] && c.backoffBase > 0
      modifies this`now, this`stop, this`looks, this`point, this`log, this`run, this`batch, this`mode, this`self, db
      ensures Valid() && Prolongs(old(run), run) && old(now) <= at <= now
      ensures sel <= Due(old(db.rows), at) && BatchResult(c, at, ClaimRows(old(db.rows), sel, me, at), db.rows, sel)
      ensures ok ==> ClaimSelection(old(db.rows), at, claimBatch, sel) && count == |sel| && Released(db.rows, sel)
      ensures ok ==> mode == Running && batch == map[] && LastClaimAt(run, |old(run).steps|, at)
      ensures !ok ==> mode == Failing
    {
      Idle();
      at := now;
      ok, count, sel := ClaimPass(claimBatch);
      if ok {
        ok := ProcessClaimed(at, |old(run).steps|, sel);
      }
    }

    // The batch of a claim made at `at`.
    method ProcessClaimed(ghost at: int, ghost from: nat, ghost sel: set<JobId>) returns (ok: bool)
      requires Valid() && mode == Running && c.backoffBase > 0 && at <= now
      requires FreshBatch(c, at, me, db.rows, batch, sel)
      requires LastClaimAt(run, from, at)
      modifies this`now, this`stop, this`looks, this`point, this`log, this`run, this`batch, this`mode, this`self, db
      ensures Valid() && Prolongs(old(run), run) && now >= old(now) && LastClaimAt(run, from, at)
      ensures BatchResult(c, at, old(db.rows), db.rows, sel)
      ensures ok ==> mode == Running && batch == map[] && Released(db.rows, sel)
      ensures !ok ==> mode == Failing
    {
      ok := ProcessBatch(at, db.rows);
      LastClaimKept(old(run), run, from, at);
    }

    // One turn of the claim loop of a drain that began at `start`.
    method DrainTurn(claimBatch: nat, ghost start: Table, ghost since: int) returns (count: nat, ok: bool, ghost at: int)
      requires Valid() && mode == Running && batch == map[] && c.backoffBase > 0
      requires Within(c, start, db.rows) && OnlyFreshLeases(start, db.rows, since)
      modifies this`now, this`stop, this`looks, this`point, this`log, this`run, this`batch, this`mode, this`self, db
      ensures Valid() && Prolongs(old(run), run) && old(now) <= at <= now
      ensures Within(c, start, db.rows)
      ensures ok && count > 0 ==> Remaining(c, start, db.rows) < Remaining(c, start, old(db.rows))
      ensures ok && count < claimBatch ==> NothingDue(db.rows, at)
      ensures ok ==> OnlyFreshLeases(start, db.rows, since) && LastClaimAt(run, |old(run).steps|, at)
      ensures ok ==> mode == Running && batch == map[]
      ensures !ok ==> mode == Failing
    {
      ghost var before, sel := db.rows, {};
      count, ok, at, sel := ClaimAndProcess(claimBatch);
      if sel == {} {
        NothingClaimed(c, before, me, at, db.rows);
      } else {
        ClaimsShrink(c, start, before, sel, me, at, db.rows);
      }
      if ok {
        if count < claimBatch {
          ShortClaimDrains(c, before, sel, claimBatch, me, at, db.rows);
        }
        LeasesKept(c, start, before, sel, me, at, db.rows, since);
      }
    }

    // The claim loop of a drain that began at `start`, until a short claim.
    method ClaimAll(claimBatch: nat, ghost start: Table, ghost since: int) returns (end: DrainEnd, ghost lastClaim: int)
      requires Valid() && mode == Running && batch == map[] && c.backoffBase > 0 && claimBatch >= 1
      requires Within(c, start, db.rows) && OnlyFreshLeases(start, db.rows, since)
      modifies this`now, this`stop, this`looks, this`point, this`log, this`run, this`batch, this`mode, this`self, db
      ensures Valid() && Prolongs(old(run), run) && old(now) <= now
      ensures Within(c, start, db.rows)
      ensures end == Raised <==> mode == Failing
      ensures end != Raised ==> mode == Running && batch == map[] && OnlyFreshLeases(start, db.rows, since)
      ensures end == Stopped ==> stop
      ensures end == Drained ==> LastClaimAt(run, |old(run).steps|, lastClaim) && NothingDue(db.rows, lastClaim)
    {
      lastClaim := now;
      while !stop
        invariant Valid() && mode == Running && batch == map[] && Prolongs(old(run), run) && old(now) <= now
        invariant Within(c, start, db.rows) && OnlyFreshLeases(start, db.rows, since)
        decreases Remaining(c, start, db.rows)
      {
        var count, ok;
        ghost var sofar := |run.steps|;
        count, ok, lastClaim := DrainTurn(claimBatch, start, since);
        if !ok {
          return Raised, lastClaim;
        }
        if count < claimBatch {
          LastClaimFrom(run, |old(run).steps|, sofar, lastClaim);
          return Drained, lastClaim;
        }
        Idle();
      }
      end := Stopped;
    }

    // One drain. It ends; no job is claimed more often than its remaining attempts allow (one
    // claim is always possible). When it ends because the queue is empty, everything still
    // pending is due only after the last claim, and everything still leased is a lease found at
    // the start that was not stale then. It is cut short exactly by a fatal fault, or ends early
    // on a stop signal or a lost lease; without any of these it drains the queue.
    method Drain(reapBatch: nat, claimBatch: nat) returns (end: DrainEnd, ghost lastClaim: int)
      requires Valid() && mode == Running && batch == map[] && c.backoffBase > 0
      requires reapBatch >= 1 && claimBatch >= 1
      modifies this`now, this`stop, this`looks, this`point, this`log, this`run, this`batch, this`mode, this`self, db
      ensures Valid() && Prolongs(old(run), run) && old(now) <= now
      ensures ClaimBounds(c, old(db.rows), run.steps[|old(run).steps|..])
      ensures end == Raised <==> Struck(world, old(run).acts, run.acts)
      ensures end == Raised <==> mode == Failing
      ensures end != Raised ==> mode == Running && batch == map[]
      ensures stop <==> self.leaseLost || Signalled(world, looks)
      ensures end == Stopped ==> stop
      ensures !Struck(world, old(run).acts, run.acts) && !stop ==> end == Drained
      ensures end == Drained ==>
                && LastClaimAt(run, |old(run).steps|, lastClaim) && NothingDue(db.rows, lastClaim)
                && OnlyFreshLeases(old(db.rows), db.rows, old(now) - c.reaperIdle)
    {
      ghost var start, since := db.rows, now - c.reaperIdle;
      var ok, stopped := ReapAll(reapBatch);
      WithinStart(c, start, db.rows);
      lastClaim := now;
      if !ok {
        end := Raised;
      } else if stopped {
        end := Stopped;
      } else {
        FreshAfterReap(start, db.rows, now, c.reaperIdle, since);
        ghost var sofar := |run.steps|;
        end, lastClaim := ClaimAll(claimBatch, start, since);
        if end == Drained { LastClaimFrom(run, |old(run).steps|, sofar, lastClaim); }
      }
      WithinBounds(c, run, |old(run).steps|);
      StruckIff(world, old(run).acts, run.acts);
    }
  }
}
