/**
 What every run of the delivery protocol guarantees. The statements speak of the run's own
 steps and rows; the claim history is only the means of proof.
 */
module DeliveryTheorems {
  import opened Basics
  import opened Outbox
  import opened Delivery
  import opened DeliveryInvariant

  // ---------------------------------------------------------------- counting the steps of a run

  predicate ClaimsJob(e: Step, j: JobId) {
    (e.Claim? || e.ClaimUnreported?) && j in e.sel
  }

  predicate ReapsJob(e: Step, j: JobId) {
    e.Reap? && j in e.sel
  }

  predicate SendsJob(e: Step, j: JobId) {
    e.Send? && e.j == j && e.outcome == Accepted
  }

  // A finalizer transaction that puts the row back to pending.
  predicate RetriesJob(s: State, e: Step, s': State, j: JobId) {
    && e.TryFinalize? && j in s.rows && j in s'.rows
    && s.rows[j].status == Processing && s'.rows[j].status == Pending
  }

  function ClaimsOf(es: seq<Step>, j: JobId): nat {
    if es == [] then 0 else ClaimsOf(es[..|es| - 1], j) + if ClaimsJob(es[|es| - 1], j) then 1 else 0
  }

  function ReapsOf(es: seq<Step>, j: JobId): nat {
    if es == [] then 0 else ReapsOf(es[..|es| - 1], j) + if ReapsJob(es[|es| - 1], j) then 1 else 0
  }

  function SendsOf(es: seq<Step>, j: JobId): nat {
    if es == [] then 0 else SendsOf(es[..|es| - 1], j) + if SendsJob(es[|es| - 1], j) then 1 else 0
  }

  function RetriesOf(ss: seq<State>, es: seq<Step>, j: JobId): nat
    requires |ss| == |es| + 1
  {
    if es == [] then 0
    else RetriesOf(ss[..|es|], es[..|es| - 1], j) +
         if RetriesJob(ss[|es| - 1], es[|es| - 1], ss[|es|], j) then 1 else 0
  }

  // ---------------------------------------------------------------- counting the records of a history

  function CountEnd(L: seq<ClaimRec>, end: End): nat {
    if L == [] then 0 else CountEnd(L[..|L| - 1], end) + if L[|L| - 1].end == end then 1 else 0
  }

  function TotalSends(L: seq<ClaimRec>): nat {
    if L == [] then 0 else TotalSends(L[..|L| - 1]) + L[|L| - 1].sends
  }

  lemma {:induction false} CountUpdate(L: seq<ClaimRec>, i: nat, rec: ClaimRec, end: End)
    requires i < |L|
    ensures CountEnd(L[i := rec], end) + (if L[i].end == end then 1 else 0)
         == CountEnd(L, end) + (if rec.end == end then 1 else 0)
    ensures TotalSends(L[i := rec]) + L[i].sends == TotalSends(L) + rec.sends
  {
    var n := |L| - 1;
    if i == n {
      assert L[i := rec][..n] == L[..n];
    } else {
      assert L[i := rec][..n] == L[..n][i := rec];
      CountUpdate(L[..n], i, rec, end);
    }
  }

  lemma CountAppend(L: seq<ClaimRec>, rec: ClaimRec, end: End)
    ensures CountEnd(L + [rec], end) == CountEnd(L, end) + if rec.end == end then 1 else 0
    ensures TotalSends(L + [rec]) == TotalSends(L) + rec.sends
  {
    assert (L + [rec])[..|L|] == L;
  }

  // ---------------------------------------------------------------- one step's effect on one history

  // Records keep their owner, counters only grow, and an ended claim never ends again.
  predicate Grows(L: seq<ClaimRec>, M: seq<ClaimRec>) {
    && |L| <= |M|
    && forall i :: 0 <= i < |L| ==>
         && M[i].owner == L[i].owner && L[i].sends <= M[i].sends
         && (L[i].end != Open ==> M[i].end == L[i].end)
  }

  ghost predicate Tracks(s: State, e: Step, s': State, j: JobId) {
    && j in s'.rows
    && Grows(LogOf(s, j), LogOf(s', j))
    && CountsMove(s, e, s', j)
  }

  lemma TrackEnd(L: seq<ClaimRec>, end: End)
    requires L != [] && L[|L| - 1].end == Open && end != Open
    ensures Grows(L, EndLast(L, end)) && |EndLast(L, end)| == |L|
    ensures TotalSends(EndLast(L, end)) == TotalSends(L)
    ensures CountEnd(EndLast(L, end), ByReap) == CountEnd(L, ByReap) + if end == ByReap then 1 else 0
    ensures CountEnd(EndLast(L, end), ByRetry) == CountEnd(L, ByRetry) + if end == ByRetry then 1 else 0
  {
    CountUpdate(L, |L| - 1, L[|L| - 1].(end := end), ByReap);
    CountUpdate(L, |L| - 1, L[|L| - 1].(end := end), ByRetry);
  }

  lemma TrackAppend(L: seq<ClaimRec>, w: WorkerId)
    ensures var M := L + [ClaimRec(w, 0, Open)];
            && Grows(L, M) && TotalSends(M) == TotalSends(L)
            && CountEnd(M, ByReap) == CountEnd(L, ByReap) && CountEnd(M, ByRetry) == CountEnd(L, ByRetry)
  {
    CountAppend(L, ClaimRec(w, 0, Open), ByReap);
    CountAppend(L, ClaimRec(w, 0, Open), ByRetry);
  }

  lemma TrackSend(L: seq<ClaimRec>, a: nat)
    requires 1 <= a <= |L|
    ensures var M := LogSend(L, a, Accepted);
            && Grows(L, M) && |M| == |L| && TotalSends(M) == TotalSends(L) + 1
            && CountEnd(M, ByReap) == CountEnd(L, ByReap) && CountEnd(M, ByRetry) == CountEnd(L, ByRetry)
  {
    var rec := L[a - 1].(sends := L[a - 1].sends + 1);
    CountUpdate(L, a - 1, rec, ByReap);
    CountUpdate(L, a - 1, rec, ByRetry);
  }

  lemma TrackFinalize(c: Config, s: State, e: Step, j: JobId)
    requires Enabled(c, s, e) && e.TryFinalize? && j in s.rows && j in s.log && JobOk(c, s, j)
    ensures Tracks(s, e, Apply(c, s, e), j)
  {
    if j == e.j && e.committed && Fence(s.rows, j, e.w) {
      var t := s.workers[e.w].batch[j];
      TrackEnd(s.log[j], EndOf(FinalizerFor(c, t.phase.outcome, t.attempts)));
    }
  }

  lemma TrackClaim(c: Config, s: State, e: Step, j: JobId)
    requires Enabled(c, s, e) && j in s.rows && j in s.log && (e.Claim? || e.ClaimUnreported?)
    ensures Tracks(s, e, Apply(c, s, e), j)
  {
    assert Apply(c, s, e).log[j] == if j in e.sel then s.log[j] + [ClaimRec(e.w, 0, Open)] else s.log[j];
    TrackAppend(s.log[j], e.w);
  }

  lemma TrackReap(c: Config, s: State, e: Step, j: JobId)
    requires Enabled(c, s, e) && j in s.rows && j in s.log && JobOk(c, s, j) && e.Reap?
    ensures Tracks(s, e, Apply(c, s, e), j)
  {
    if j in e.sel { TrackEnd(s.log[j], ByReap); }
  }

  lemma TrackOther(c: Config, s: State, e: Step, j: JobId)
    requires Enabled(c, s, e) && j in s.rows && j in s.log
    requires !e.Claim? && !e.ClaimUnreported? && !e.Reap? && !e.TryFinalize?
    requires e.Send? ==> TaskOk(c, s, e.w, e.j)
    ensures Tracks(s, e, Apply(c, s, e), j)
  {
    if e.Send? && e.j == j && e.outcome == Accepted {
      TrackSend(s.log[j], s.workers[e.w].batch[j].attempts);
    }
  }

  lemma TrackStep(c: Config, s: State, e: Step, j: JobId)
    requires Inv(c, s) && Enabled(c, s, e) && j in s.rows
    ensures Tracks(s, e, Apply(c, s, e), j)
  {
    assert JobOk(c, s, j);
    match e
    case TryFinalize(_, _, _, _) => TrackFinalize(c, s, e, j);
    case Claim(_, _) => TrackClaim(c, s, e, j);
    case ClaimUnreported(_, _) => TrackClaim(c, s, e, j);
    case Reap(_) => TrackReap(c, s, e, j);
    case Send(w, j0, _) => assert TaskOk(c, s, w, j0); TrackOther(c, s, e, j);
    case _ => TrackOther(c, s, e, j);
  }

  // ---------------------------------------------------------------- histories count what the run did

  lemma RunPrefix(c: Config, ss: seq<State>, es: seq<Step>, n: nat)
    requires IsRun(c, ss, es) && n <= |es|
    ensures IsRun(c, ss[..n + 1], es[..n])
  {
    var tt, fs := ss[..n + 1], es[..n];
    forall i | 0 <= i < n ensures StepAt(c, tt, fs, i) { assert StepAt(c, ss, es, i); }
  }

  // A step on a row that does not exist yet concerns other jobs.
  lemma AbsentUntouched(c: Config, s: State, e: Step, j: JobId)
    requires Inv(c, s) && Enabled(c, s, e) && j !in s.rows
    ensures !ClaimsJob(e, j) && !ReapsJob(e, j) && !SendsJob(e, j)
    ensures j in Apply(c, s, e).rows ==> Apply(c, s, e).log[j] == []
  {
    match e
    case Send(w, j0, _) => assert TaskOk(c, s, w, j0);
    case TryFinalize(w, j0, _, _) => assert TaskOk(c, s, w, j0);
    case _ =>
  }

  // One step adds to the counts exactly what it did to the job.
  ghost predicate CountsMove(s: State, e: Step, s': State, j: JobId) {
    && |LogOf(s', j)| == |LogOf(s, j)| + (if ClaimsJob(e, j) then 1 else 0)
    && TotalSends(LogOf(s', j)) == TotalSends(LogOf(s, j)) + (if SendsJob(e, j) then 1 else 0)
    && CountEnd(LogOf(s', j), ByReap) == CountEnd(LogOf(s, j), ByReap) + (if ReapsJob(e, j) then 1 else 0)
    && CountEnd(LogOf(s', j), ByRetry) == CountEnd(LogOf(s, j), ByRetry) + (if RetriesJob(s, e, s', j) then 1 else 0)
  }

  lemma CountsStep(c: Config, s: State, e: Step, j: JobId)
    requires Inv(c, s) && Enabled(c, s, e)
    ensures CountsMove(s, e, Apply(c, s, e), j)
  {
    if j in s.rows {
      TrackStep(c, s, e, j);
    } else {
      AbsentUntouched(c, s, e, j);
      InvStep(c, s, e);
    }
  }

  lemma {:induction false} HistoryCountsRun(c: Config, ss: seq<State>, es: seq<Step>, j: JobId)
    requires IsRun(c, ss, es)
    ensures var L := LogOf(ss[|es|], j);
            && |L| == ClaimsOf(es, j) && TotalSends(L) == SendsOf(es, j)
            && CountEnd(L, ByReap) == ReapsOf(es, j) && CountEnd(L, ByRetry) == RetriesOf(ss, es, j)
  {
    var n := |es|;
    if n > 0 {
      RunPrefix(c, ss, es, n - 1);
      HistoryCountsRun(c, ss[..n], es[..n - 1], j);
      InvRun(c, ss, es, n - 1);
      assert StepAt(c, ss, es, n - 1);
      CountsStep(c, ss[n - 1], es[n - 1], j);
    }
  }

  lemma {:induction false} HistoryGrows(c: Config, ss: seq<State>, es: seq<Step>, i: nat, k: nat, j: JobId)
    requires IsRun(c, ss, es) && i <= k < |ss| && j in ss[i].rows
    ensures j in ss[k].rows && Grows(LogOf(ss[i], j), LogOf(ss[k], j))
    decreases k
  {
    if i < k {
      HistoryGrows(c, ss, es, i, k - 1, j);
      InvRun(c, ss, es, k - 1);
      assert StepAt(c, ss, es, k - 1);
      TrackStep(c, ss[k - 1], es[k - 1], j);
    }
  }

  // ---------------------------------------------------------------- arithmetic of one history

  // Only reaped claims can leave an accepted send behind them, apart from the newest claim.
  lemma {:induction false} SendsBelowReaps(c: Config, L: seq<ClaimRec>)
    requires forall i :: 0 <= i < |L| ==> RecOk(c, i, L[i]) && L[i].end in {ByRetry, ByReap}
    ensures TotalSends(L) <= CountEnd(L, ByReap)
  {
    if L != [] {
      assert RecOk(c, |L| - 1, L[|L| - 1]);
      SendsBelowReaps(c, L[..|L| - 1]);
    }
  }

  lemma {:induction false} RetriesBounded(c: Config, L: seq<ClaimRec>)
    requires forall i :: 0 <= i < |L| ==> RecOk(c, i, L[i])
    ensures CountEnd(L, ByRetry) <= |L|
    ensures CountEnd(L, ByRetry) <= if c.maxAttempts >= 1 then c.maxAttempts - 1 else 0
  {
    if L != [] {
      assert RecOk(c, |L| - 1, L[|L| - 1]);
      RetriesBounded(c, L[..|L| - 1]);
    }
  }

  lemma {:induction false} EndsPartition(L: seq<ClaimRec>)
    requires forall i :: 0 <= i < |L| ==> L[i].end in {ByRetry, ByReap}
    ensures |L| == CountEnd(L, ByRetry) + CountEnd(L, ByReap)
  {
    if L != [] {
      EndsPartition(L[..|L| - 1]);
    }
  }

  // ---------------------------------------------------------------- theorems

  // A finalizer that changes anything changes one row, and that row is still under the claim
  // whose task ran it: the worker id alone never stands for a later claim of the same worker.
  lemma FenceNeverConfusesClaims(c: Config, ss: seq<State>, es: seq<Step>, i: nat)
    requires IsRun(c, ss, es) && i < |es| && es[i].TryFinalize?
    requires ss[i + 1].rows != ss[i].rows
    ensures var s, w, j := ss[i], es[i].w, es[i].j;
            && w in s.workers && j in s.workers[w].batch && j in s.rows
            && s.rows[j].attempts == s.workers[w].batch[j].attempts
            && s.rows[j].lockedBy == Some(w) && s.rows[j].status == Processing
            && j in ss[i + 1].rows && ss[i + 1].rows == s.rows[j := ss[i + 1].rows[j]]
            && ss[i + 1].rows[j].status != Processing
  {
    assert StepAt(c, ss, es, i);
    InvRun(c, ss, es, i);
    FenceIsClaim(c, ss[i], es[i].w, es[i].j);
  }

  // An effective finalizer ends the claim its row was under.
  lemma FinalizedClaimEnds(c: Config, ss: seq<State>, es: seq<Step>, i: nat)
    requires IsRun(c, ss, es) && i < |es| && es[i].TryFinalize? && ss[i + 1].rows != ss[i].rows
    ensures var j := es[i].j;
            && j in ss[i].rows && j in ss[i + 1].rows
            && 1 <= ss[i].rows[j].attempts == |LogOf(ss[i], j)| == |LogOf(ss[i + 1], j)|
            && LogOf(ss[i], j)[ss[i].rows[j].attempts - 1].end == Open
            && LogOf(ss[i + 1], j)[ss[i].rows[j].attempts - 1].end != Open
  {
    FenceNeverConfusesClaims(c, ss, es, i);
    assert StepAt(c, ss, es, i);
    InvRun(c, ss, es, i);
    assert JobOk(c, ss[i], es[i].j);
  }

  // The outcome worker `w` last sent job `j` with, among the first `n` steps.
  function LastOutcome(es: seq<Step>, n: nat, w: WorkerId, j: JobId): Option<Outcome>
    requires n <= |es|
  {
    if n == 0 then None
    else if es[n - 1].Send? && es[n - 1].w == w && es[n - 1].j == j then Some(es[n - 1].outcome)
    else LastOutcome(es, n - 1, w, j)
  }

  lemma SentStep(c: Config, s: State, e: Step, w: WorkerId, j: JobId)
    requires Enabled(c, s, e) && w in Apply(c, s, e).workers && j in Apply(c, s, e).workers[w].batch
    requires Apply(c, s, e).workers[w].batch[j].phase.Sent?
    ensures var o := Apply(c, s, e).workers[w].batch[j].phase.outcome;
            if e.Send? && e.w == w && e.j == j then e.outcome == o
            else w in s.workers && j in s.workers[w].batch && s.workers[w].batch[j].phase.Sent? && s.workers[w].batch[j].phase.outcome == o
  {
  }

  lemma {:induction false} SentWithLastOutcome(c: Config, ss: seq<State>, es: seq<Step>, n: nat, w: WorkerId, j: JobId)
    requires IsRun(c, ss, es) && n < |ss| && w in ss[n].workers && j in ss[n].workers[w].batch
    requires ss[n].workers[w].batch[j].phase.Sent?
    ensures LastOutcome(es, n, w, j) == Some(ss[n].workers[w].batch[j].phase.outcome)
  {
    if n > 0 {
      assert StepAt(c, ss, es, n - 1);
      SentStep(c, ss[n - 1], es[n - 1], w, j);
      if !(es[n - 1].Send? && es[n - 1].w == w && es[n - 1].j == j) { SentWithLastOutcome(c, ss, es, n - 1, w, j); }
    }
  }

  // What a row becomes when its job ends attempt `a` with outcome `o` at time `now`.
  predicate EndsAs(c: Config, r: Row, r': Row, o: Outcome, a: nat, now: int)
    requires a >= 1
  {
    && r'.attempts == r.attempts && r'.heartbeatAt == r.heartbeatAt
    && (r'.status == Completed <==> o == Accepted)
    && (r'.status == Failed <==> o.Permanent? || (o.Transient? && a >= c.maxAttempts))
    && (r'.status == Pending <==> o.Transient? && a < c.maxAttempts)
    && r'.lastError == (if o == Accepted then r.lastError else Some(o.error))
    && r'.lockedBy == (if r'.status == Pending then None else r.lockedBy)
    && r'.nextAttemptAt == (if r'.status == Pending then now + c.backoffBase * Pow4(a - 1) else r.nextAttemptAt)
  }

  // In every run an effective finalizer ends the row as the outcome of the send and the attempt
  // number demand: completed, failed for good, or back in the queue after the backoff.
  lemma FinalizedAsOutcome(c: Config, ss: seq<State>, es: seq<Step>, i: nat)
    requires IsRun(c, ss, es) && i < |es| && es[i].TryFinalize? && ss[i + 1].rows != ss[i].rows
    ensures var j, o := es[i].j, LastOutcome(es, i, es[i].w, es[i].j);
            && o.Some? && j in ss[i].rows && j in ss[i + 1].rows && ss[i].rows[j].attempts >= 1
            && EndsAs(c, ss[i].rows[j], ss[i + 1].rows[j], o.value, ss[i].rows[j].attempts, ss[i].now)
  {
    FenceNeverConfusesClaims(c, ss, es, i);
    assert StepAt(c, ss, es, i);
    SentWithLastOutcome(c, ss, es, i, es[i].w, es[i].j);
  }

  // A retried row waits unclaimed until its due time.
  ghost predicate WaitsUntil(s: State, j: JobId, due: int) {
    s.now >= due || (j in s.rows && s.rows[j].status == Pending && s.rows[j].nextAttemptAt == due)
  }

  lemma WaitStep(c: Config, s: State, e: Step, j: JobId, due: int)
    requires Enabled(c, s, e) && WaitsUntil(s, j, due)
    ensures WaitsUntil(Apply(c, s, e), j, due) && (ClaimsJob(e, j) ==> s.now >= due)
  {
    if ClaimsJob(e, j) { assert j in Due(s.rows, s.now); }
  }

  lemma {:induction false} WaitsOn(c: Config, ss: seq<State>, es: seq<Step>, k: nat, i: nat, j: JobId, due: int)
    requires IsRun(c, ss, es) && k <= i < |ss| && WaitsUntil(ss[k], j, due)
    ensures WaitsUntil(ss[i], j, due)
    decreases i
  {
    if k < i {
      WaitsOn(c, ss, es, k, i - 1, j, due);
      assert StepAt(c, ss, es, i - 1);
      WaitStep(c, ss[i - 1], es[i - 1], j, due);
    }
  }

  // No job is claimed before its backoff is over: a claim after a retry of attempt `a` comes at
  // least base * 4^(a - 1) later.
  lemma BackoffRespected(c: Config, ss: seq<State>, es: seq<Step>, k: nat, i: nat, j: JobId)
    requires IsRun(c, ss, es) && k < i < |es| && RetriesJob(ss[k], es[k], ss[k + 1], j) && ClaimsJob(es[i], j)
    ensures ss[k].rows[j].attempts >= 1
    ensures ss[i].now >= ss[k].now + c.backoffBase * Pow4(ss[k].rows[j].attempts - 1)
  {
    FinalizedAsOutcome(c, ss, es, k);
    var due := ss[k + 1].rows[j].nextAttemptAt;
    assert WaitsUntil(ss[k + 1], j, due);
    WaitsOn(c, ss, es, k + 1, i, j, due);
    assert StepAt(c, ss, es, k) && StepAt(c, ss, es, i);
    WaitStep(c, ss[i], es[i], j, due);
  }

  // A claim takes only rows that are pending and due, under a fresh lease.
  lemma ClaimsTakeDueRows(c: Config, ss: seq<State>, es: seq<Step>, i: nat, j: JobId)
    requires IsRun(c, ss, es) && i < |es| && ClaimsJob(es[i], j)
    ensures j in ss[i].rows && j in ss[i + 1].rows
    ensures ss[i].rows[j].status == Pending && ss[i].rows[j].nextAttemptAt <= ss[i].now
    ensures ss[i + 1].rows[j] == ss[i].rows[j].(status := Processing, lockedBy := Some(es[i].w), heartbeatAt := ss[i].now,
                                                attempts := ss[i].rows[j].attempts + 1)
  {
    assert StepAt(c, ss, es, i);
    assert j in Due(ss[i].rows, ss[i].now);
  }

  // No claim is finalized twice: two effective finalizers of a job belong to different claims,
  // the later one to the later claim.
  lemma EachClaimFinalizedOnce(c: Config, ss: seq<State>, es: seq<Step>, i: nat, k: nat)
    requires IsRun(c, ss, es) && i < k < |es|
    requires es[i].TryFinalize? && es[k].TryFinalize? && es[i].j == es[k].j
    requires ss[i + 1].rows != ss[i].rows && ss[k + 1].rows != ss[k].rows
    ensures es[i].j in ss[i].rows && es[i].j in ss[k].rows
    ensures ss[i].rows[es[i].j].attempts < ss[k].rows[es[k].j].attempts
  {
    FinalizedClaimEnds(c, ss, es, i);
    FinalizedClaimEnds(c, ss, es, k);
    HistoryGrows(c, ss, es, i + 1, k, es[i].j);
  }

  // Accepted sends of a job: at most one more than the times it was reaped; and a completed
  // job had one.
  lemma NearExactlyOnce(c: Config, ss: seq<State>, es: seq<Step>, j: JobId)
    requires IsRun(c, ss, es) && j in ss[|es|].rows
    ensures SendsOf(es, j) <= 1 + ReapsOf(es, j)
    ensures ss[|es|].rows[j].status == Completed ==> SendsOf(es, j) >= 1
    ensures ss[|es|].rows[j].status in {Pending, Failed} ==> SendsOf(es, j) <= ReapsOf(es, j)
  {
    HistoryCountsRun(c, ss, es, j);
    InvRun(c, ss, es, |es|);
    assert JobOk(c, ss[|es|], j);
    var L := ss[|es|].log[j];
    if L != [] {
      assert RecOk(c, |L| - 1, L[|L| - 1]);
      SendsBelowReaps(c, L[..|L| - 1]);
    }
  }

  // Terminal rows are never touched again.
  lemma {:induction false} TerminalForever(c: Config, ss: seq<State>, es: seq<Step>, i: nat, k: nat, j: JobId)
    requires IsRun(c, ss, es) && i <= k < |ss|
    requires j in ss[i].rows && ss[i].rows[j].status in {Completed, Failed}
    ensures j in ss[k].rows && ss[k].rows[j] == ss[i].rows[j]
    decreases k
  {
    if i < k {
      TerminalForever(c, ss, es, i, k - 1, j);
      assert StepAt(c, ss, es, k - 1);
    }
  }

  // Attempts count the claims, reaps pay for every claim beyond the limit, and backoff
  // retries stay below it.
  lemma AttemptAccounting(c: Config, ss: seq<State>, es: seq<Step>, j: JobId)
    requires IsRun(c, ss, es) && j in ss[|es|].rows
    ensures ss[|es|].rows[j].attempts == ClaimsOf(es, j)
    ensures ss[|es|].rows[j].attempts <= (if c.maxAttempts >= 1 then c.maxAttempts else 1) + ReapsOf(es, j)
    ensures RetriesOf(ss, es, j) <= if c.maxAttempts >= 1 then c.maxAttempts - 1 else 0
  {
    HistoryCountsRun(c, ss, es, j);
    InvRun(c, ss, es, |es|);
    assert JobOk(c, ss[|es|], j);
    var L := ss[|es|].log[j];
    RetriesBounded(c, L);
    if L != [] {
      EndsPartition(L[..|L| - 1]);
      RetriesBounded(c, L[..|L| - 1]);
    }
  }

  // Every leased row has a known owner; if that owner is running, the row is unfinished work of
  // its current batch. So a worker between batches holds nothing and renews nothing.
  lemma NoAbandonedJobKeptFresh(c: Config, ss: seq<State>, es: seq<Step>, i: nat)
    requires IsRun(c, ss, es) && i < |ss|
    ensures forall j :: j in ss[i].rows && ss[i].rows[j].status == Processing ==>
              && ss[i].rows[j].lockedBy.Some?
              && var w := ss[i].rows[j].lockedBy.value;
                 && w in ss[i].workers
                 && (ss[i].workers[w].mode == Running ==>
                       j in ss[i].workers[w].batch && ss[i].workers[w].batch[j].phase != Done)
    ensures forall w :: w in ss[i].workers && ss[i].workers[w].mode == Running && ss[i].workers[w].batch == map[] ==>
              RenewRows(ss[i].rows, w, ss[i].now) == ss[i].rows
  {
    InvRun(c, ss, es, i);
    var s := ss[i];
    forall j | j in s.rows && s.rows[j].status == Processing
      ensures && s.rows[j].lockedBy.Some?
              && var w := s.rows[j].lockedBy.value;
                 && w in s.workers
                 && (s.workers[w].mode == Running ==> j in s.workers[w].batch && s.workers[w].batch[j].phase != Done)
    {
      assert JobOk(c, s, j);
      assert HoldOk(s, s.rows[j].lockedBy.value, j);
    }
    forall w | w in s.workers && s.workers[w].mode == Running && s.workers[w].batch == map[]
      ensures RenewRows(s.rows, w, s.now) == s.rows
    {
      forall j | j in s.rows ensures !Fence(s.rows, j, w) { assert HoldOk(s, w, j); }
    }
  }

  // The worker that takes a step, if one does.
  function Actor(e: Step): Option<WorkerId> {
    match e
    case Tick(_) => None
    case Insert(_, _) => None
    case Reap(_) => None
    case Start(w) => Some(w)
    case Claim(w, _) => Some(w)
    case ClaimUnreported(w, _) => Some(w)
    case Send(w, _, _) => Some(w)
    case TryFinalize(w, _, _, _) => Some(w)
    case BatchDone(w) => Some(w)
    case Renew(w) => Some(w)
    case RenewReport(w, _) => Some(w)
    case Fail(w) => Some(w)
    case Exit(w) => Some(w)
  }

  predicate Ended(s: State, w: WorkerId, mode: Mode) {
    w in s.workers && (s.workers[w].mode == Dead || (mode == Failing && s.workers[w].mode == Failing))
  }

  lemma EndedStep(c: Config, s: State, e: Step, w: WorkerId, mode: Mode)
    requires Enabled(c, s, e) && Ended(s, w, mode)
    ensures Ended(Apply(c, s, e), w, mode) && !(ClaimStepOf(e, w))
    ensures mode == Dead ==> Actor(e) != Some(w)
  {
  }

  predicate ClaimStepOf(e: Step, w: WorkerId) {
    (e.Claim? || e.ClaimUnreported?) && e.w == w
  }

  lemma {:induction false} EndedForGood(c: Config, ss: seq<State>, es: seq<Step>, k: nat, i: nat, w: WorkerId, mode: Mode)
    requires IsRun(c, ss, es) && k <= i < |ss| && Ended(ss[k], w, mode)
    ensures Ended(ss[i], w, mode)
    decreases i
  {
    if k < i {
      EndedForGood(c, ss, es, k, i - 1, w, mode);
      assert StepAt(c, ss, es, i - 1);
      EndedStep(c, ss[i - 1], es[i - 1], w, mode);
    }
  }

  // A worker whose consumer failed claims nothing more, and one that exited takes no step at all;
  // no other process ever acts under its id.
  lemma FailedNeverClaims(c: Config, ss: seq<State>, es: seq<Step>, k: nat, i: nat, w: WorkerId)
    requires IsRun(c, ss, es) && k < i < |es| && (es[k] == Fail(w) || es[k] == Exit(w))
    ensures !ClaimStepOf(es[i], w) && (es[k] == Exit(w) ==> Actor(es[i]) != Some(w))
  {
    var mode := if es[k] == Exit(w) then Dead else Failing;
    assert StepAt(c, ss, es, k) && StepAt(c, ss, es, i);
    EndedForGood(c, ss, es, k + 1, i, w, mode);
    EndedStep(c, ss[i], es[i], w, mode);
  }

  lemma DeadStep(c: Config, s: State, e: Step, w: WorkerId, j: JobId)
    requires Enabled(c, s, e) && w in s.workers && s.workers[w].mode == Dead && j in s.rows
    ensures w in Apply(c, s, e).workers && Apply(c, s, e).workers[w].mode == Dead && j in Apply(c, s, e).rows
    ensures Fence(Apply(c, s, e).rows, j, w) ==> Apply(c, s, e).rows[j] == s.rows[j]
  {
  }

  // A dead worker's lease is frozen until some reaper takes it, which it may as soon as the
  // heartbeat is too old.
  lemma {:induction false} DeadLeaseIsReapable(c: Config, ss: seq<State>, es: seq<Step>, i: nat, k: nat, w: WorkerId, j: JobId)
    requires IsRun(c, ss, es) && i <= k < |ss|
    requires w in ss[i].workers && ss[i].workers[w].mode == Dead && Fence(ss[i].rows, j, w)
    ensures w in ss[k].workers && ss[k].workers[w].mode == Dead
    ensures j in ss[k].rows
    ensures Fence(ss[k].rows, j, w) ==>
              && ss[k].rows[j] == ss[i].rows[j]
              && (ss[i].rows[j].heartbeatAt + c.reaperIdle < ss[k].now ==> Enabled(c, ss[k], Reap({j})))
    decreases k
  {
    if i < k {
      DeadLeaseIsReapable(c, ss, es, i, k - 1, w, j);
      assert StepAt(c, ss, es, k - 1);
      DeadStep(c, ss[k - 1], es[k - 1], w, j);
    }
  }

  // A reaper only ever takes a row whose owner's last committed renewal is older than the
  // idle limit; a worker that renews in time is never reaped.
  lemma LeaseSafety(c: Config, ss: seq<State>, es: seq<Step>, i: nat, j: JobId)
    requires IsRun(c, ss, es) && i < |es| && ReapsJob(es[i], j)
    ensures j in ss[i].rows && ss[i].rows[j].lockedBy.Some?
    ensures var w := ss[i].rows[j].lockedBy.value;
            w in ss[i].workers && ss[i].now - ss[i].workers[w].lastCommit > c.reaperIdle
  {
    InvRun(c, ss, es, i);
    assert StepAt(c, ss, es, i);
    assert JobOk(c, ss[i], j);
    assert HoldOk(ss[i], ss[i].rows[j].lockedBy.value, j);
  }

  // ---------------------------------------------------------------- how fresh a lease is

  // The last of the first `n` steps that claims job `j`.
  function LastClaim(es: seq<Step>, n: nat, j: JobId): Option<nat>
    requires n <= |es|
  {
    if n == 0 then None
    else if ClaimsJob(es[n - 1], j) then Some(n - 1)
    else LastClaim(es, n - 1, j)
  }

  function Latest(a: int, b: int): int { if a < b then b else a }

  // Worker `w` holds the row, claimed at `at`, with the heartbeat of that claim or of its own
  // last committed renewal, whichever is later.
  predicate HeldSince(s: State, w: WorkerId, j: JobId, at: int) {
    && w in s.workers && Fence(s.rows, j, w) && at <= s.now
    && s.rows[j].heartbeatAt == Latest(at, s.workers[w].lastCommit)
  }

  lemma HoldStarts(c: Config, s: State, e: Step, w: WorkerId, j: JobId)
    requires Enabled(c, s, e) && ClaimsJob(e, j) && Fence(Apply(c, s, e).rows, j, w)
    requires forall k :: k in s.workers ==> s.workers[k].lastCommit <= s.now
    ensures e.w == w && HeldSince(Apply(c, s, e), w, j, s.now)
  {
    assert j in Due(s.rows, s.now);
  }

  lemma HoldKept(c: Config, s: State, e: Step, w: WorkerId, j: JobId, at: int)
    requires Enabled(c, s, e) && !ClaimsJob(e, j) && Fence(Apply(c, s, e).rows, j, w)
    requires Fence(s.rows, j, w) ==> HeldSince(s, w, j, at)
    ensures Fence(s.rows, j, w) && HeldSince(Apply(c, s, e), w, j, at)
  {
  }

  // In every run the heartbeat of a held row is the time of the claim it is under, or of its
  // owner's last committed renewal if that is later.
  lemma {:induction false} HeartbeatIsClaimOrRenewal(c: Config, ss: seq<State>, es: seq<Step>, n: nat, w: WorkerId, j: JobId)
    requires IsRun(c, ss, es) && n < |ss| && Fence(ss[n].rows, j, w)
    ensures w in ss[n].workers
    ensures var m := LastClaim(es, n, j);
            && m.Some? && m.value < n && ClaimsJob(es[m.value], j) && es[m.value].w == w
            && ss[n].rows[j].heartbeatAt == Latest(ss[m.value].now, ss[n].workers[w].lastCommit)
            && ss[m.value].now <= ss[n].now
  {
    if n > 0 {
      var s, e := ss[n - 1], es[n - 1];
      assert StepAt(c, ss, es, n - 1);
      InvRun(c, ss, es, n - 1);
      if ClaimsJob(e, j) {
        forall k | k in s.workers ensures s.workers[k].lastCommit <= s.now { assert ClockOk(s, k); }
        HoldStarts(c, s, e, w, j);
      } else {
        if Fence(s.rows, j, w) { HeartbeatIsClaimOrRenewal(c, ss, es, n - 1, w, j); }
        var m := LastClaim(es, n - 1, j);
        HoldKept(c, s, e, w, j, if m.Some? then ss[m.value].now else 0);
      }
    }
  }

  // A lease may be reaped exactly when both its claim and its owner's last committed renewal
  // are older than the idle limit.
  lemma StaleIff(c: Config, ss: seq<State>, es: seq<Step>, n: nat, w: WorkerId, j: JobId)
    requires IsRun(c, ss, es) && n < |ss| && Fence(ss[n].rows, j, w)
    ensures w in ss[n].workers && LastClaim(es, n, j).Some? && LastClaim(es, n, j).value < n
    ensures j in Stale(ss[n].rows, ss[n].now, c.reaperIdle) <==>
              && ss[n].now - ss[LastClaim(es, n, j).value].now > c.reaperIdle
              && ss[n].now - ss[n].workers[w].lastCommit > c.reaperIdle
  {
    HeartbeatIsClaimOrRenewal(c, ss, es, n, w, j);
  }

  // The clock when worker `w` last committed a renewal, or started, in the first `n` steps.
  function LastRenewal(ss: seq<State>, es: seq<Step>, n: nat, w: WorkerId): Option<int>
    requires |ss| == |es| + 1 && n <= |es|
  {
    if n == 0 then None
    else if es[n - 1] == Renew(w) || es[n - 1] == Start(w) then Some(ss[n - 1].now)
    else LastRenewal(ss, es, n - 1, w)
  }

  // The clock when it last saw a renewal succeed, or started.
  function LastSeen(ss: seq<State>, es: seq<Step>, n: nat, w: WorkerId): Option<int>
    requires |ss| == |es| + 1 && n <= |es|
  {
    if n == 0 then None
    else if es[n - 1] == RenewReport(w, true) || es[n - 1] == Start(w) then Some(ss[n - 1].now)
    else LastSeen(ss, es, n - 1, w)
  }

  lemma ClocksStep(c: Config, s: State, e: Step, w: WorkerId)
    requires Enabled(c, s, e) && w in Apply(c, s, e).workers
    ensures w in s.workers || e == Start(w)
    ensures var k' := Apply(c, s, e).workers[w];
            && k'.lastCommit == (if e == Renew(w) || e == Start(w) then s.now else s.workers[w].lastCommit)
            && k'.lastSuccess == (if e == RenewReport(w, true) || e == Start(w) then s.now else s.workers[w].lastSuccess)
            && (k'.leaseLost <==> e != Start(w) && (s.workers[w].leaseLost ||
                                  (e == RenewReport(w, false) && s.now - s.workers[w].lastSuccess > c.reaperIdle)))
  {
  }

  // A worker's own clocks are those of its steps.
  lemma {:induction false} ClocksAreSteps(c: Config, ss: seq<State>, es: seq<Step>, n: nat, w: WorkerId)
    requires IsRun(c, ss, es) && n < |ss| && w in ss[n].workers
    ensures LastRenewal(ss, es, n, w) == Some(ss[n].workers[w].lastCommit)
    ensures LastSeen(ss, es, n, w) == Some(ss[n].workers[w].lastSuccess)
  {
    if n > 0 {
      assert StepAt(c, ss, es, n - 1);
      ClocksStep(c, ss[n - 1], es[n - 1], w);
      if w in ss[n - 1].workers { ClocksAreSteps(c, ss, es, n - 1, w); }
    }
  }

  // At step `m` a renewal failed with none seen to succeed within the idle limit.
  ghost predicate GaveUpAt(c: Config, ss: seq<State>, es: seq<Step>, m: nat, w: WorkerId)
    requires |ss| == |es| + 1 && m < |es|
  {
    && es[m] == RenewReport(w, false)
    && LastSeen(ss, es, m, w).Some? && ss[m].now - LastSeen(ss, es, m, w).value > c.reaperIdle
  }

  // In every run the lease counts as lost exactly from the first such renewal on.
  lemma {:induction false} LeaseLostIff(c: Config, ss: seq<State>, es: seq<Step>, n: nat, w: WorkerId)
    requires IsRun(c, ss, es) && n < |ss| && w in ss[n].workers
    ensures ss[n].workers[w].leaseLost <==> exists m: nat :: m < n && GaveUpAt(c, ss, es, m, w)
  {
    if n > 0 {
      assert StepAt(c, ss, es, n - 1);
      ClocksStep(c, ss[n - 1], es[n - 1], w);
      if w in ss[n - 1].workers {
        LeaseLostIff(c, ss, es, n - 1, w);
        ClocksAreSteps(c, ss, es, n - 1, w);
        assert GaveUpAt(c, ss, es, n - 1, w) <==> es[n - 1] == RenewReport(w, false) && ss[n - 1].now - ss[n - 1].workers[w].lastSuccess > c.reaperIdle;
      } else {
        forall m: nat | m < n ensures !GaveUpAt(c, ss, es, m, w) { NotStartedYet(c, ss, es, n - 1, m, w); }
      }
    }
  }

  // A worker that has not started has taken no step.
  lemma {:induction false} NotStartedYet(c: Config, ss: seq<State>, es: seq<Step>, n: nat, m: nat, w: WorkerId)
    requires IsRun(c, ss, es) && m <= n < |es| && w !in ss[n].workers && es[n] == Start(w)
    ensures !GaveUpAt(c, ss, es, m, w)
  {
    if m < n {
      WorkersStay(c, ss, es, m, n, w);
      assert StepAt(c, ss, es, m);
    }
  }

  lemma {:induction false} WorkersStay(c: Config, ss: seq<State>, es: seq<Step>, m: nat, n: nat, w: WorkerId)
    requires IsRun(c, ss, es) && m <= n < |ss| && w !in ss[n].workers
    ensures w !in ss[m].workers
    decreases n
  {
    if m < n {
      assert StepAt(c, ss, es, n - 1);
      WorkersStep(c, ss[n - 1], es[n - 1], w);
      WorkersStay(c, ss, es, m, n - 1, w);
    }
  }

  lemma WorkersStep(c: Config, s: State, e: Step, w: WorkerId)
    requires Enabled(c, s, e)
    ensures w in s.workers ==> w in Apply(c, s, e).workers
  {
  }

  // `lease_lost` means that no renewal was seen to succeed within the idle limit.
  lemma {:induction false} LeaseLostIsSilent(c: Config, ss: seq<State>, es: seq<Step>, n: nat, w: WorkerId)
    requires IsRun(c, ss, es) && n < |ss| && w in ss[n].workers && ss[n].workers[w].leaseLost
    ensures ss[n].now - ss[n].workers[w].lastSuccess > c.reaperIdle
  {
    if n > 0 {
      assert StepAt(c, ss, es, n - 1);
      LostStep(c, ss[n - 1], es[n - 1], w);
      if w in ss[n - 1].workers && ss[n - 1].workers[w].leaseLost { LeaseLostIsSilent(c, ss, es, n - 1, w); }
    }
  }

  lemma LostStep(c: Config, s: State, e: Step, w: WorkerId)
    requires Enabled(c, s, e) && w in Apply(c, s, e).workers && Apply(c, s, e).workers[w].leaseLost
    ensures s.now <= Apply(c, s, e).now
    ensures if w in s.workers && s.workers[w].leaseLost
            then Apply(c, s, e).workers[w].lastSuccess == s.workers[w].lastSuccess
            else s.now - Apply(c, s, e).workers[w].lastSuccess > c.reaperIdle
  {
  }

  // A worker that gave up its lease has nothing left that could be kept from other workers,
  // except what it claimed, or renewed without seeing it, within the idle limit.
  lemma LeaseLostAllStaleIff(c: Config, ss: seq<State>, es: seq<Step>, n: nat, w: WorkerId)
    requires IsRun(c, ss, es) && n < |ss| && w in ss[n].workers && ss[n].workers[w].leaseLost
    ensures ss[n].now - ss[n].workers[w].lastSuccess > c.reaperIdle
    ensures forall j :: Fence(ss[n].rows, j, w) ==> LastClaim(es, n, j).Some? && LastClaim(es, n, j).value < n
    ensures (forall j :: Fence(ss[n].rows, j, w) ==> j in Stale(ss[n].rows, ss[n].now, c.reaperIdle)) <==>
            (forall j :: Fence(ss[n].rows, j, w) ==>
               && ss[n].now - ss[LastClaim(es, n, j).value].now > c.reaperIdle
               && ss[n].now - ss[n].workers[w].lastCommit > c.reaperIdle)
  {
    LeaseLostIsSilent(c, ss, es, n, w);
    forall j | Fence(ss[n].rows, j, w)
      ensures LastClaim(es, n, j).Some? && LastClaim(es, n, j).value < n
      ensures j in Stale(ss[n].rows, ss[n].now, c.reaperIdle) <==>
                && ss[n].now - ss[LastClaim(es, n, j).value].now > c.reaperIdle
                && ss[n].now - ss[n].workers[w].lastCommit > c.reaperIdle
    {
      StaleIff(c, ss, es, n, w, j);
    }
  }
}
