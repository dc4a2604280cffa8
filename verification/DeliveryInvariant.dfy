/** The inductive invariant of the delivery protocol, and the proof that every step keeps it. */
module DeliveryInvariant {
  import opened Basics
  import opened Outbox
  import opened Delivery

  // What a claim record may say, by its position in the job's history.
  predicate RecOk(c: Config, i: nat, rec: ClaimRec) {
    && rec.sends <= 1
    && (rec.sends == 1 ==> rec.end in {Open, ByReap, ByCompleted})
    && (rec.end == ByCompleted ==> rec.sends == 1)
    && (rec.end == ByRetry ==> i + 1 < c.maxAttempts)
  }

  // The row and the newest claim record agree.
  predicate RowMatchesLog(r: Row, L: seq<ClaimRec>) {
    && |L| == r.attempts
    && match r.status
       case Pending => r.lockedBy == None && (L == [] || L[|L| - 1].end in {ByRetry, ByReap})
       case Processing => L != [] && L[|L| - 1].end == Open && r.lockedBy == Some(L[|L| - 1].owner)
       case Completed => L != [] && L[|L| - 1].end == ByCompleted
       case Failed => L != [] && L[|L| - 1].end == ByFailed
  }

  // A row and its claim history fit together; only the newest claim can be open or final.
  predicate JobFits(c: Config, r: Row, L: seq<ClaimRec>) {
    && RowMatchesLog(r, L)
    && (forall i :: 0 <= i < |L| ==> RecOk(c, i, L[i]))
    && (forall i :: 0 <= i < |L| - 1 ==> L[i].end in {ByRetry, ByReap})
  }

  predicate OwnersKnown(s: State, L: seq<ClaimRec>) {
    forall i :: 0 <= i < |L| ==> L[i].owner in s.workers
  }

  predicate JobOk(c: Config, s: State, j: JobId)
    requires j in s.rows && j in s.log
  {
    JobFits(c, s.rows[j], s.log[j]) && OwnersKnown(s, s.log[j])
  }

  // The ends a claim may have while its task is in the given phase.
  predicate PhaseOk(c: Config, t: Task, rec: ClaimRec)
    requires t.attempts >= 1
  {
    match t.phase
    case Queued => rec.sends == 0 && rec.end in {Open, ByReap}
    case Sent(o, tries) =>
      && rec.sends == (if o == Accepted then 1 else 0)
      && rec.end in {Open, ByReap, EndOf(FinalizerFor(c, o, t.attempts))}
    case Done => rec.end != Open
  }

  // A task belongs to one claim by its worker, and the worker has not claimed the job again.
  predicate TaskFits(c: Config, w: WorkerId, t: Task, L: seq<ClaimRec>) {
    && 1 <= t.attempts <= |L|
    && L[t.attempts - 1].owner == w
    && PhaseOk(c, t, L[t.attempts - 1])
    && forall i :: t.attempts <= i < |L| ==> L[i].owner != w
  }

  predicate TaskOk(c: Config, s: State, w: WorkerId, j: JobId)
    requires w in s.workers && j in s.workers[w].batch
  {
    j in s.log && TaskFits(c, w, s.workers[w].batch[j], s.log[j])
  }

  // A running worker's rows are exactly in its batch; any holder's heartbeat is recent enough.
  predicate HoldOk(s: State, w: WorkerId, j: JobId)
    requires w in s.workers
  {
    Fence(s.rows, j, w) ==>
      && (s.workers[w].mode == Running ==> j in s.workers[w].batch && s.workers[w].batch[j].phase != Done)
      && s.workers[w].lastCommit <= s.rows[j].heartbeatAt
  }

  predicate ClockOk(s: State, w: WorkerId)
    requires w in s.workers
  {
    s.workers[w].lastCommit <= s.now && s.workers[w].lastSuccess <= s.now
  }

  ghost predicate Inv(c: Config, s: State) {
    && s.log.Keys == s.rows.Keys
    && (forall j {:trigger JobOk(c, s, j)} :: j in s.rows ==> JobOk(c, s, j))
    && (forall w, j {:trigger TaskOk(c, s, w, j)} :: w in s.workers && j in s.workers[w].batch ==> TaskOk(c, s, w, j))
    && (forall w, j {:trigger HoldOk(s, w, j)} :: w in s.workers && j in s.rows ==> HoldOk(s, w, j))
    && (forall w {:trigger ClockOk(s, w)} :: w in s.workers ==> ClockOk(s, w))
  }

  lemma InvInitial(c: Config, s: State)
    requires Initial(s)
    ensures Inv(c, s)
  {
  }

  // If the fence lets a worker's task through, the row is still under the task's own claim.
  lemma FenceIsClaim(c: Config, s: State, w: WorkerId, j: JobId)
    requires Inv(c, s) && w in s.workers && j in s.workers[w].batch
    requires Fence(s.rows, j, w)
    ensures s.rows[j].attempts == s.workers[w].batch[j].attempts
    ensures j in s.log && 1 <= s.rows[j].attempts == |s.log[j]| && s.log[j][s.rows[j].attempts - 1].end == Open
  {
    assert JobOk(c, s, j) && TaskOk(c, s, w, j);
  }

  // ---------------------------------------------------------------- one lemma per kind of step

  lemma KeepTick(c: Config, s: State, to: int)
    requires Inv(c, s) && s.now <= to
    ensures Inv(c, s.(now := to))
  {
    var s' := s.(now := to);
    forall j | j in s'.rows ensures JobOk(c, s', j) { assert JobOk(c, s, j); }
    forall w, j | w in s'.workers && j in s'.workers[w].batch ensures TaskOk(c, s', w, j) { assert TaskOk(c, s, w, j); }
    forall w, j | w in s'.workers && j in s'.rows ensures HoldOk(s', w, j) { assert HoldOk(s, w, j); }
    forall w | w in s'.workers ensures ClockOk(s', w) { assert ClockOk(s, w); }
  }

  lemma KeepInsert(c: Config, s: State, j0: JobId, due: int)
    requires Inv(c, s) && Enabled(c, s, Insert(j0, due))
    ensures Inv(c, Apply(c, s, Insert(j0, due)))
  {
    var s' := Apply(c, s, Insert(j0, due));
    forall j | j in s'.rows ensures JobOk(c, s', j) { if j != j0 { assert JobOk(c, s, j); } }
    forall w, j | w in s'.workers && j in s'.workers[w].batch ensures TaskOk(c, s', w, j) { assert TaskOk(c, s, w, j); }
    forall w, j | w in s'.workers && j in s'.rows ensures HoldOk(s', w, j) { if j != j0 { assert HoldOk(s, w, j); } }
    forall w | w in s'.workers ensures ClockOk(s', w) { assert ClockOk(s, w); }
  }

  // Steps that change one worker's local state only: no new task, and no task of a running
  // worker that still holds its row is dropped.
  lemma KeepWorker(c: Config, s: State, w0: WorkerId, k: Worker)
    requires Inv(c, s)
    requires w0 in s.workers || (k.batch == map[] && k.lastCommit == s.now)
    requires w0 in s.workers ==> k.lastCommit == s.workers[w0].lastCommit
    requires k.lastCommit <= s.now && k.lastSuccess <= s.now
    requires w0 in s.workers ==> k.batch == s.workers[w0].batch || k.batch == map[]
    requires w0 in s.workers && k.mode == Running ==>
      && s.workers[w0].mode == Running
      && forall j :: j in s.workers[w0].batch && j !in k.batch ==> s.workers[w0].batch[j].phase == Done
    ensures Inv(c, SetWorker(s, w0, k))
  {
    var s' := SetWorker(s, w0, k);
    forall j | j in s'.rows ensures JobOk(c, s', j) { assert JobOk(c, s, j); }
    forall w, j | w in s'.workers && j in s'.workers[w].batch ensures TaskOk(c, s', w, j) { assert TaskOk(c, s, w, j); }
    forall w, j | w in s'.workers && j in s'.rows ensures HoldOk(s', w, j) {
      assert JobOk(c, s, j);
      if w in s.workers { assert HoldOk(s, w, j); }
    }
    forall w | w in s'.workers ensures ClockOk(s', w) { if w != w0 { assert ClockOk(s, w); } }
  }

  lemma JobAppend(c: Config, r: Row, L: seq<ClaimRec>, w: WorkerId, now: int)
    requires JobFits(c, r, L) && r.status == Pending
    ensures JobFits(c, ClaimRow(r, w, now), L + [ClaimRec(w, 0, Open)])
  {
    var M := L + [ClaimRec(w, 0, Open)];
    assert forall i :: 0 <= i < |L| ==> M[i] == L[i];
    forall i | 0 <= i < |M| ensures RecOk(c, i, M[i]) { if i < |L| { assert RecOk(c, i, L[i]); } }
  }

  lemma ClaimJob(c: Config, s: State, s': State, w: WorkerId, sel: set<JobId>, j: JobId)
    requires MayClaim(s, w, sel) && s.log.Keys == s.rows.Keys && j in s.rows && JobOk(c, s, j)
    requires s'.rows == ClaimRows(s.rows, sel, w, s.now) && s'.log == LogClaims(s, w, sel)
    requires s'.workers.Keys == s.workers.Keys
    ensures JobOk(c, s', j)
  {
    if j in sel {
      JobAppend(c, s.rows[j], s.log[j], w, s.now);
      var M := s'.log[j];
      forall i | 0 <= i < |M| ensures M[i].owner in s'.workers { if i < |s.log[j]| { assert s.log[j][i].owner in s.workers; } }
    }
  }

  // ---- how one history's change affects one task

  lemma TaskAppend(c: Config, w: WorkerId, t: Task, L: seq<ClaimRec>, rec: ClaimRec)
    requires TaskFits(c, w, t, L) && rec.owner != w
    ensures TaskFits(c, w, t, L + [rec])
  {
    assert forall i :: 0 <= i < |L| ==> (L + [rec])[i] == L[i];
  }

  // An open claim ends: by a reap, or by a finalizer of its own worker.
  lemma TaskEndLast(c: Config, w: WorkerId, t: Task, L: seq<ClaimRec>, end: End)
    requires TaskFits(c, w, t, L) && L[|L| - 1].end == Open
    requires end == ByReap || L[|L| - 1].owner != w
    ensures TaskFits(c, w, t, EndLast(L, end))
  {
    var M := EndLast(L, end);
    assert forall i :: 0 <= i < |L| ==> M[i].owner == L[i].owner && M[i].sends == L[i].sends;
    assert t.attempts < |L| ==> M[t.attempts - 1] == L[t.attempts - 1];
  }

  // Another worker's accepted send is recorded under another claim.
  lemma TaskOtherSend(c: Config, w: WorkerId, t: Task, L: seq<ClaimRec>, a: nat, o: Outcome)
    requires TaskFits(c, w, t, L) && 1 <= a <= |L| && L[a - 1].owner != w
    ensures TaskFits(c, w, t, LogSend(L, a, o))
  {
    var M := LogSend(L, a, o);
    assert forall i :: 0 <= i < |L| ==> M[i].owner == L[i].owner;
  }

  lemma ClaimOthers(c: Config, s: State, s': State, w: WorkerId, sel: set<JobId>, v: WorkerId, j: JobId)
    requires Inv(c, s) && MayClaim(s, w, sel) && v in s.workers && v != w
    requires s'.rows == ClaimRows(s.rows, sel, w, s.now) && s'.log == LogClaims(s, w, sel)
    requires v in s'.workers && s'.workers[v] == s.workers[v]
    ensures j in s.workers[v].batch ==> TaskOk(c, s', v, j)
    ensures j in s.rows ==> HoldOk(s', v, j)
  {
    if j in s.workers[v].batch {
      assert TaskOk(c, s, v, j);
      TaskAppend(c, v, s.workers[v].batch[j], s.log[j], ClaimRec(w, 0, Open));
    }
    if j in s.rows { assert HoldOk(s, v, j); }
  }

  lemma KeepClaim(c: Config, s: State, w0: WorkerId, sel: set<JobId>)
    requires Inv(c, s) && Enabled(c, s, Claim(w0, sel))
    ensures Inv(c, Apply(c, s, Claim(w0, sel)))
  {
    var s' := Apply(c, s, Claim(w0, sel));
    forall j | j in s'.rows ensures JobOk(c, s', j) { assert JobOk(c, s, j); ClaimJob(c, s, s', w0, sel, j); }
    forall w, j | w in s'.workers && j in s'.workers[w].batch ensures TaskOk(c, s', w, j) {
      if w != w0 { ClaimOthers(c, s, s', w0, sel, w, j); } else { assert JobOk(c, s, j); }
    }
    forall w, j | w in s'.workers && j in s'.rows ensures HoldOk(s', w, j) {
      if w != w0 { ClaimOthers(c, s, s', w0, sel, w, j); }
      else { assert HoldOk(s, w, j); assert ClockOk(s, w); }
    }
    forall w | w in s'.workers ensures ClockOk(s', w) { assert ClockOk(s, w); }
  }

  lemma KeepClaimUnreported(c: Config, s: State, w0: WorkerId, sel: set<JobId>)
    requires Inv(c, s) && Enabled(c, s, ClaimUnreported(w0, sel))
    ensures Inv(c, Apply(c, s, ClaimUnreported(w0, sel)))
  {
    var s' := Apply(c, s, ClaimUnreported(w0, sel));
    forall j | j in s'.rows ensures JobOk(c, s', j) { assert JobOk(c, s, j); ClaimJob(c, s, s', w0, sel, j); }
    forall w, j | w in s'.workers && j in s'.workers[w].batch ensures TaskOk(c, s', w, j) {
      ClaimOthers(c, s, s', w0, sel, w, j);
    }
    forall w, j | w in s'.workers && j in s'.rows ensures HoldOk(s', w, j) {
      if w != w0 { ClaimOthers(c, s, s', w0, sel, w, j); }
      else { assert HoldOk(s, w, j); assert ClockOk(s, w); }
    }
    forall w | w in s'.workers ensures ClockOk(s', w) { assert ClockOk(s, w); }
  }

  // ---- how one history's change affects its row

  lemma JobSend(c: Config, r: Row, L: seq<ClaimRec>, w: WorkerId, t: Task, o: Outcome)
    requires JobFits(c, r, L) && TaskFits(c, w, t, L) && t.phase == Queued
    ensures JobFits(c, r, LogSend(L, t.attempts, o))
    ensures TaskFits(c, w, t.(phase := Sent(o, 0)), LogSend(L, t.attempts, o))
  {
    var M := LogSend(L, t.attempts, o);
    assert forall i :: 0 <= i < |L| ==> M[i].owner == L[i].owner && M[i].end == L[i].end;
    assert forall i :: 0 <= i < |L| && i != t.attempts - 1 ==> M[i] == L[i];
    forall i | 0 <= i < |M| ensures RecOk(c, i, M[i]) { assert RecOk(c, i, L[i]); }
  }

  lemma JobEndLast(c: Config, r: Row, L: seq<ClaimRec>, r': Row, end: End)
    requires JobFits(c, r, L) && r.status == Processing && r'.attempts == r.attempts
    requires end != Open && RecOk(c, |L| - 1, L[|L| - 1].(end := end))
    requires RowMatchesLog(r', EndLast(L, end))
    ensures JobFits(c, r', EndLast(L, end))
  {
    var M := EndLast(L, end);
    assert forall i :: 0 <= i < |L| - 1 ==> M[i] == L[i];
    forall i | 0 <= i < |M| ensures RecOk(c, i, M[i]) { assert RecOk(c, i, L[i]); }
  }

  lemma SameOwners(s: State, s': State, L: seq<ClaimRec>, M: seq<ClaimRec>)
    requires OwnersKnown(s, L) && s.workers.Keys <= s'.workers.Keys && |M| == |L|
    requires forall i :: 0 <= i < |L| ==> M[i].owner == L[i].owner
    ensures OwnersKnown(s', M)
  {
  }

  lemma SendJob(c: Config, s: State, w0: WorkerId, j0: JobId, o: Outcome, j: JobId)
    requires Enabled(c, s, Send(w0, j0, o)) && TaskOk(c, s, w0, j0)
    requires j in s.rows && j in s.log && JobOk(c, s, j)
    ensures JobOk(c, Apply(c, s, Send(w0, j0, o)), j)
  {
    var s' := Apply(c, s, Send(w0, j0, o));
    if j == j0 { JobSend(c, s.rows[j0], s.log[j0], w0, s.workers[w0].batch[j0], o); }
    SameOwners(s, s', s.log[j], s'.log[j]);
  }

  lemma SendTask(c: Config, s: State, w0: WorkerId, j0: JobId, o: Outcome, w: WorkerId, j: JobId)
    requires Enabled(c, s, Send(w0, j0, o)) && TaskOk(c, s, w0, j0)
    requires j0 in s.rows && j0 in s.log && JobOk(c, s, j0)
    requires w in s.workers && j in s.workers[w].batch && TaskOk(c, s, w, j)
    ensures TaskOk(c, Apply(c, s, Send(w0, j0, o)), w, j)
  {
    var t, L := s.workers[w0].batch[j0], s.log[j0];
    if w == w0 && j == j0 {
      JobSend(c, s.rows[j0], L, w0, t, o);
    } else if j == j0 {
      TaskOtherSend(c, w, s.workers[w].batch[j], L, t.attempts, o);
    }
  }

  lemma KeepSend(c: Config, s: State, w0: WorkerId, j0: JobId, o: Outcome)
    requires Inv(c, s) && Enabled(c, s, Send(w0, j0, o))
    ensures Inv(c, Apply(c, s, Send(w0, j0, o)))
  {
    var s' := Apply(c, s, Send(w0, j0, o));
    assert TaskOk(c, s, w0, j0) && JobOk(c, s, j0);
    forall j | j in s'.rows ensures JobOk(c, s', j) { assert JobOk(c, s, j); SendJob(c, s, w0, j0, o, j); }
    forall w, j | w in s'.workers && j in s'.workers[w].batch ensures TaskOk(c, s', w, j) {
      assert TaskOk(c, s, w, j);
      SendTask(c, s, w0, j0, o, w, j);
    }
    forall w, j | w in s'.workers && j in s'.rows ensures HoldOk(s', w, j) { assert HoldOk(s, w, j); }
    forall w | w in s'.workers ensures ClockOk(s', w) { assert ClockOk(s, w); }
  }

  // The fenced write ends exactly the claim of the task that ran it.
  lemma FinalizeJob(c: Config, r: Row, L: seq<ClaimRec>, w: WorkerId, t: Task, now: int)
    requires JobFits(c, r, L) && TaskFits(c, w, t, L) && t.phase.Sent?
    requires r.status == Processing && r.lockedBy == Some(w)
    ensures var f := FinalizerFor(c, t.phase.outcome, t.attempts);
            var M := EndLast(L, EndOf(f));
            && JobFits(c, FinalizeRow(r, f, now), M)
            && TaskFits(c, w, t, M) && TaskFits(c, w, t.(phase := Done), M)
            && TaskFits(c, w, t.(phase := t.phase.(tries := t.phase.tries + 1)), M)
  {
    assert t.attempts == |L|;
    assert RecOk(c, |L| - 1, L[|L| - 1]);
    var f := FinalizerFor(c, t.phase.outcome, t.attempts);
    JobEndLast(c, r, L, FinalizeRow(r, f, now), EndOf(f));
  }

  lemma TryJob(c: Config, s: State, w0: WorkerId, j0: JobId, cm: bool, rp: bool, j: JobId)
    requires Enabled(c, s, TryFinalize(w0, j0, cm, rp)) && TaskOk(c, s, w0, j0)
    requires j in s.rows && j in s.log && JobOk(c, s, j)
    ensures j in Apply(c, s, TryFinalize(w0, j0, cm, rp)).rows
    ensures JobOk(c, Apply(c, s, TryFinalize(w0, j0, cm, rp)), j)
  {
    var s' := Apply(c, s, TryFinalize(w0, j0, cm, rp));
    if j == j0 && Fence(s.rows, j0, w0) {
      FinalizeJob(c, s.rows[j0], s.log[j0], w0, s.workers[w0].batch[j0], s.now);
    }
    SameOwners(s, s', s.log[j], s'.log[j]);
  }

  lemma TryTask(c: Config, s: State, w0: WorkerId, j0: JobId, cm: bool, rp: bool, w: WorkerId, j: JobId)
    requires Enabled(c, s, TryFinalize(w0, j0, cm, rp)) && TaskOk(c, s, w0, j0)
    requires j0 in s.rows && j0 in s.log && JobOk(c, s, j0)
    requires HoldOk(s, w0, j0)
    requires w in s.workers && j in s.workers[w].batch && TaskOk(c, s, w, j)
    ensures TaskOk(c, Apply(c, s, TryFinalize(w0, j0, cm, rp)), w, j)
  {
    var t := s.workers[w0].batch[j0];
    if j == j0 && Fence(s.rows, j0, w0) {
      if w == w0 {
        FinalizeJob(c, s.rows[j0], s.log[j0], w0, t, s.now);
      } else {
        TaskEndLast(c, w, s.workers[w].batch[j], s.log[j], EndOf(FinalizerFor(c, t.phase.outcome, t.attempts)));
      }
    }
    if w == w0 && j == j0 && !Fence(s.rows, j0, w0) { NotHeldNotOpen(c, s.rows[j0], w0, t, s.log[j0]); }
  }

  // A task whose row is no longer held belongs to a claim that has ended.
  lemma NotHeldNotOpen(c: Config, r: Row, w: WorkerId, t: Task, L: seq<ClaimRec>)
    requires JobFits(c, r, L) && TaskFits(c, w, t, L)
    requires !(r.status == Processing && r.lockedBy == Some(w))
    ensures L[t.attempts - 1].end != Open
  {
  }

  lemma TryHold(c: Config, s: State, w0: WorkerId, j0: JobId, cm: bool, rp: bool, w: WorkerId, j: JobId)
    requires Enabled(c, s, TryFinalize(w0, j0, cm, rp)) && w in s.workers && HoldOk(s, w, j)
    ensures HoldOk(Apply(c, s, TryFinalize(w0, j0, cm, rp)), w, j)
  {
  }

  lemma KeepTryFinalize(c: Config, s: State, w0: WorkerId, j0: JobId, committed: bool, reported: bool)
    requires Inv(c, s) && Enabled(c, s, TryFinalize(w0, j0, committed, reported))
    ensures Inv(c, Apply(c, s, TryFinalize(w0, j0, committed, reported)))
  {
    var s' := Apply(c, s, TryFinalize(w0, j0, committed, reported));
    assert TaskOk(c, s, w0, j0) && JobOk(c, s, j0) && HoldOk(s, w0, j0);
    forall j | j in s'.rows ensures JobOk(c, s', j) {
      assert JobOk(c, s, j);
      TryJob(c, s, w0, j0, committed, reported, j);
    }
    forall w, j | w in s'.workers && j in s'.workers[w].batch ensures TaskOk(c, s', w, j) {
      assert TaskOk(c, s, w, j);
      TryTask(c, s, w0, j0, committed, reported, w, j);
    }
    forall w, j | w in s'.workers && j in s'.rows ensures HoldOk(s', w, j) {
      assert HoldOk(s, w, j);
      TryHold(c, s, w0, j0, committed, reported, w, j);
    }
    forall w | w in s'.workers ensures ClockOk(s', w) { assert ClockOk(s, w); }
  }

  lemma ReapJob(c: Config, s: State, sel: set<JobId>, j: JobId)
    requires Enabled(c, s, Reap(sel)) && j in s.rows && j in s.log && JobOk(c, s, j)
    ensures JobOk(c, Apply(c, s, Reap(sel)), j)
  {
    var s' := Apply(c, s, Reap(sel));
    if j in sel {
      assert RecOk(c, |s.log[j]| - 1, s.log[j][|s.log[j]| - 1]);
      JobEndLast(c, s.rows[j], s.log[j], ReapRow(s.rows[j]), ByReap);
    }
    SameOwners(s, s', s.log[j], s'.log[j]);
  }

  lemma ReapTask(c: Config, s: State, sel: set<JobId>, w: WorkerId, j: JobId)
    requires Enabled(c, s, Reap(sel)) && j in s.rows && j in s.log && JobOk(c, s, j)
    requires w in s.workers && j in s.workers[w].batch && TaskOk(c, s, w, j)
    ensures TaskOk(c, Apply(c, s, Reap(sel)), w, j)
  {
    if j in sel { TaskEndLast(c, w, s.workers[w].batch[j], s.log[j], ByReap); }
  }

  lemma KeepReap(c: Config, s: State, sel: set<JobId>)
    requires Inv(c, s) && Enabled(c, s, Reap(sel))
    ensures Inv(c, Apply(c, s, Reap(sel)))
  {
    var s' := Apply(c, s, Reap(sel));
    forall j | j in s'.rows ensures JobOk(c, s', j) { assert JobOk(c, s, j); ReapJob(c, s, sel, j); }
    forall w, j | w in s'.workers && j in s'.workers[w].batch ensures TaskOk(c, s', w, j) {
      assert TaskOk(c, s, w, j) && JobOk(c, s, j);
      ReapTask(c, s, sel, w, j);
    }
    forall w, j | w in s'.workers && j in s'.rows ensures HoldOk(s', w, j) { assert HoldOk(s, w, j); }
    forall w | w in s'.workers ensures ClockOk(s', w) { assert ClockOk(s, w); }
  }

  lemma KeepRenew(c: Config, s: State, w0: WorkerId)
    requires Inv(c, s) && Enabled(c, s, Renew(w0))
    ensures Inv(c, Apply(c, s, Renew(w0)))
  {
    var s' := Apply(c, s, Renew(w0));
    forall j | j in s'.rows ensures JobOk(c, s', j) { assert JobOk(c, s, j); }
    forall w, j | w in s'.workers && j in s'.workers[w].batch ensures TaskOk(c, s', w, j) { assert TaskOk(c, s, w, j); }
    forall w, j | w in s'.workers && j in s'.rows ensures HoldOk(s', w, j) { assert HoldOk(s, w, j); }
    forall w | w in s'.workers ensures ClockOk(s', w) { assert ClockOk(s, w); }
  }

  lemma KeepLocal(c: Config, s: State, e: Step)
    requires Inv(c, s) && Enabled(c, s, e)
    requires e.Start? || e.BatchDone? || e.RenewReport? || e.Fail? || e.Exit?
    ensures Inv(c, Apply(c, s, e))
  {
    if e.w in s.workers { assert ClockOk(s, e.w); }
    match e
    case Start(w) => KeepWorker(c, s, w, Worker(Running, map[], s.now, s.now, false, false));
    case BatchDone(w) => KeepWorker(c, s, w, s.workers[w].(batch := map[]));
    case RenewReport(w, ok) => KeepWorker(c, s, w, Apply(c, s, e).workers[w]);
    case Fail(w) => KeepWorker(c, s, w, s.workers[w].(mode := Failing));
    case Exit(w) => KeepWorker(c, s, w, s.workers[w].(mode := Dead));
  }

  // Every step of the protocol keeps the invariant.
  lemma InvStep(c: Config, s: State, e: Step)
    requires Inv(c, s) && Enabled(c, s, e)
    ensures Inv(c, Apply(c, s, e))
  {
    match e
    case Tick(to) => KeepTick(c, s, to);
    case Insert(j, due) => KeepInsert(c, s, j, due);
    case Claim(w, sel) => KeepClaim(c, s, w, sel);
    case ClaimUnreported(w, sel) => KeepClaimUnreported(c, s, w, sel);
    case Send(w, j, o) => KeepSend(c, s, w, j, o);
    case TryFinalize(w, j, committed, reported) => KeepTryFinalize(c, s, w, j, committed, reported);
    case Reap(sel) => KeepReap(c, s, sel);
    case Renew(w) => KeepRenew(c, s, w);
    case _ => KeepLocal(c, s, e);
  }

  lemma {:induction false} InvRun(c: Config, ss: seq<State>, es: seq<Step>, i: nat)
    requires IsRun(c, ss, es) && i < |ss|
    ensures Inv(c, ss[i])
  {
    if i == 0 {
      InvInitial(c, ss[0]);
    } else {
      InvRun(c, ss, es, i - 1);
      assert StepAt(c, ss, es, i - 1);
      InvStep(c, ss[i - 1], es[i - 1]);
    }
  }
}
