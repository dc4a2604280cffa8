/** The outbox is an exact log of registration state, and when its keys stay free. */
module RegistrationLog {
  import opened Basics
  import opened Waitlist
  import opened Registration

  // What the jobs of one registration, read in order, say about it.
  datatype Trail = Unknown | Is(status: RegStatus) | Broken

  function Follow(t: Trail, k: Kind): Trail {
    match (t, k)
    case (Unknown, RegistrationConfirmed) => Is(Confirmed)
    case (Unknown, RegistrationWaitlisted) => Is(Waitlisted)
    case (Is(Waitlisted), WaitlistPromoted) => Is(Confirmed)
    case (Is(Confirmed), RegistrationCancelled) => Is(Withdrawn)
    case (Is(Waitlisted), RegistrationCancelled) => Is(Withdrawn)
    case (Is(Confirmed), EventCancelled) => t
    case (Is(Waitlisted), EventCancelled) => t
    case _ => Broken
  }

  function TrailOf(jobs: seq<Job>, r: RegId): Trail {
    if jobs == [] then Unknown
    else
      var before := TrailOf(jobs[..|jobs| - 1], r);
      if jobs[|jobs| - 1].reg == r then Follow(before, jobs[|jobs| - 1].kind) else before
  }

  function StatusOf(regs: Regs, r: RegId): Trail {
    if r in regs then Is(regs[r].status) else Unknown
  }

  lemma TrailOne(jobs: seq<Job>, job: Job, r: RegId)
    ensures TrailOf(jobs + [job], r) == if job.reg == r then Follow(TrailOf(jobs, r), job.kind) else TrailOf(jobs, r)
  {
    assert (jobs + [job])[..|jobs|] == jobs;
  }

  lemma {:induction false} TrailSkip(jobs: seq<Job>, new_: seq<Job>, r: RegId)
    requires forall i :: 0 <= i < |new_| ==> new_[i].reg != r
    ensures TrailOf(jobs + new_, r) == TrailOf(jobs, r)
  {
    if new_ == [] {
      assert jobs + new_ == jobs;
    } else {
      var n := |new_| - 1;
      TrailSkip(jobs, new_[..n], r);
      assert jobs + new_ == (jobs + new_[..n]) + [new_[n]];
      TrailOne(jobs + new_[..n], new_[n], r);
    }
  }

  // Keys that a registration's jobs have not used yet.
  lemma {:induction false} FreeKeys(jobs: seq<Job>, r: RegId)
    ensures TrailOf(jobs, r) == Unknown ==> forall k :: !KeyTaken(jobs, r, k)
    ensures TrailOf(jobs, r) == Is(Waitlisted) ==> !KeyTaken(jobs, r, WaitlistPromoted)
    ensures TrailOf(jobs, r) in {Is(Waitlisted), Is(Confirmed)} ==> !KeyTaken(jobs, r, RegistrationCancelled)
  {
    if jobs != [] {
      var n := |jobs| - 1;
      FreeKeys(jobs[..n], r);
      forall k | KeyTaken(jobs, r, k) && !(jobs[n].reg == r && jobs[n].kind == k) ensures KeyTaken(jobs[..n], r, k) {
        var i :| 0 <= i < |jobs| && jobs[i].reg == r && jobs[i].kind == k;
        assert jobs[..n][i] == jobs[i];
      }
    }
  }

  ghost predicate LogExact(db: DB) {
    forall r :: TrailOf(db.jobs, r) == StatusOf(db.regs, r)
  }

  ghost predicate KeysDistinct(jobs: seq<Job>) {
    forall i, k :: 0 <= i < k < |jobs| ==> jobs[i].reg != jobs[k].reg || jobs[i].kind != jobs[k].kind
  }

  // ---------------------------------------------------------------- each transaction keeps the log exact

  lemma RegisterFree(db: DB, student: UserId, e: EventId, id: RegId, now: int)
    requires TrailOf(db.jobs, id) == Unknown
    ensures Register(db, student, e, id, now).1 != ServerError
  {
    FreeKeys(db.jobs, id);
  }

  lemma RegisterTrail(db: DB, student: UserId, e: EventId, id: RegId, now: int, r: RegId)
    requires TrailOf(db.jobs, id) == Unknown && TrailOf(db.jobs, r) == StatusOf(db.regs, r)
    ensures var db' := Register(db, student, e, id, now).0;
            TrailOf(db'.jobs, r) == StatusOf(db'.regs, r)
  {
    if Register(db, student, e, id, now).1 == Ok {
      var job := RegistrationJob(db.regs, e, db.events[e].capacity, student, id);
      TrailOne(db.jobs, job, r);
      assert Register(db, student, e, id, now).0.jobs == db.jobs + [job];
    } else {
      assert Register(db, student, e, id, now).0 == db;
    }
  }

  lemma RegisterLog(db: DB, student: UserId, e: EventId, id: RegId, now: int)
    requires LogExact(db) && id !in db.regs
    ensures LogExact(Register(db, student, e, id, now).0)
    ensures Register(db, student, e, id, now).1 != ServerError
  {
    assert TrailOf(db.jobs, id) == StatusOf(db.regs, id);
    RegisterFree(db, student, e, id, now);
    var db' := Register(db, student, e, id, now).0;
    forall r ensures TrailOf(db'.jobs, r) == StatusOf(db'.regs, r) {
      assert TrailOf(db.jobs, r) == StatusOf(db.regs, r);
      RegisterTrail(db, student, e, id, now, r);
    }
  }

  lemma CancelLog(db: DB, r0: RegId, now: int)
    requires LogExact(db)
    ensures LogExact(CancelLocked(db, r0, now).0)
    ensures CancelLocked(db, r0, now).1 != ServerError
  {
    if r0 in db.regs && db.regs[r0].status != Withdrawn {
      FreeKeys(db.jobs, r0);
      assert TrailOf(db.jobs, r0) == StatusOf(db.regs, r0);
      if Promotes(db.regs, r0) {
        var p := NextUp(db.regs, r0);
        FreeKeys(db.jobs, p);
        assert TrailOf(db.jobs, p) == StatusOf(db.regs, p);
      }
      var db' := CancelLocked(db, r0, now).0;
      forall r ensures TrailOf(db'.jobs, r) == StatusOf(db'.regs, r) {
        assert TrailOf(db.jobs, r) == StatusOf(db.regs, r);
        if Promotes(db.regs, r0) {
          var p := NextUp(db.regs, r0);
          TrailOne(db.jobs, PromoteJob(db.regs, p), r);
          TrailOne(db.jobs + [PromoteJob(db.regs, p)], CancelJob(db.regs, r0), r);
          assert db.jobs + [PromoteJob(db.regs, p), CancelJob(db.regs, r0)] == db.jobs + [PromoteJob(db.regs, p)] + [CancelJob(db.regs, r0)];
        } else {
          TrailOne(db.jobs, CancelJob(db.regs, r0), r);
        }
      }
    }
  }

  // The fan-out says nothing new about any registration.
  lemma {:induction false} FanOutTrail(jobs: seq<Job>, regs: Regs, order: seq<RegId>, r: RegId)
    requires forall i :: 0 <= i < |order| ==> order[i] in regs && regs[order[i]].status != Withdrawn
    requires TrailOf(jobs, r) == StatusOf(regs, r)
    ensures TrailOf(jobs + CancelJobs(regs, order), r) == TrailOf(jobs, r)
  {
    if order == [] {
      assert jobs + CancelJobs(regs, order) == jobs;
    } else {
      var n := |order| - 1;
      FanOutTrail(jobs, regs, order[..n], r);
      var last := CancelJobs(regs, order)[n];
      assert CancelJobs(regs, order) == CancelJobs(regs, order[..n]) + [last];
      assert jobs + CancelJobs(regs, order) == (jobs + CancelJobs(regs, order[..n])) + [last];
      TrailOne(jobs + CancelJobs(regs, order[..n]), last, r);
    }
  }

  lemma CancelEventLog(db: DB, user: UserId, e: EventId, now: int, order: seq<RegId>)
    requires LogExact(db) && Enumerates(order, ActiveIn(db.regs, e))
    ensures LogExact(CancelEvent(db, user, e, now, order).0)
  {
    var db' := CancelEvent(db, user, e, now, order).0;
    forall r ensures TrailOf(db'.jobs, r) == StatusOf(db'.regs, r) {
      assert TrailOf(db.jobs, r) == StatusOf(db.regs, r);
      FanOutTrail(db.jobs, db.regs, order, r);
    }
  }

  lemma LogStep(s: State, a: Step)
    requires LogExact(s.db) && Enabled(s, a)
    ensures LogExact(Apply(s, a).db)
  {
    match a
    case DoRegister(student, e, id, now) => RegisterLog(s.db, student, e, id, now);
    case EndCancel(_, r, now) => CancelLog(s.db, r, now);
    case DoCancelEvent(user, e, now, order) => CancelEventLog(s.db, user, e, now, order);
    case _ =>
      assert Apply(s, a).db.jobs == s.db.jobs && Apply(s, a).db.regs == s.db.regs;
  }

  // ---------------------------------------------------------------- theorems

  // In every reachable state, racing cancellations and stale reads included, the jobs of each
  // registration spell out its status; registrations without jobs do not exist.
  lemma {:induction false} OutboxIsExactLog(ss: seq<State>, es: seq<Step>, i: nat)
    requires IsRun(ss, es) && i < |ss|
    ensures forall r :: TrailOf(ss[i].db.jobs, r) == StatusOf(ss[i].db.regs, r)
  {
    if i > 0 {
      OutboxIsExactLog(ss, es, i - 1);
      assert StepAt(ss, es, i - 1);
      LogStep(ss[i - 1], es[i - 1]);
    }
  }

  // Registering and withdrawing never run into a stored key. Only cancelling an event can, and
  // it does exactly when the event is cancellable and someone active was told before.
  lemma OnlyRepeatedFanOutCollides(ss: seq<State>, es: seq<Step>, i: nat)
    requires IsRun(ss, es) && i < |es|
    ensures Enabled(ss[i], es[i])
    ensures var s, a := ss[i], es[i];
            ReplyTo(s, a) == ServerError <==>
              && a.DoCancelEvent? && a.e in s.db.events && s.db.events[a.e].organizer == a.user
              && s.db.events[a.e].status != Cancelled && a.now < s.db.events[a.e].startsAt
              && exists r :: r in ActiveIn(s.db.regs, a.e) && KeyTaken(s.db.jobs, r, EventCancelled)
  {
    assert StepAt(ss, es, i);
    OutboxIsExactLog(ss, es, i);
    var s, a := ss[i], es[i];
    match a
    case DoRegister(student, e, id, now) => RegisterLog(s.db, student, e, id, now);
    case EndCancel(_, r, now) => CancelLog(s.db, r, now);
    case DoCancelEvent(user, e, now, order) => FanOutCollides(s.db, e, order);
    case _ =>
  }

  lemma FanOutCollides(db: DB, e: EventId, order: seq<RegId>)
    requires Enumerates(order, ActiveIn(db.regs, e))
    ensures Collides(db.jobs, CancelJobs(db.regs, order)) <==>
              exists r :: r in ActiveIn(db.regs, e) && KeyTaken(db.jobs, r, EventCancelled)
  {
    var new_ := CancelJobs(db.regs, order);
    assert forall i :: 0 <= i < |order| ==> new_[i].reg == order[i] && new_[i].kind == EventCancelled;
    if r :| r in ActiveIn(db.regs, e) && KeyTaken(db.jobs, r, EventCancelled) {
      var i :| 0 <= i < |order| && order[i] == r;
      assert KeyTaken(db.jobs, new_[i].reg, new_[i].kind);
    }
  }

  // Stored keys are pairwise different: the unique constraint holds by construction.
  lemma KeysCommit(db: DB, done: DB, new_: seq<Job>)
    requires KeysDistinct(db.jobs) && KeysDistinct(new_)
    ensures KeysDistinct(Commit(db, done, new_).0.jobs)
  {
    if !Collides(db.jobs, new_) {
      var all := db.jobs + new_;
      forall i, k | 0 <= i < k < |all| ensures all[i].reg != all[k].reg || all[i].kind != all[k].kind {
        if i < |db.jobs| <= k {
          assert all[k] == new_[k - |db.jobs|];
          assert !KeyTaken(db.jobs, new_[k - |db.jobs|].reg, new_[k - |db.jobs|].kind);
        }
      }
    }
  }

  lemma KeysStep(s: State, a: Step)
    requires KeysDistinct(s.db.jobs) && Enabled(s, a)
    ensures KeysDistinct(Apply(s, a).db.jobs)
  {
    match a
    case DoRegister(student, e, id, now) =>
      if e in s.db.events {
        var capacity := s.db.events[e].capacity;
        KeysCommit(s.db, s.db.(regs := s.db.regs[id := Reg(e, student, PlacementOf(s.db.regs, e, capacity), now, None)]),
                   [RegistrationJob(s.db.regs, e, capacity, student, id)]);
      }
    case EndCancel(_, r, now) =>
      if r in s.db.regs && Promotes(s.db.regs, r) {
        var p := NextUp(s.db.regs, r);
        KeysCommit(s.db, s.db.(regs := Withdraw(s.db.regs, r, now)[p := s.db.regs[p].(status := Confirmed)]),
                   [PromoteJob(s.db.regs, p), CancelJob(s.db.regs, r)]);
      } else if r in s.db.regs {
        KeysCommit(s.db, s.db.(regs := Withdraw(s.db.regs, r, now)), [CancelJob(s.db.regs, r)]);
      }
    case DoCancelEvent(user, e, now, order) =>
      if e in s.db.events {
        assert KeysDistinct(CancelJobs(s.db.regs, order));
        KeysCommit(s.db, s.db.(events := s.db.events[e := s.db.events[e].(status := Cancelled)]), CancelJobs(s.db.regs, order));
      }
    case _ =>
  }

  lemma {:induction false} KeysAlwaysDistinct(ss: seq<State>, es: seq<Step>, i: nat)
    requires IsRun(ss, es) && i < |ss|
    ensures KeysDistinct(ss[i].db.jobs)
  {
    if i > 0 {
      KeysAlwaysDistinct(ss, es, i - 1);
      assert StepAt(ss, es, i - 1);
      KeysStep(ss[i - 1], es[i - 1]);
    }
  }
}
