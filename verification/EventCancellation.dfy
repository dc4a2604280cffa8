/** Cancelling an event: who is told, and how long the event stays cancelled. */
module EventCancellation {
  import opened Basics
  import opened Waitlist
  import opened Registration
  import opened RegistrationLog
  import opened RegistrationSeats

  // `publish_event` reads the draft without a lock and saves later. The save is stale when the
  // event was cancelled in between.
  predicate StalePublish(s: State, a: Step) {
    a.EndPublish? && a.e in s.db.events && s.db.events[a.e].status == Cancelled
  }

  // Some publish save between steps `i` and `k` was stale for event `e`.
  ghost predicate StaleBetween(ss: seq<State>, es: seq<Step>, e: EventId, i: nat, k: nat)
    requires |ss| == |es| + 1 && k < |ss|
  {
    exists m :: i <= m < k && StalePublish(ss[m], es[m]) && es[m].e == e
  }

  predicate IsCancelled(db: DB, e: EventId) {
    e in db.events && db.events[e].status == Cancelled
  }

  // A cancelled event comes back to life exactly through a stale publish.
  lemma RevivedIff(s: State, a: Step, e: EventId)
    requires Enabled(s, a) && IsCancelled(s.db, e)
    ensures !IsCancelled(Apply(s, a).db, e) <==> StalePublish(s, a) && a.e == e
  {
  }

  // ---------------------------------------------------------------- who has been told

  // In a cancelled event every active registration has its EventCancelled job.
  ghost predicate AllTold(db: DB, e: EventId) {
    IsCancelled(db, e) ==> forall r :: r in ActiveIn(db.regs, e) ==> KeyTaken(db.jobs, r, EventCancelled)
  }

  lemma TakenAppend(jobs: seq<Job>, new_: seq<Job>, r: RegId, k: Kind)
    ensures KeyTaken(jobs + new_, r, k) <==> KeyTaken(jobs, r, k) || KeyTaken(new_, r, k)
  {
    var all := jobs + new_;
    if KeyTaken(jobs, r, k) {
      var i :| 0 <= i < |jobs| && jobs[i].reg == r && jobs[i].kind == k;
      assert all[i] == jobs[i];
    }
    if KeyTaken(new_, r, k) {
      var i :| 0 <= i < |new_| && new_[i].reg == r && new_[i].kind == k;
      assert all[|jobs| + i] == new_[i];
    }
  }

  // What registering and withdrawing add to the outbox is never an EventCancelled job.
  lemma QuietJobs(s: State, a: Step, r: RegId)
    requires Enabled(s, a) && !a.DoCancelEvent?
    ensures KeyTaken(Apply(s, a).db.jobs, r, EventCancelled) <==> KeyTaken(s.db.jobs, r, EventCancelled)
  {
    match a
    case DoRegister(student, e, id, now) =>
      if e in s.db.events {
        TakenAppend(s.db.jobs, [RegistrationJob(s.db.regs, e, s.db.events[e].capacity, student, id)], r, EventCancelled);
      }
    case EndCancel(_, r0, now) =>
      if r0 in s.db.regs {
        TakenAppend(s.db.jobs, [CancelJob(s.db.regs, r0)], r, EventCancelled);
        if Promotes(s.db.regs, r0) {
          TakenAppend(s.db.jobs, [PromoteJob(s.db.regs, NextUp(s.db.regs, r0)), CancelJob(s.db.regs, r0)], r, EventCancelled);
        }
      }
    case _ =>
  }

  // A successful fan-out adds exactly the active registrations of its event.
  lemma FanOutTakes(db: DB, e: EventId, order: seq<RegId>, r: RegId)
    requires Enumerates(order, ActiveIn(db.regs, e))
    ensures KeyTaken(CancelJobs(db.regs, order), r, EventCancelled) <==> r in ActiveIn(db.regs, e)
  {
    var new_ := CancelJobs(db.regs, order);
    if r in ActiveIn(db.regs, e) {
      var i :| 0 <= i < |order| && order[i] == r;
      assert new_[i].reg == r;
    }
  }

  // A cancellation that takes effect cancels its event and tells exactly those active in it.
  lemma CancelEventTells(s: State, a: Step, r: RegId)
    requires Enabled(s, a) && a.DoCancelEvent? && Apply(s, a).db != s.db
    ensures IsCancelled(Apply(s, a).db, a.e) && Apply(s, a).db.regs == s.db.regs
    ensures KeyTaken(Apply(s, a).db.jobs, r, EventCancelled) <==> KeyTaken(s.db.jobs, r, EventCancelled) || r in ActiveIn(s.db.regs, a.e)
  {
    TakenAppend(s.db.jobs, CancelJobs(s.db.regs, a.order), r, EventCancelled);
    FanOutTakes(s.db, a.e, a.order, r);
  }

  lemma ActiveShrinks(s: State, a: Step, e: EventId)
    requires Enabled(s, a) && IsCancelled(s.db, e)
    ensures ActiveIn(Apply(s, a).db.regs, e) <= ActiveIn(s.db.regs, e)
    ensures forall r :: r in Apply(s, a).db.regs && Apply(s, a).db.regs[r].event == e <==> r in s.db.regs && s.db.regs[r].event == e
  {
    if Registers(s, a) { RegisterRegs(s, a); assert a.e != e; }
    else if Withdraws(s, a) { WithdrawRows(s, a); }
    else { OtherStepsKeepRegs(s, a); }
  }

  lemma WithdrawRows(s: State, a: Step)
    requires Withdraws(s, a)
    ensures Apply(s, a).db.regs.Keys == s.db.regs.Keys
    ensures forall r :: r in s.db.regs ==>
              && Apply(s, a).db.regs[r].event == s.db.regs[r].event
              && (s.db.regs[r].status == Withdrawn ==> Apply(s, a).db.regs[r].status == Withdrawn)
  {
  }

  // Every step keeps everyone in a cancelled event told, a stale publish included.
  lemma ToldStep(s: State, a: Step, e: EventId)
    requires Enabled(s, a) && AllTold(s.db, e)
    ensures AllTold(Apply(s, a).db, e)
  {
    var db, db' := s.db, Apply(s, a).db;
    forall r | IsCancelled(db', e) && r in ActiveIn(db'.regs, e) ensures KeyTaken(db'.jobs, r, EventCancelled) {
      if a.DoCancelEvent? {
        if db' != db { CancelEventTells(s, a, r); }
      } else {
        OnlyCancelCancels(s, a, e);
        ActiveShrinks(s, a, e);
        QuietJobs(s, a, r);
      }
    }
  }

  lemma OnlyCancelCancels(s: State, a: Step, e: EventId)
    requires Enabled(s, a) && !a.DoCancelEvent? && IsCancelled(Apply(s, a).db, e)
    ensures IsCancelled(s.db, e)
  {
  }

  lemma {:induction false} ToldRun(ss: seq<State>, es: seq<Step>, e: EventId, i: nat)
    requires IsRun(ss, es) && i < |ss|
    ensures AllTold(ss[i].db, e)
  {
    if i > 0 {
      ToldRun(ss, es, e, i - 1);
      assert StepAt(ss, es, i - 1);
      ToldStep(ss[i - 1], es[i - 1], e);
    }
  }

  // ---------------------------------------------------------------- theorems

  ghost function RegsOf(db: DB, e: EventId): set<RegId> {
    set r | r in db.regs && db.regs[r].event == e
  }

  // A cancelled event stays cancelled exactly as long as no stale publish lands on it, and as
  // long as it is cancelled its registrations never grow.
  lemma CancelledIsFrozen(ss: seq<State>, es: seq<Step>, e: EventId, i: nat, k: nat)
    requires IsRun(ss, es) && i <= k < |ss| && IsCancelled(ss[i].db, e)
    ensures (forall m :: i <= m <= k ==> IsCancelled(ss[m].db, e)) <==> !StaleBetween(ss, es, e, i, k)
    ensures !StaleBetween(ss, es, e, i, k) ==>
              && RegsOf(ss[k].db, e) == RegsOf(ss[i].db, e)
              && ActiveIn(ss[k].db.regs, e) <= ActiveIn(ss[i].db.regs, e)
  {
    if StaleBetween(ss, es, e, i, k) {
      var m :| i <= m < k && StalePublish(ss[m], es[m]) && es[m].e == e;
      assert StepAt(ss, es, m);
      RevivedIff(ss[m], es[m], e);
      assert !IsCancelled(ss[m + 1].db, e);
    } else {
      forall m | i <= m <= k ensures IsCancelled(ss[m].db, e) { FrozenUntil(ss, es, e, i, k, m); }
      FrozenUntil(ss, es, e, i, k, k);
    }
  }

  lemma {:induction false} FrozenUntil(ss: seq<State>, es: seq<Step>, e: EventId, i: nat, k: nat, m: nat)
    requires IsRun(ss, es) && i <= m <= k < |ss| && IsCancelled(ss[i].db, e) && !StaleBetween(ss, es, e, i, k)
    ensures IsCancelled(ss[m].db, e)
    ensures RegsOf(ss[m].db, e) == RegsOf(ss[i].db, e) && ActiveIn(ss[m].db.regs, e) <= ActiveIn(ss[i].db.regs, e)
    decreases m
  {
    if i < m {
      FrozenUntil(ss, es, e, i, k, m - 1);
      assert StepAt(ss, es, m - 1);
      RevivedIff(ss[m - 1], es[m - 1], e);
      ActiveShrinks(ss[m - 1], es[m - 1], e);
    }
  }

  predicate TellsAt(jobs: seq<Job>, m: int, r: RegId) {
    0 <= m < |jobs| && jobs[m].reg == r && jobs[m].kind == EventCancelled
  }

  // Exactly one EventCancelled job.
  ghost predicate ToldOnce(jobs: seq<Job>, r: RegId) {
    exists m :: TellsAt(jobs, m, r) && forall n :: TellsAt(jobs, n, r) ==> n == m
  }

  lemma DistinctToldOnce(jobs: seq<Job>, r: RegId)
    requires KeysDistinct(jobs) && KeyTaken(jobs, r, EventCancelled)
    ensures ToldOnce(jobs, r)
  {
    var m :| 0 <= m < |jobs| && jobs[m].reg == r && jobs[m].kind == EventCancelled;
    assert TellsAt(jobs, m, r);
    forall n | TellsAt(jobs, n, r) ensures n == m {
      if n < m { assert jobs[n].kind == jobs[m].kind; }
    }
  }

  // In every run, whoever is active while an event is cancelled has exactly one EventCancelled
  // job, then and in every later state, even if the event is published again in between.
  lemma FanOutComplete(ss: seq<State>, es: seq<Step>, e: EventId, i: nat, k: nat)
    requires IsRun(ss, es) && i <= k < |ss| && IsCancelled(ss[i].db, e)
    ensures forall r :: r in ActiveIn(ss[i].db.regs, e) ==> ToldOnce(ss[k].db.jobs, r)
    ensures IsCancelled(ss[k].db, e) ==> forall r :: r in ActiveIn(ss[k].db.regs, e) ==> ToldOnce(ss[k].db.jobs, r)
  {
    ToldRun(ss, es, e, i);
    ToldRun(ss, es, e, k);
    KeysAlwaysDistinct(ss, es, k);
    forall r | r in ActiveIn(ss[i].db.regs, e) ensures ToldOnce(ss[k].db.jobs, r) {
      ToldForever(ss, es, i, k, r);
      DistinctToldOnce(ss[k].db.jobs, r);
    }
    forall r | r in ActiveIn(ss[k].db.regs, e) && IsCancelled(ss[k].db, e) ensures ToldOnce(ss[k].db.jobs, r) {
      DistinctToldOnce(ss[k].db.jobs, r);
    }
  }

  lemma {:induction false} ToldForever(ss: seq<State>, es: seq<Step>, i: nat, k: nat, r: RegId)
    requires IsRun(ss, es) && i <= k < |ss| && KeyTaken(ss[i].db.jobs, r, EventCancelled)
    ensures KeyTaken(ss[k].db.jobs, r, EventCancelled)
    decreases k
  {
    if i < k {
      ToldForever(ss, es, i, k - 1, r);
      assert StepAt(ss, es, k - 1);
      if es[k - 1].DoCancelEvent? {
        TakenAppend(ss[k - 1].db.jobs, CancelJobs(ss[k - 1].db.regs, es[k - 1].order), r, EventCancelled);
      } else {
        QuietJobs(ss[k - 1], es[k - 1], r);
      }
    }
  }

  // ---------------------------------------------------------------- when a second cancellation fails

  // Registration `r` was active in event `e` when a stale publish before step `i` revived it.
  ghost predicate RevivedWith(ss: seq<State>, es: seq<Step>, e: EventId, r: RegId, i: nat)
    requires |ss| == |es| + 1 && i < |ss|
  {
    exists m :: 0 <= m < i && StalePublish(ss[m], es[m]) && es[m].e == e && r in ActiveIn(ss[m].db.regs, e)
  }

  // Who is active now and was not before has just registered and has not been told.
  lemma NewcomerNotTold(s: State, a: Step, e: EventId, r: RegId)
    requires Enabled(s, a) && r !in ActiveIn(s.db.regs, e) && r in ActiveIn(Apply(s, a).db.regs, e)
    requires TrailOf(s.db.jobs, r) == StatusOf(s.db.regs, r)
    ensures !KeyTaken(Apply(s, a).db.jobs, r, EventCancelled)
  {
    if Registers(s, a) { RegisterRegs(s, a); }
    else if Withdraws(s, a) { WithdrawRows(s, a); }
    else { OtherStepsKeepRegs(s, a); }
    FreeKeys(s.db.jobs, r);
    QuietJobs(s, a, r);
  }

  // An active registration that was told is in a cancelled event, or was in one that a stale
  // publish revived.
  lemma {:induction false} ToldThenRevived(ss: seq<State>, es: seq<Step>, e: EventId, r: RegId, i: nat)
    requires IsRun(ss, es) && i < |ss|
    requires r in ActiveIn(ss[i].db.regs, e) && KeyTaken(ss[i].db.jobs, r, EventCancelled) && !IsCancelled(ss[i].db, e)
    ensures RevivedWith(ss, es, e, r, i)
  {
    if i > 0 {
      var s, a := ss[i - 1], es[i - 1];
      assert StepAt(ss, es, i - 1);
      if r !in ActiveIn(s.db.regs, e) {
        OutboxIsExactLog(ss, es, i - 1);
        NewcomerNotTold(s, a, e, r);
      } else if !KeyTaken(s.db.jobs, r, EventCancelled) {
        if a.DoCancelEvent? { CancelEventTells(s, a, r); } else { QuietJobs(s, a, r); }
      } else if IsCancelled(s.db, e) {
        RevivedIff(s, a, e);
      } else {
        ToldThenRevived(ss, es, e, r, i - 1);
      }
    }
  }

  // Exactly when cancelling an event fails on a stored key: the event can be cancelled, and
  // someone active now was active when a stale publish revived it.
  lemma CancelFailsIff(ss: seq<State>, es: seq<Step>, i: nat)
    requires IsRun(ss, es) && i < |es| && es[i].DoCancelEvent?
    ensures Enabled(ss[i], es[i])
    ensures var s, a := ss[i], es[i];
            ReplyTo(s, a) == ServerError <==>
              && a.e in s.db.events && s.db.events[a.e].organizer == a.user
              && s.db.events[a.e].status != Cancelled && a.now < s.db.events[a.e].startsAt
              && exists r :: r in ActiveIn(s.db.regs, a.e) && RevivedWith(ss, es, a.e, r, i)
  {
    OnlyRepeatedFanOutCollides(ss, es, i);
    var s, e := ss[i], es[i].e;
    if e in s.db.events && s.db.events[e].status != Cancelled {
      forall r | r in ActiveIn(s.db.regs, e) ensures KeyTaken(s.db.jobs, r, EventCancelled) <==> RevivedWith(ss, es, e, r, i) {
        if KeyTaken(s.db.jobs, r, EventCancelled) {
          ToldThenRevived(ss, es, e, r, i);
        } else if RevivedWith(ss, es, e, r, i) {
          var m :| 0 <= m < i && StalePublish(ss[m], es[m]) && es[m].e == e && r in ActiveIn(ss[m].db.regs, e);
          ToldRun(ss, es, e, m);
          ToldForever(ss, es, m, i, r);
        }
      }
    }
  }

  // In particular it never fails on a stored key before a stale publish lands on the event.
  lemma NoCollisionWithoutStalePublish(ss: seq<State>, es: seq<Step>, i: nat)
    requires IsRun(ss, es) && i < |es| && es[i].DoCancelEvent? && !StaleBetween(ss, es, es[i].e, 0, i)
    ensures Enabled(ss[i], es[i]) && ReplyTo(ss[i], es[i]) != ServerError
  {
    CancelFailsIff(ss, es, i);
  }
}
