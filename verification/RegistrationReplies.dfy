/**
 What each request answers and does in every run, in terms of the table columns: who may register,
 withdraw, publish, update and cancel, and what is written then.
 */
module RegistrationReplies {
  import opened Basics
  import opened Waitlist
  import opened Registration
  import opened RegistrationLog
  import opened RegistrationSeats

  // ---------------------------------------------------------------- one active registration each

  // No student has two registrations in force for one event.
  ghost predicate OneEach(regs: Regs) {
    forall r, q :: r in regs && q in regs && r != q && regs[r].event == regs[q].event && regs[r].student == regs[q].student ==>
      regs[r].status == Withdrawn || regs[q].status == Withdrawn
  }

  // What a step may do to an existing row: its event, student and time stay, and a withdrawn row
  // stays withdrawn.
  lemma RowsKept(s: State, a: Step, r: RegId)
    requires Enabled(s, a) && r in s.db.regs
    ensures r in Apply(s, a).db.regs
    ensures var x, x' := s.db.regs[r], Apply(s, a).db.regs[r];
            && x'.event == x.event && x'.student == x.student && x'.registeredAt == x.registeredAt
            && (x.status == Withdrawn ==> x' == x)
  {
    if Registers(s, a) { RegisterRegs(s, a); }
    else if Withdraws(s, a) { WithdrawKeepsRow(s, a, r); }
    else { OtherStepsKeepRegs(s, a); }
  }

  lemma WithdrawKeepsRow(s: State, a: Step, r: RegId)
    requires Withdraws(s, a) && r in s.db.regs
    ensures Apply(s, a).db.regs.Keys == s.db.regs.Keys
    ensures var x, x' := s.db.regs[r], Apply(s, a).db.regs[r];
            && x'.event == x.event && x'.student == x.student && x'.registeredAt == x.registeredAt
            && (x.status == Withdrawn ==> x' == x)
  {
  }

  // A new row finds no other row of its student in force.
  lemma NewRowAlone(s: State, a: Step, r: RegId)
    requires Enabled(s, a) && r !in s.db.regs && r in Apply(s, a).db.regs
    ensures var x := Apply(s, a).db.regs[r];
            forall q :: q in s.db.regs && s.db.regs[q].event == x.event && s.db.regs[q].student == x.student ==>
              s.db.regs[q].status == Withdrawn
    ensures Apply(s, a).db.regs.Keys == s.db.regs.Keys + {r}
  {
    if Registers(s, a) {
      RegisterRegs(s, a);
    } else if Withdraws(s, a) {
      WithdrawKeepsRows(s, a);
    } else {
      OtherStepsKeepRegs(s, a);
    }
  }

  lemma OneEachStep(s: State, a: Step)
    requires Enabled(s, a) && OneEach(s.db.regs)
    ensures OneEach(Apply(s, a).db.regs)
  {
    var regs, regs' := s.db.regs, Apply(s, a).db.regs;
    forall r, q | r in regs' && q in regs' && r != q && regs'[r].event == regs'[q].event && regs'[r].student == regs'[q].student
      ensures regs'[r].status == Withdrawn || regs'[q].status == Withdrawn
    {
      if r in regs { RowsKept(s, a, r); } else { NewRowAlone(s, a, r); }
      if q in regs { RowsKept(s, a, q); } else { NewRowAlone(s, a, q); }
    }
  }

  // In every run a student has at most one registration in force for an event.
  lemma {:induction false} AtMostOneActive(ss: seq<State>, es: seq<Step>, i: nat, r: RegId, q: RegId)
    requires IsRun(ss, es) && i < |ss| && r in ss[i].db.regs && q in ss[i].db.regs && r != q
    requires ss[i].db.regs[r].event == ss[i].db.regs[q].event && ss[i].db.regs[r].student == ss[i].db.regs[q].student
    ensures ss[i].db.regs[r].status == Withdrawn || ss[i].db.regs[q].status == Withdrawn
  {
    OneEachRun(ss, es, i);
  }

  lemma {:induction false} OneEachRun(ss: seq<State>, es: seq<Step>, i: nat)
    requires IsRun(ss, es) && i < |ss|
    ensures OneEach(ss[i].db.regs)
  {
    if i > 0 {
      OneEachRun(ss, es, i - 1);
      assert StepAt(ss, es, i - 1);
      OneEachStep(ss[i - 1], es[i - 1]);
    }
  }

  // ---------------------------------------------------------------- registering

  predicate InForce(regs: Regs, e: EventId, student: UserId, r: RegId) {
    r in regs && regs[r].event == e && regs[r].student == student && (regs[r].status == Confirmed || regs[r].status == Waitlisted)
  }

  function CountOf(regs: Regs, e: EventId, status: RegStatus): nat {
    |set r | r in regs && regs[r].event == e && regs[r].status == status|
  }

  // A seat if one is free, else a place at the end of the waitlist, and the job that says so.
  ghost predicate Admitted(db: DB, db': DB, student: UserId, e: EventId, id: RegId, now: int)
    requires e in db.events
  {
    var seated := CountOf(db.regs, e, Confirmed) < db.events[e].capacity;
    && db'.events == db.events
    && db'.regs == db.regs[id := Reg(e, student, if seated then Confirmed else Waitlisted, now, None)]
    && db'.jobs == db.jobs + [Job(id, if seated then RegistrationConfirmed else RegistrationWaitlisted, e, student,
                                  if seated then None else Some(CountOf(db.regs, e, Waitlisted) + 1))]
  }

  // In every run: not found exactly for an event that is missing or not published, a conflict
  // exactly if the student has a registration in force, else the student is admitted.
  lemma RegisterAnswers(ss: seq<State>, es: seq<Step>, i: nat)
    requires IsRun(ss, es) && i < |es| && es[i].DoRegister?
    ensures Enabled(ss[i], es[i])
    ensures var db, a, reply := ss[i].db, es[i], ReplyTo(ss[i], es[i]);
            && (reply == NotFound <==> a.e !in db.events || db.events[a.e].status != Published)
            && (reply == Conflict <==> a.e in db.events && db.events[a.e].status == Published && exists r :: InForce(db.regs, a.e, a.student, r))
            && (reply == Ok <==> a.e in db.events && db.events[a.e].status == Published && forall r :: !InForce(db.regs, a.e, a.student, r))
            && (reply == Ok ==> Admitted(db, ss[i + 1].db, a.student, a.e, a.id, a.now))
            && (reply != Ok ==> ss[i + 1] == ss[i])
  {
    assert StepAt(ss, es, i);
    OnlyRepeatedFanOutCollides(ss, es, i);
    RegisterMeans(ss[i].db, es[i].student, es[i].e, es[i].id, es[i].now);
    assert ss[i].(db := ss[i].db) == ss[i];
  }

  lemma RegisterMeans(db: DB, student: UserId, e: EventId, id: RegId, now: int)
    ensures var (db', reply) := Register(db, student, e, id, now);
            && (reply == NotFound <==> e !in db.events || db.events[e].status != Published)
            && (reply == Conflict <==> e in db.events && db.events[e].status == Published && exists r :: InForce(db.regs, e, student, r))
            && (reply == Ok ==> Admitted(db, db', student, e, id, now))
            && (reply != Ok ==> db' == db)
  {
    if HasActive(db.regs, e, student) {
      var r :| r in db.regs && db.regs[r].event == e && db.regs[r].student == student && db.regs[r].status != Withdrawn;
      assert InForce(db.regs, e, student, r);
    }
    CountsAgree(db.regs, e, Confirmed);
    CountsAgree(db.regs, e, Waitlisted);
  }

  lemma CountsAgree(regs: Regs, e: EventId, status: RegStatus)
    ensures CountOf(regs, e, status) == |WithStatus(regs, e, status)|
  {
    assert WithStatus(regs, e, status) == set r | r in regs && regs[r].event == e && regs[r].status == status;
  }

  // ---------------------------------------------------------------- withdrawing

  // Requests past their first read concern registrations of the student who asked.
  ghost predicate ReadersOwn(s: State) {
    forall u, r :: (u, r) in s.reading ==> r in s.db.regs && s.db.regs[r].student == u
  }

  lemma {:induction false} ReadersOwnRun(ss: seq<State>, es: seq<Step>, i: nat)
    requires IsRun(ss, es) && i < |ss|
    ensures ReadersOwn(ss[i])
  {
    if i > 0 {
      ReadersOwnRun(ss, es, i - 1);
      assert StepAt(ss, es, i - 1);
      var s, a := ss[i - 1], es[i - 1];
      forall u, r | (u, r) in ss[i].reading ensures r in ss[i].db.regs && ss[i].db.regs[r].student == u {
        assert (u, r) in s.reading || (a.BeginCancel? && a.student == u && a.r == r);
        RowsKept(s, a, r);
      }
    }
  }

  // The waitlisted row of the event with the smallest time, then the smallest id.
  ghost predicate FirstWaiting(regs: Regs, e: EventId, p: RegId) {
    && p in regs && regs[p].event == e && regs[p].status == Waitlisted
    && forall q :: q in regs && q != p && regs[q].event == e && regs[q].status == Waitlisted ==>
         regs[p].registeredAt < regs[q].registeredAt || (regs[p].registeredAt == regs[q].registeredAt && p < q)
  }

  // The row is withdrawn; if it held a seat and someone waits, the first one waiting gets it. One
  // job tells each of them.
  ghost predicate GaveUp(db: DB, db': DB, r: RegId, now: int)
    requires r in db.regs
  {
    var x := db.regs[r];
    var regs := db.regs[r := x.(status := Withdrawn, cancelledAt := Some(now))];
    var told := Job(r, RegistrationCancelled, x.event, x.student, None);
    && db'.events == db.events
    && if x.status == Confirmed && CountOf(db.regs, x.event, Waitlisted) > 0 then
         exists p :: FirstWaiting(db.regs, x.event, p)
                  && db'.regs == regs[p := db.regs[p].(status := Confirmed)]
                  && db'.jobs == db.jobs + [Job(p, WaitlistPromoted, x.event, db.regs[p].student, None), told]
       else
         db'.regs == regs && db'.jobs == db.jobs + [told]
  }

  lemma CancelMeans(db: DB, r: RegId, now: int)
    requires r in db.regs && db.regs[r].event in db.events
    ensures var (db', reply) := CancelLocked(db, r, now);
            && (reply == Conflict <==> db.regs[r].status == Withdrawn || db.events[db.regs[r].event].startsAt <= now)
            && reply != NotFound
            && (reply == Ok ==> GaveUp(db, db', r, now))
            && (reply != Ok ==> db' == db)
  {
    var x := db.regs[r];
    CountsAgree(db.regs, x.event, Waitlisted);
    if Promotes(db.regs, r) {
      var p, W := NextUp(db.regs, r), WithStatus(db.regs, x.event, Waitlisted);
      assert p == First(db.regs, W);
      assert forall q :: q in W && q != p ==> Before(db.regs, p, q);
      assert forall q :: q in db.regs && db.regs[q].event == x.event && db.regs[q].status == Waitlisted ==> q in W;
      assert FirstWaiting(db.regs, x.event, p);
    }
  }

  // In every run: only the student who holds a registration ends it; the end is refused exactly
  // if the row is withdrawn by then or the event has started.
  lemma WithdrawAnswers(ss: seq<State>, es: seq<Step>, i: nat)
    requires IsRun(ss, es) && i < |es| && es[i].EndCancel?
    ensures Enabled(ss[i], es[i])
    ensures var db, a, reply := ss[i].db, es[i], ReplyTo(ss[i], es[i]);
            && a.r in db.regs && db.regs[a.r].student == a.student && db.regs[a.r].event in db.events
            && (reply == Conflict <==> db.regs[a.r].status == Withdrawn || db.events[db.regs[a.r].event].startsAt <= a.now)
            && (reply == Ok <==> db.regs[a.r].status != Withdrawn && a.now < db.events[db.regs[a.r].event].startsAt)
            && (reply == Ok ==> GaveUp(db, ss[i + 1].db, a.r, a.now))
            && (reply != Ok ==> ss[i + 1].db == db)
  {
    assert StepAt(ss, es, i);
    ReadersOwnRun(ss, es, i);
    SeatsRun(ss, es, i);
    OnlyRepeatedFanOutCollides(ss, es, i);
    CancelMeans(ss[i].db, es[i].r, es[i].now);
  }

  // How often student `u` began to withdraw registration `r`, and ended it, in the first `n` steps.
  function WithdrawReads(es: seq<Step>, n: nat, u: UserId, r: RegId): nat
    requires n <= |es|
  {
    if n == 0 then 0 else WithdrawReads(es, n - 1, u, r) + if es[n - 1] == BeginCancel(u, r) then 1 else 0
  }

  function WithdrawEnds(es: seq<Step>, n: nat, u: UserId, r: RegId): nat
    requires n <= |es|
  {
    if n == 0 then 0
    else WithdrawEnds(es, n - 1, u, r) + if es[n - 1].EndCancel? && es[n - 1].student == u && es[n - 1].r == r then 1 else 0
  }

  // Every locked remainder belongs to a first read of its own.
  lemma {:induction false} EndsFollowReads(ss: seq<State>, es: seq<Step>, n: nat, u: UserId, r: RegId)
    requires IsRun(ss, es) && n < |ss|
    ensures WithdrawEnds(es, n, u, r) + ss[n].reading[(u, r)] == WithdrawReads(es, n, u, r)
  {
    if n > 0 {
      EndsFollowReads(ss, es, n - 1, u, r);
      assert StepAt(ss, es, n - 1);
    }
  }

  // The unlocked first read, which lets a request on.
  lemma FirstReadAnswers(db: DB, student: UserId, r: RegId)
    ensures var reply := CancelCheck(db, student, r);
            && (reply == Ok <==> exists e :: InForce(db.regs, e, student, r))
            && (reply == NotFound <==> r !in db.regs || db.regs[r].student != student)
            && (reply == Conflict <==> r in db.regs && db.regs[r].student == student && db.regs[r].status == Withdrawn)
  {
    if r in db.regs && db.regs[r].student == student && db.regs[r].status != Withdrawn {
      assert InForce(db.regs, db.regs[r].event, student, r);
    }
  }

  // ---------------------------------------------------------------- jobs name their recipient

  ghost predicate Addressed(regs: Regs, jobs: seq<Job>) {
    forall k :: 0 <= k < |jobs| ==>
      jobs[k].reg in regs && jobs[k].event == regs[jobs[k].reg].event && jobs[k].student == regs[jobs[k].reg].student
  }

  lemma AddressedMore(regs: Regs, jobs: seq<Job>, regs': Regs, new_: seq<Job>)
    requires Addressed(regs, jobs) && Addressed(regs', new_)
    requires forall r :: r in regs ==> r in regs' && regs'[r].event == regs[r].event && regs'[r].student == regs[r].student
    ensures Addressed(regs', jobs + new_)
  {
  }

  lemma AddressedStep(s: State, a: Step)
    requires Enabled(s, a) && Addressed(s.db.regs, s.db.jobs)
    ensures Addressed(Apply(s, a).db.regs, Apply(s, a).db.jobs)
  {
    var db, db' := s.db, Apply(s, a).db;
    forall r | r in db.regs ensures r in db'.regs && db'.regs[r].event == db.regs[r].event && db'.regs[r].student == db.regs[r].student {
      RowsKept(s, a, r);
    }
    if db'.jobs != db.jobs {
      var new_ := db'.jobs[|db.jobs|..];
      NewJobs(s, a);
      assert db'.jobs == db.jobs + new_;
      AddressedMore(db.regs, db.jobs, db'.regs, new_);
    } else {
      AddressedMore(db.regs, db.jobs, db'.regs, []);
      assert db.jobs + [] == db.jobs;
    }
  }

  lemma NewJobs(s: State, a: Step)
    requires Enabled(s, a) && Apply(s, a).db.jobs != s.db.jobs
    ensures s.db.jobs <= Apply(s, a).db.jobs
    ensures Addressed(Apply(s, a).db.regs, Apply(s, a).db.jobs[|s.db.jobs|..])
  {
    match a
    case DoRegister(student, e, id, now) => RegisterMeans(s.db, student, e, id, now);
    case EndCancel(_, r, now) => CancelMeans(s.db, r, now);
    case DoCancelEvent(user, e, now, order) => CancelEventMeans(s.db, user, e, now, order);
    case _ =>
  }

  // In every run every job carries the event and the student of its registration.
  lemma {:induction false} JobsAddressed(ss: seq<State>, es: seq<Step>, i: nat)
    requires IsRun(ss, es) && i < |ss|
    ensures Addressed(ss[i].db.regs, ss[i].db.jobs)
  {
    if i > 0 {
      JobsAddressed(ss, es, i - 1);
      assert StepAt(ss, es, i - 1);
      AddressedStep(ss[i - 1], es[i - 1]);
    }
  }

  // ---------------------------------------------------------------- events

  predicate Owns(db: DB, user: UserId, e: EventId) {
    e in db.events && db.events[e].organizer == user
  }

  // The event is cancelled, and one job for each registration in force follows the others.
  ghost predicate CalledOff(db: DB, db': DB, e: EventId)
    requires e in db.events
  {
    && db'.events == db.events[e := db.events[e].(status := Cancelled)] && db'.regs == db.regs
    && db.jobs <= db'.jobs
    && (forall k :: |db.jobs| <= k < |db'.jobs| ==>
          && InForceIn(db.regs, e, db'.jobs[k].reg)
          && db'.jobs[k] == Job(db'.jobs[k].reg, EventCancelled, e, db.regs[db'.jobs[k].reg].student, None))
    && (forall r :: InForceIn(db.regs, e, r) ==> exists k :: |db.jobs| <= k < |db'.jobs| && db'.jobs[k].reg == r)
    && (forall k, m :: |db.jobs| <= k < m < |db'.jobs| ==> db'.jobs[k].reg != db'.jobs[m].reg)
  }

  predicate InForceIn(regs: Regs, e: EventId, r: RegId) {
    r in regs && regs[r].event == e && (regs[r].status == Confirmed || regs[r].status == Waitlisted)
  }

  lemma CancelEventMeans(db: DB, user: UserId, e: EventId, now: int, order: seq<RegId>)
    requires Enumerates(order, ActiveIn(db.regs, e))
    ensures var (db', reply) := CancelEvent(db, user, e, now, order);
            && (reply == NotFound <==> !Owns(db, user, e))
            && (reply == Conflict <==> Owns(db, user, e) && db.events[e].status != Cancelled && db.events[e].startsAt <= now)
            && (reply == Ok ==> if db.events[e].status == Cancelled then db' == db else CalledOff(db, db', e))
            && (reply != Ok ==> db' == db)
  {
    var (db', reply) := CancelEvent(db, user, e, now, order);
    if reply == Ok && db.events[e].status != Cancelled {
      var n := |db.jobs|;
      assert forall k :: 0 <= k < |order| ==> db'.jobs[n + k].reg == order[k] && order[k] in ActiveIn(db.regs, e);
      forall r | InForceIn(db.regs, e, r) ensures exists k :: n <= k < |db'.jobs| && db'.jobs[k].reg == r {
        assert r in ActiveIn(db.regs, e);
        var k :| 0 <= k < |order| && order[k] == r;
        assert db'.jobs[n + k].reg == r;
      }
    }
  }

  // In every run: only the organizer cancels, not once the event has started; a second time
  // nothing happens; otherwise everyone in force is told. (CancelFailsIff says when the write
  // fails.)
  lemma CancelEventAnswers(ss: seq<State>, es: seq<Step>, i: nat)
    requires IsRun(ss, es) && i < |es| && es[i].DoCancelEvent?
    ensures Enabled(ss[i], es[i])
    ensures var db, a, reply := ss[i].db, es[i], ReplyTo(ss[i], es[i]);
            && (reply == NotFound <==> !Owns(db, a.user, a.e))
            && (reply == Conflict <==> Owns(db, a.user, a.e) && db.events[a.e].status != Cancelled && db.events[a.e].startsAt <= a.now)
            && (reply == Ok ==> if db.events[a.e].status == Cancelled then ss[i + 1].db == db else CalledOff(db, ss[i + 1].db, a.e))
            && (reply != Ok ==> ss[i + 1].db == db)
  {
    assert StepAt(ss, es, i);
    CancelEventMeans(ss[i].db, es[i].user, es[i].e, es[i].now, es[i].order);
  }

  // Only the organizer changes capacity and start, and nothing else changes with them.
  lemma UpdateAnswers(s: State, a: Step)
    requires a.Update? && Enabled(s, a)
    ensures ReplyTo(s, a) == if Owns(s.db, a.user, a.e) then Ok else NotFound
    ensures ReplyTo(s, a) != Ok ==> Apply(s, a) == s
    ensures ReplyTo(s, a) == Ok ==>
              var db' := Apply(s, a).db;
              && db'.regs == s.db.regs && db'.jobs == s.db.jobs
              && db'.events == s.db.events[a.e := Event(a.user, s.db.events[a.e].status, a.capacity, a.startsAt)]
  {
  }

  // A publish request passes its read exactly for the organizer's own draft.
  lemma PublishAnswers(db: DB, user: UserId, e: EventId)
    ensures var reply := PublishCheck(db, user, e);
            && (reply == Ok <==> Owns(db, user, e) && db.events[e].status == Draft)
            && (reply == NotFound <==> !Owns(db, user, e))
            && (reply == Conflict <==> Owns(db, user, e) && db.events[e].status != Draft)
  {
  }

  // How often event `e` was read for publication, and saved, in the first `n` steps.
  function PublishReads(es: seq<Step>, n: nat, e: EventId): nat
    requires n <= |es|
  {
    if n == 0 then 0 else PublishReads(es, n - 1, e) + if es[n - 1].BeginPublish? && es[n - 1].e == e then 1 else 0
  }

  function PublishSaves(es: seq<Step>, n: nat, e: EventId): nat
    requires n <= |es|
  {
    if n == 0 then 0 else PublishSaves(es, n - 1, e) + if es[n - 1].EndPublish? && es[n - 1].e == e then 1 else 0
  }

  // Every save belongs to a read of its own.
  lemma {:induction false} SavesFollowReads(ss: seq<State>, es: seq<Step>, n: nat, e: EventId)
    requires IsRun(ss, es) && n < |ss|
    ensures PublishSaves(es, n, e) + ss[n].publishing[e] == PublishReads(es, n, e)
  {
    if n > 0 {
      SavesFollowReads(ss, es, n - 1, e);
      assert StepAt(ss, es, n - 1);
    }
  }

  // A save makes the event published and changes nothing else.
  lemma SavePublishes(s: State, a: Step)
    requires a.EndPublish? && Enabled(s, a) && a.e in s.db.events
    ensures var db' := Apply(s, a).db;
            && db'.regs == s.db.regs && db'.jobs == s.db.jobs
            && db'.events == s.db.events[a.e := Event(s.db.events[a.e].organizer, Published, s.db.events[a.e].capacity, s.db.events[a.e].startsAt)]
  {
  }

  // In every run an event is a draft until a publish save of it.
  lemma {:induction false} PublishedBySave(ss: seq<State>, es: seq<Step>, n: nat, e: EventId)
    requires IsRun(ss, es) && n < |ss| && e in ss[n].db.events && ss[n].db.events[e].status == Published
    ensures PublishSaves(es, n, e) >= 1
  {
    if n > 0 {
      assert StepAt(ss, es, n - 1);
      PublishStep(ss[n - 1], es[n - 1], e);
      if e in ss[n - 1].db.events && ss[n - 1].db.events[e].status == Published { PublishedBySave(ss, es, n - 1, e); }
    }
  }

  lemma PublishStep(s: State, a: Step, e: EventId)
    requires Enabled(s, a) && e in Apply(s, a).db.events && Apply(s, a).db.events[e].status == Published
    ensures (e in s.db.events && s.db.events[e].status == Published) || (a.EndPublish? && a.e == e)
  {
    match a
    case DoRegister(student, e0, id, now) => RegisterMeans(s.db, student, e0, id, now);
    case EndCancel(_, r, now) => CancelKeepsEvents(s.db, r, now);
    case _ =>
  }
}
