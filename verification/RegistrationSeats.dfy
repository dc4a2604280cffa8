/** Seats and the waitlist: what every run of registrations, cancellations and capacity changes keeps. */
module RegistrationSeats {
  import opened Basics
  import opened Waitlist
  import opened Registration

  function Seats(db: DB, e: EventId): set<RegId> { WithStatus(db.regs, e, Confirmed) }

  function Waiting(db: DB, e: EventId): set<RegId> { WithStatus(db.regs, e, Waitlisted) }

  ghost function QueueOf(db: DB, e: EventId): seq<RegId> { Queue(db.regs, Waiting(db, e)) }

  // ---------------------------------------------------------------- what one transaction does to the sets

  // The registration table after a step: unchanged, one row more, or one seat given up.
  ghost predicate Registers(s: State, a: Step) {
    a.DoRegister? && Enabled(s, a) && Apply(s, a).db.regs != s.db.regs
  }

  ghost predicate Withdraws(s: State, a: Step) {
    a.EndCancel? && Enabled(s, a) && Apply(s, a).db.regs != s.db.regs
  }

  lemma OtherStepsKeepRegs(s: State, a: Step)
    requires Enabled(s, a) && !Registers(s, a) && !Withdraws(s, a)
    ensures Apply(s, a).db.regs == s.db.regs
  {
  }

  lemma SetAfterPut(regs: Regs, id: RegId, reg: Reg, e: EventId, st: RegStatus)
    requires id !in regs
    ensures WithStatus(regs[id := reg], e, st) == WithStatus(regs, e, st) + (if reg.event == e && reg.status == st then {id} else {})
  {
  }

  lemma RegisterRegs(s: State, a: Step)
    requires Registers(s, a)
    ensures a.e in s.db.events && a.id !in s.db.regs
    ensures Apply(s, a).db.regs == s.db.regs[a.id := Reg(a.e, a.student, PlacementOf(s.db.regs, a.e, s.db.events[a.e].capacity), a.now, None)]
    ensures Apply(s, a).db.events == s.db.events && Apply(s, a).maxCap == s.maxCap
  {
  }

  lemma RegisterSets(s: State, a: Step, e: EventId)
    requires Registers(s, a)
    ensures a.e in s.db.events && a.id in Apply(s, a).db.regs && a.id !in s.db.regs
    ensures var db, db' := s.db, Apply(s, a).db;
            var put := PlacementOf(db.regs, a.e, db.events[a.e].capacity);
            && db'.regs == db.regs[a.id := Reg(a.e, a.student, put, a.now, None)]
            && Seats(db', e) == Seats(db, e) + (if e == a.e && put == Confirmed then {a.id} else {})
            && Waiting(db', e) == Waiting(db, e) + (if e == a.e && put == Waitlisted then {a.id} else {})
  {
    RegisterRegs(s, a);
    var reg := Reg(a.e, a.student, PlacementOf(s.db.regs, a.e, s.db.events[a.e].capacity), a.now, None);
    SetAfterPut(s.db.regs, a.id, reg, e, Confirmed);
    SetAfterPut(s.db.regs, a.id, reg, e, Waitlisted);
  }

  lemma TransactionsKeepCapacity(s: State, a: Step, e: EventId)
    requires Enabled(s, a) && !a.Create? && !a.Update?
    ensures Apply(s, a).maxCap == s.maxCap && Apply(s, a).db.events.Keys == s.db.events.Keys
    ensures e in s.db.events ==> Apply(s, a).db.events[e].capacity == s.db.events[e].capacity
  {
    match a
    case EndCancel(_, r, now) => CancelKeepsEvents(s.db, r, now);
    case DoRegister(student, e0, id, now) => assert Register(s.db, student, e0, id, now).0.events == s.db.events;
    case _ =>
  }

  lemma CancelKeepsEvents(db: DB, r: RegId, now: int)
    ensures CancelLocked(db, r, now).0.events == db.events
  {
  }

  // How capacity moves: by an update of the event, or with its creation.
  lemma CapacityEffect(s: State, a: Step, e: EventId)
    requires Enabled(s, a) && s.maxCap.Keys == s.db.events.Keys
    ensures Apply(s, a).maxCap.Keys == Apply(s, a).db.events.Keys && s.db.events.Keys <= Apply(s, a).db.events.Keys
    ensures e in Apply(s, a).db.events ==>
              var cap', max' := Apply(s, a).db.events[e].capacity, Apply(s, a).maxCap[e];
              if e in s.db.events then
                || (cap' == s.db.events[e].capacity && max' == s.maxCap[e])
                || (Updates(s, a, e) && cap' == a.capacity && max' == Larger(s.maxCap[e], cap'))
              else a.Create? && cap' == max' == a.capacity >= 1
  {
    match a
    case Create(_, _, _, _) =>
    case Update(_, _, _, _) =>
    case _ => TransactionsKeepCapacity(s, a, e);
  }

  // The organizer updates the event.
  predicate Updates(s: State, a: Step, e: EventId) {
    a.Update? && a.e == e && e in s.db.events && s.db.events[e].organizer == a.user
  }

  lemma WithdrawSets(s: State, a: Step, e: EventId)
    requires Withdraws(s, a)
    ensures var db, db' := s.db, Apply(s, a).db;
            && a.r in db.regs && db.regs[a.r].status != Withdrawn
            && (db.regs[a.r].event != e ==> Seats(db', e) == Seats(db, e) && Waiting(db', e) == Waiting(db, e))
            && (db.regs[a.r].event == e && Promotes(db.regs, a.r) ==>
                  var p := First(db.regs, Waiting(db, e));
                  && a.r in Seats(db, e)
                  && Seats(db', e) == Seats(db, e) - {a.r} + {p} && Waiting(db', e) == Waiting(db, e) - {p})
            && (db.regs[a.r].event == e && !Promotes(db.regs, a.r) ==>
                  Seats(db', e) == Seats(db, e) - {a.r} && Waiting(db', e) == Waiting(db, e) - {a.r})
  {
    var db, db' := s.db, Apply(s, a).db;
    if Promotes(db.regs, a.r) {
      var p := NextUp(db.regs, a.r);
      assert db'.regs == Withdraw(db.regs, a.r, a.now)[p := db.regs[p].(status := Confirmed)];
    } else {
      assert db'.regs == Withdraw(db.regs, a.r, a.now);
    }
  }

  // Rows never change their place in the order.
  lemma SameTimes(s: State, a: Step)
    requires Enabled(s, a)
    ensures s.db.regs.Keys <= Apply(s, a).db.regs.Keys
    ensures forall r :: r in s.db.regs ==> Apply(s, a).db.regs[r].registeredAt == s.db.regs[r].registeredAt
  {
  }

  // ---------------------------------------------------------------- seat conservation

  ghost predicate SeatsOk(s: State) {
    && s.maxCap.Keys == s.db.events.Keys
    && (forall r :: r in s.db.regs ==> s.db.regs[r].event in s.db.events)
    && forall e :: e in s.db.events ==> s.db.events[e].capacity <= s.maxCap[e] && |Seats(s.db, e)| <= s.maxCap[e]
  }

  // One step's effect on the number of taken seats of one event.
  lemma SeatCount(s: State, a: Step, e: EventId)
    requires Enabled(s, a)
    ensures var db, db' := s.db, Apply(s, a).db;
            || |Seats(db', e)| <= |Seats(db, e)|
            || (e in db.events && |Seats(db', e)| == |Seats(db, e)| + 1 && |Seats(db, e)| < db.events[e].capacity)
  {
    if Registers(s, a) {
      RegisterSets(s, a, e);
    } else if Withdraws(s, a) {
      WithdrawSets(s, a, e);
    } else {
      OtherStepsKeepRegs(s, a);
    }
  }

  lemma NewEventEmpty(s: State, e: EventId)
    requires SeatsOk(s) && e !in s.db.events
    ensures Seats(s.db, e) == {}
  {
  }

  lemma SeatsStepAt(s: State, a: Step, e: EventId)
    requires SeatsOk(s) && Enabled(s, a) && e in Apply(s, a).db.events
    ensures e in Apply(s, a).maxCap
    ensures Apply(s, a).db.events[e].capacity <= Apply(s, a).maxCap[e] && |Seats(Apply(s, a).db, e)| <= Apply(s, a).maxCap[e]
  {
    CapacityEffect(s, a, e);
    if e in s.db.events {
      SeatCount(s, a, e);
    } else {
      NewEventEmpty(s, e);
      OtherStepsKeepRegs(s, a);
    }
  }

  lemma RegsHaveEvents(s: State, a: Step, r: RegId)
    requires SeatsOk(s) && Enabled(s, a) && r in Apply(s, a).db.regs
    ensures Apply(s, a).db.regs[r].event in s.db.events
  {
    if Registers(s, a) {
      RegisterRegs(s, a);
    } else if Withdraws(s, a) {
      WithdrawKeepsRows(s, a);
    } else {
      OtherStepsKeepRegs(s, a);
    }
  }

  lemma WithdrawKeepsRows(s: State, a: Step)
    requires Withdraws(s, a)
    ensures Apply(s, a).db.regs.Keys == s.db.regs.Keys
    ensures forall r :: r in s.db.regs ==> Apply(s, a).db.regs[r].event == s.db.regs[r].event
  {
  }

  lemma SeatsStep(s: State, a: Step)
    requires SeatsOk(s) && Enabled(s, a)
    ensures SeatsOk(Apply(s, a))
  {
    var s' := Apply(s, a);
    CapacityEffect(s, a, 0);
    forall r | r in s'.db.regs ensures s'.db.regs[r].event in s'.db.events { RegsHaveEvents(s, a, r); }
    forall e | e in s'.db.events ensures s'.db.events[e].capacity <= s'.maxCap[e] && |Seats(s'.db, e)| <= s'.maxCap[e] {
      SeatsStepAt(s, a, e);
    }
  }

  lemma {:induction false} SeatsRun(ss: seq<State>, es: seq<Step>, i: nat)
    requires IsRun(ss, es) && i < |ss|
    ensures SeatsOk(ss[i])
  {
    if i > 0 {
      SeatsRun(ss, es, i - 1);
      assert StepAt(ss, es, i - 1);
      SeatsStep(ss[i - 1], es[i - 1]);
    }
  }

  // Overbooking is impossible: taken seats never exceed the largest capacity the event has
  // had, and their number never grows while it is at or above the current capacity.
  lemma SeatConservation(ss: seq<State>, es: seq<Step>, i: nat, e: EventId)
    requires IsRun(ss, es) && i < |ss| && e in ss[i].db.events
    ensures e in ss[i].maxCap && |Seats(ss[i].db, e)| <= ss[i].maxCap[e]
    ensures i < |es| && |Seats(ss[i].db, e)| >= ss[i].db.events[e].capacity ==>
              |Seats(ss[i + 1].db, e)| <= |Seats(ss[i].db, e)|
  {
    SeatsRun(ss, es, i);
    if i < |es| {
      assert StepAt(ss, es, i);
      SeatCount(ss[i], es[i], e);
    }
  }

  // The recorded maximum is a capacity the event really had.
  lemma {:induction false} MaxCapWasHad(ss: seq<State>, es: seq<Step>, i: nat, e: EventId)
    requires IsRun(ss, es) && i < |ss| && e in ss[i].db.events
    ensures e in ss[i].maxCap
    ensures exists k :: 0 <= k <= i && e in ss[k].db.events && ss[k].db.events[e].capacity == ss[i].maxCap[e]
  {
    SeatsRun(ss, es, i);
    if i > 0 {
      assert StepAt(ss, es, i - 1);
      SeatsRun(ss, es, i - 1);
      CapacityEffect(ss[i - 1], es[i - 1], e);
      if e in ss[i - 1].db.events {
        MaxCapWasHad(ss, es, i - 1, e);
        var k :| 0 <= k <= i - 1 && e in ss[k].db.events && ss[k].db.events[e].capacity == ss[i - 1].maxCap[e];
        assert ss[i].maxCap[e] == ss[i - 1].maxCap[e] || ss[i].maxCap[e] == ss[i].db.events[e].capacity;
      } else {
        assert ss[i].db.events[e].capacity == ss[i].maxCap[e];
      }
    }
  }

  // ---------------------------------------------------------------- the waitlist is a FIFO queue

  datatype QueueOp = Enqueue(r: RegId) | Dequeue | Leave(r: RegId) | Keep

  ghost function Index(q: seq<RegId>, r: RegId): (i: nat)
    requires r in q
    ensures i < |q| && q[i] == r
  {
    var i: nat :| i < |q| && q[i] == r;
    i
  }

  ghost function QueueApply(q: seq<RegId>, op: QueueOp): seq<RegId> {
    match op
    case Enqueue(r) => q + [r]
    case Dequeue => if q == [] then q else q[1..]
    case Leave(r) => if r in q then var i := Index(q, r); q[..i] + q[i + 1..] else q
    case Keep => q
  }

  // What a step means for the queue of event `e`: a registration that finds no seat joins it,
  // a withdrawn seat pops it, a withdrawn waiter leaves it.
  ghost function OpOf(s: State, a: Step, e: EventId): QueueOp {
    if Registers(s, a) && a.e == e && e in s.db.events && |Seats(s.db, e)| >= s.db.events[e].capacity then Enqueue(a.id)
    else if Withdraws(s, a) && a.r in Seats(s.db, e) then Dequeue
    else if Withdraws(s, a) && a.r in Waiting(s.db, e) then Leave(a.r)
    else Keep
  }

  // A new row of event `e` has a timestamp later than those of all its rows.
  ghost predicate Later(s: State, a: Step, e: EventId) {
    a.DoRegister? && a.e == e ==> forall r :: r in s.db.regs && s.db.regs[r].event == e ==> s.db.regs[r].registeredAt < a.now
  }

  lemma QueueMoves(s: State, a: Step, S: set<RegId>)
    requires Enabled(s, a) && S <= s.db.regs.Keys
    ensures S <= Apply(s, a).db.regs.Keys && Queue(Apply(s, a).db.regs, S) == Queue(s.db.regs, S)
  {
    SameTimes(s, a);
    ListingUnique(s.db.regs, Apply(s, a).db.regs, Queue(s.db.regs, S), Queue(Apply(s, a).db.regs, S), S);
  }

  lemma QueueLeave(regs: Regs, S: set<RegId>, r: RegId)
    requires S <= regs.Keys && r in S
    ensures Queue(regs, S - {r}) == QueueApply(Queue(regs, S), Leave(r))
  {
    var q := Queue(regs, S);
    RemoveOne(regs, S, Index(q, r));
  }

  lemma EnqueueStep(s: State, a: Step)
    requires Registers(s, a) && Later(s, a, a.e)
    requires |Seats(s.db, a.e)| >= s.db.events[a.e].capacity
    ensures QueueOf(Apply(s, a).db, a.e) == QueueOf(s.db, a.e) + [a.id]
  {
    var regs' := Apply(s, a).db.regs;
    RegisterSets(s, a, a.e);
    QueueMoves(s, a, Waiting(s.db, a.e));
    AppendIff(regs', Waiting(s.db, a.e), a.id);
  }

  lemma RegisterOp(s: State, a: Step, e: EventId)
    requires Registers(s, a)
    ensures a.e in s.db.events
    ensures OpOf(s, a, e) == if a.e == e && |Seats(s.db, e)| >= s.db.events[e].capacity then Enqueue(a.id) else Keep
  {
  }

  lemma SameWaiting(s: State, a: Step, e: EventId)
    requires Registers(s, a) && a.e in s.db.events
    requires !(a.e == e && |Seats(s.db, e)| >= s.db.events[e].capacity)
    ensures Waiting(Apply(s, a).db, e) == Waiting(s.db, e)
  {
    RegisterSets(s, a, e);
  }

  lemma RegisterKeeps(s: State, a: Step, e: EventId)
    requires Registers(s, a) && a.e in s.db.events
    requires !(a.e == e && |Seats(s.db, e)| >= s.db.events[e].capacity)
    ensures QueueOf(Apply(s, a).db, e) == QueueOf(s.db, e)
  {
    SameWaiting(s, a, e);
    QueueMoves(s, a, Waiting(s.db, e));
  }

  lemma RegisterStep(s: State, a: Step, e: EventId)
    requires Registers(s, a) && Later(s, a, e)
    ensures QueueOf(Apply(s, a).db, e) == QueueApply(QueueOf(s.db, e), OpOf(s, a, e))
  {
    RegisterOp(s, a, e);
    if a.e == e && |Seats(s.db, e)| >= s.db.events[e].capacity {
      EnqueueStep(s, a);
    } else {
      RegisterKeeps(s, a, e);
    }
  }

  // Every step acts on the waitlist of every event as the queue operation it stands for.
  lemma WaitlistRefinesQueue(s: State, a: Step, e: EventId)
    requires Enabled(s, a) && Later(s, a, e)
    ensures QueueOf(Apply(s, a).db, e) == QueueApply(QueueOf(s.db, e), OpOf(s, a, e))
  {
    if Registers(s, a) {
      RegisterStep(s, a, e);
    } else if Withdraws(s, a) {
      WithdrawStep(s, a, e);
    } else {
      OtherStepsKeepRegs(s, a);
    }
  }

  lemma WithdrawStep(s: State, a: Step, e: EventId)
    requires Withdraws(s, a)
    ensures QueueOf(Apply(s, a).db, e) == QueueApply(QueueOf(s.db, e), OpOf(s, a, e))
  {
    var db := s.db;
    WithdrawSets(s, a, e);
    var W, W' := Waiting(db, e), Waiting(Apply(s, a).db, e);
    QueueMoves(s, a, W');
    if a.r in W {
      QueueLeave(db.regs, W, a.r);
    } else if a.r in Seats(db, e) && W != {} {
      assert Queue(db.regs, W)[0] == First(db.regs, W);
      RemoveOne(db.regs, W, 0);
    } else {
      assert W' == W;
      if W == {} { assert QueueOf(db, e) == []; }
    }
  }

  // The abstract queue after `i` steps of a run: it starts empty and sees only the operations.
  ghost function AbstractQueue(ss: seq<State>, es: seq<Step>, e: EventId, i: nat): seq<RegId>
    requires |ss| == |es| + 1 && i < |ss|
  {
    if i == 0 then [] else QueueApply(AbstractQueue(ss, es, e, i - 1), OpOf(ss[i - 1], es[i - 1], e))
  }

  lemma EmptyTable(db: DB, e: EventId)
    requires db.regs == map[]
    ensures QueueOf(db, e) == []
  {
    assert Waiting(db, e) == {};
  }

  lemma QueueStepAt(ss: seq<State>, es: seq<Step>, e: EventId, i: nat)
    requires IsRun(ss, es) && i < |es| && Later(ss[i], es[i], e)
    ensures QueueOf(ss[i + 1].db, e) == QueueApply(QueueOf(ss[i].db, e), OpOf(ss[i], es[i], e))
  {
    assert StepAt(ss, es, i);
    WaitlistRefinesQueue(ss[i], es[i], e);
  }

  // Over a whole run the table's waitlist is that queue.
  lemma {:induction false} WaitlistIsQueue(ss: seq<State>, es: seq<Step>, e: EventId, i: nat)
    requires IsRun(ss, es) && i < |ss| && AlwaysLater(ss, es, e, i)
    ensures QueueOf(ss[i].db, e) == AbstractQueue(ss, es, e, i)
  {
    if i == 0 {
      EmptyTable(ss[0].db, e);
    } else {
      WaitlistIsQueue(ss, es, e, i - 1);
      QueueStepAt(ss, es, e, i - 1);
    }
  }

  // The promoted registration is the head of the queue, and the only newcomer to a seat.
  lemma PromotionTakesHead(s: State, a: Step, e: EventId)
    requires Withdraws(s, a) && a.r in Seats(s.db, e)
    ensures Seats(Apply(s, a).db, e) ==
              Seats(s.db, e) - {a.r} + (if QueueOf(s.db, e) == [] then {} else {QueueOf(s.db, e)[0]})
  {
    WithdrawSets(s, a, e);
    var W := Waiting(s.db, e);
    if W == {} { assert QueueOf(s.db, e) == []; } else { assert QueueOf(s.db, e)[0] == First(s.db.regs, W); }
  }

  // ---------------------------------------------------------------- no overtaking

  predicate Raises(s: State, a: Step, e: EventId) {
    Updates(s, a, e) && a.capacity > s.db.events[e].capacity
  }

  // Capacity of event `e` is not raised in the first `n` steps.
  ghost predicate NeverRaised(ss: seq<State>, es: seq<Step>, e: EventId, n: nat)
    requires |ss| == |es| + 1 && n < |ss|
  {
    forall m :: 0 <= m < n ==> !Raises(ss[m], es[m], e)
  }

  // Timestamps of event `e` increase in the first `n` steps.
  ghost predicate AlwaysLater(ss: seq<State>, es: seq<Step>, e: EventId, n: nat)
    requires |ss| == |es| + 1 && n < |ss|
  {
    forall m {:trigger Later(ss[m], es[m], e)} :: 0 <= m < n ==> Later(ss[m], es[m], e)
  }

  // People wait only while the event is full.
  ghost predicate FullIfWaiting(db: DB, e: EventId) {
    e in db.events && Waiting(db, e) != {} ==> |Seats(db, e)| >= db.events[e].capacity
  }

  // An update that leaves seats free although people wait.
  predicate OpensSeat(s: State, a: Step, e: EventId) {
    Updates(s, a, e) && |Seats(s.db, e)| < a.capacity && Waiting(s.db, e) != {}
  }

  // From a full event only such an update leads to one with people waiting and a free seat.
  lemma FullStep(s: State, a: Step, e: EventId)
    requires Enabled(s, a) && FullIfWaiting(s.db, e) && SeatsOk(s)
    ensures FullIfWaiting(Apply(s, a).db, e) <==> !OpensSeat(s, a, e)
  {
    CapacityEffect(s, a, e);
    if Registers(s, a) {
      RegisterSets(s, a, e);
    } else if Withdraws(s, a) {
      WithdrawSets(s, a, e);
    } else {
      OtherStepsKeepRegs(s, a);
      if e !in s.db.events { assert Waiting(s.db, e) == {}; }
    }
  }

  lemma {:induction false} FullUntil(ss: seq<State>, es: seq<Step>, e: EventId, i: nat)
    requires IsRun(ss, es) && i < |ss| && forall m :: 0 <= m < i ==> !OpensSeat(ss[m], es[m], e)
    ensures FullIfWaiting(ss[i].db, e)
  {
    if i > 0 {
      FullUntil(ss, es, e, i - 1);
      SeatsRun(ss, es, i - 1);
      assert StepAt(ss, es, i - 1);
      FullStep(ss[i - 1], es[i - 1], e);
    }
  }

  // People waited only while the event was full, up to step `i`, exactly when no update left
  // seats free while people waited.
  lemma WaitingMeansFullIff(ss: seq<State>, es: seq<Step>, e: EventId, i: nat)
    requires IsRun(ss, es) && i < |ss|
    ensures (forall m :: 0 <= m <= i ==> FullIfWaiting(ss[m].db, e)) <==>
            (forall m :: 0 <= m < i ==> !OpensSeat(ss[m], es[m], e))
  {
    if m :| 0 <= m < i && OpensSeat(ss[m], es[m], e) {
      assert StepAt(ss, es, m);
      SeatsRun(ss, es, m);
      if FullIfWaiting(ss[m].db, e) {
        FullStep(ss[m], es[m], e);
        assert !FullIfWaiting(ss[m + 1].db, e);
      }
    } else {
      forall m | 0 <= m <= i ensures FullIfWaiting(ss[m].db, e) { FullUntil(ss, es, e, m); }
    }
  }

  // In particular while capacity is not raised.
  lemma {:induction false} WaitingMeansFull(ss: seq<State>, es: seq<Step>, e: EventId, i: nat)
    requires IsRun(ss, es) && i < |ss| && NeverRaised(ss, es, e, i)
    ensures e in ss[i].db.events && Waiting(ss[i].db, e) != {} ==> |Seats(ss[i].db, e)| >= ss[i].db.events[e].capacity
  {
    if i > 0 {
      WaitingMeansFull(ss, es, e, i - 1);
      SeatsRun(ss, es, i - 1);
      assert StepAt(ss, es, i - 1) && !Raises(ss[i - 1], es[i - 1], e);
      FullStep(ss[i - 1], es[i - 1], e);
    }
  }

  // Everyone seated registered before everyone waiting.
  ghost predicate SeatedFirst(db: DB, e: EventId) {
    forall a, b :: a in Seats(db, e) && b in Waiting(db, e) ==> Before(db.regs, a, b)
  }

  // A registration that takes a free seat while others wait.
  ghost predicate Overtakes(s: State, a: Step, e: EventId) {
    Registers(s, a) && a.e == e && e in s.db.events && |Seats(s.db, e)| < s.db.events[e].capacity && Waiting(s.db, e) != {}
  }

  // Every other step keeps the order.
  lemma SeatedFirstStep(s: State, a: Step, e: EventId)
    requires Enabled(s, a) && Later(s, a, e) && SeatedFirst(s.db, e) && !Overtakes(s, a, e)
    ensures SeatedFirst(Apply(s, a).db, e)
  {
    var db, db' := s.db, Apply(s, a).db;
    SameTimes(s, a);
    if Registers(s, a) { RegisterSets(s, a, e); }
    else if Withdraws(s, a) { WithdrawSets(s, a, e); }
    else { OtherStepsKeepRegs(s, a); }
    forall x, y | x in Seats(db', e) && y in Waiting(db', e) ensures Before(db'.regs, x, y) {
      if x in Seats(db, e) && y in Waiting(db, e) {
        assert Before(db.regs, x, y);
      }
    }
  }

  lemma OvertakingBreaksOrder(s: State, a: Step, e: EventId)
    requires Enabled(s, a) && Later(s, a, e) && Overtakes(s, a, e)
    ensures !SeatedFirst(Apply(s, a).db, e)
  {
    RegisterSets(s, a, e);
    var y :| y in Waiting(s.db, e);
    assert y in Waiting(Apply(s, a).db, e) && a.id in Seats(Apply(s, a).db, e);
    assert !Before(Apply(s, a).db.regs, a.id, y);
  }

  lemma {:induction false} SeatedFirstUntil(ss: seq<State>, es: seq<Step>, e: EventId, i: nat)
    requires IsRun(ss, es) && i < |ss| && AlwaysLater(ss, es, e, i)
    requires forall m :: 0 <= m < i ==> !Overtakes(ss[m], es[m], e)
    ensures SeatedFirst(ss[i].db, e)
  {
    if i > 0 {
      SeatedFirstUntil(ss, es, e, i - 1);
      assert StepAt(ss, es, i - 1) && Later(ss[i - 1], es[i - 1], e);
      SeatedFirstStep(ss[i - 1], es[i - 1], e);
    }
  }

  // First come, first served up to step `i` exactly when no registration found a free seat while
  // others were waiting.
  lemma NoOvertakingIff(ss: seq<State>, es: seq<Step>, e: EventId, i: nat)
    requires IsRun(ss, es) && i < |ss| && AlwaysLater(ss, es, e, i)
    ensures (forall m :: 0 <= m <= i ==> SeatedFirst(ss[m].db, e)) <==>
            (forall m :: 0 <= m < i ==> !Overtakes(ss[m], es[m], e))
  {
    if m :| 0 <= m < i && Overtakes(ss[m], es[m], e) {
      assert StepAt(ss, es, m) && Later(ss[m], es[m], e);
      OvertakingBreaksOrder(ss[m], es[m], e);
      assert !SeatedFirst(ss[m + 1].db, e);
    } else {
      forall m | 0 <= m <= i ensures SeatedFirst(ss[m].db, e) { SeatedFirstUntil(ss, es, e, m); }
    }
  }

  // While capacity is never raised no registration does, so no one is seated ahead of an
  // earlier registrant who is still waiting.
  lemma NoOvertaking(ss: seq<State>, es: seq<Step>, e: EventId, i: nat)
    requires IsRun(ss, es) && i < |ss| && NeverRaised(ss, es, e, i) && AlwaysLater(ss, es, e, i)
    ensures forall a, b :: a in Seats(ss[i].db, e) && b in Waiting(ss[i].db, e) ==> Before(ss[i].db.regs, a, b)
  {
    forall m | 0 <= m < i ensures !Overtakes(ss[m], es[m], e) { WaitingMeansFull(ss, es, e, m); }
    NoOvertakingIff(ss, es, e, i);
    assert SeatedFirst(ss[i].db, e);
  }
}
