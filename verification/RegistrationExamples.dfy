/** Concrete runs that show which registration guarantees depend on their conditions. */
module RegistrationExamples {
  import opened Basics
  import opened Waitlist
  import opened Registration
  import opened RegistrationLog
  import opened RegistrationSeats
  import opened EventCancellation
  import opened RegistrationReplies

  const ORGANIZER: UserId := 9
  const EVENT: EventId := 1

  // One more step of a run.
  lemma Then(ss: seq<State>, es: seq<Step>, a: Step) returns (ss': seq<State>, es': seq<Step>)
    requires IsRun(ss, es) && Enabled(ss[|es|], a)
    ensures IsRun(ss', es') && es' == es + [a] && ss' == ss + [Apply(ss[|es|], a)]
  {
    ss', es' := ss + [Apply(ss[|es|], a)], es + [a];
    forall i | 0 <= i < |es'| ensures StepAt(ss', es', i) {
      if i < |es| { assert StepAt(ss, es, i); }
    }
  }

  // Two publish requests have read the draft of an event with one seat, and the first has saved.
  lemma JustPublished() returns (ss: seq<State>, es: seq<Step>)
    ensures IsRun(ss, es) && |es| == 4 && AlwaysLater(ss, es, EVENT, 4)
    ensures ss[4] == State(DB(map[EVENT := Event(ORGANIZER, Published, 1, 100)], map[], []), multiset{}, multiset{EVENT}, map[EVENT := 1])
  {
    ss, es := [State(DB(map[], map[], []), multiset{}, multiset{}, map[])], [];
    ss, es := Then(ss, es, Create(EVENT, ORGANIZER, 1, 100));
    ss, es := Then(ss, es, BeginPublish(ORGANIZER, EVENT));
    ss, es := Then(ss, es, BeginPublish(ORGANIZER, EVENT));
    ss, es := Then(ss, es, EndPublish(EVENT));
  }

  // Its seat is taken by registration 7.
  lemma OneSeatTaken() returns (ss: seq<State>, es: seq<Step>)
    ensures IsRun(ss, es) && |es| == 5 && AlwaysLater(ss, es, EVENT, |es|)
    ensures ss[5] == State(DB(map[EVENT := Event(ORGANIZER, Published, 1, 100)],
                              map[7 := Reg(EVENT, 5, Confirmed, 1, None)],
                              [Job(7, RegistrationConfirmed, EVENT, 5, None)]),
                           multiset{}, multiset{EVENT}, map[EVENT := 1])
  {
    ss, es := JustPublished();
    assert WithStatus(ss[4].db.regs, EVENT, Confirmed) == {};
    ss, es := Then(ss, es, DoRegister(5, EVENT, 7, 1));
  }

  // Registration 11 waits; then the capacity is raised to 2.
  lemma WaitingThenRaised() returns (ss: seq<State>, es: seq<Step>)
    ensures IsRun(ss, es) && |es| == 7 && AlwaysLater(ss, es, EVENT, |es|) && Raises(ss[6], es[6], EVENT)
    ensures ss[7].db.events == map[EVENT := Event(ORGANIZER, Published, 2, 100)]
    ensures ss[7].db.regs == map[7 := Reg(EVENT, 5, Confirmed, 1, None), 11 := Reg(EVENT, 6, Waitlisted, 2, None)]
    ensures ss[7].db.jobs == [Job(7, RegistrationConfirmed, EVENT, 5, None), Job(11, RegistrationWaitlisted, EVENT, 6, Some(1))]
  {
    ss, es := OneSeatTaken();
    assert WithStatus(ss[5].db.regs, EVENT, Confirmed) == {7};
    assert WithStatus(ss[5].db.regs, EVENT, Waitlisted) == {};
    ss, es := Then(ss, es, DoRegister(6, EVENT, 11, 2));
    ss, es := Then(ss, es, Update(ORGANIZER, EVENT, 2, 100));
  }

  // Raising the capacity lets a newcomer overtake: registration 20 is seated while 11, which
  // registered earlier, keeps waiting.
  lemma RaiseLetsOvertake() returns (ss: seq<State>, es: seq<Step>)
    ensures IsRun(ss, es) && AlwaysLater(ss, es, EVENT, |es|) && !NeverRaised(ss, es, EVENT, |es|)
    ensures var db := ss[|es|].db;
            20 in Seats(db, EVENT) && 11 in Waiting(db, EVENT) && Before(db.regs, 11, 20)
  {
    ss, es := WaitingThenRaised();
    assert WithStatus(ss[7].db.regs, EVENT, Confirmed) == {7};
    ss, es := Then(ss, es, DoRegister(8, EVENT, 20, 3));
    assert Raises(ss[6], es[6], EVENT);
  }

  // Registration 11 waits, and two requests have read registration 7 to withdraw it.
  lemma TwoReads() returns (ss: seq<State>, es: seq<Step>)
    ensures IsRun(ss, es) && |es| == 8
    ensures ss[8].db.events == map[EVENT := Event(ORGANIZER, Published, 1, 100)]
    ensures ss[8].db.regs == map[7 := Reg(EVENT, 5, Confirmed, 1, None), 11 := Reg(EVENT, 6, Waitlisted, 2, None)]
    ensures ss[8].reading == multiset{(5, 7), (5, 7)}
  {
    ss, es := OneSeatTaken();
    assert WithStatus(ss[5].db.regs, EVENT, Confirmed) == {7};
    assert WithStatus(ss[5].db.regs, EVENT, Waitlisted) == {};
    ss, es := Then(ss, es, DoRegister(6, EVENT, 11, 2));
    ss, es := Then(ss, es, BeginCancel(5, 7));
    ss, es := Then(ss, es, BeginCancel(5, 7));
  }

  // A double withdrawal on stale reads: the first one gives the seat to registration 11, the
  // second decides on the row as it is by then and is refused.
  lemma DoubleWithdrawal() returns (ss: seq<State>, es: seq<Step>)
    ensures IsRun(ss, es) && |es| == 10
    ensures es[8] == EndCancel(5, 7, 3) && Enabled(ss[8], es[8]) && ReplyTo(ss[8], es[8]) == Ok
    ensures Seats(ss[9].db, EVENT) == {11} && Waiting(ss[9].db, EVENT) == {}
    ensures es[9] == EndCancel(5, 7, 4) && Enabled(ss[9], es[9]) && ReplyTo(ss[9], es[9]) == Conflict && ss[10].db == ss[9].db
  {
    ss, es := TwoReads();
    var before := ss[8];
    ss, es := Then(ss, es, EndCancel(5, 7, 3));
    FirstWithdrawal(ss, es);
    assert ss[9].reading == multiset{(5, 7)};
    ss, es := Then(ss, es, EndCancel(5, 7, 4));
  }

  lemma FirstWithdrawal(ss: seq<State>, es: seq<Step>)
    requires IsRun(ss, es) && |es| == 9 && es[8] == EndCancel(5, 7, 3)
    requires ss[8].db.events == map[EVENT := Event(ORGANIZER, Published, 1, 100)]
    requires ss[8].db.regs == map[7 := Reg(EVENT, 5, Confirmed, 1, None), 11 := Reg(EVENT, 6, Waitlisted, 2, None)]
    ensures Enabled(ss[8], es[8]) && ReplyTo(ss[8], es[8]) == Ok
    ensures ss[9].db.regs == map[7 := Reg(EVENT, 5, Withdrawn, 1, Some(3)), 11 := Reg(EVENT, 6, Confirmed, 2, None)]
    ensures ss[9].db.events == ss[8].db.events
  {
    WithdrawAnswers(ss, es, 8);
    CountsAgree(ss[8].db.regs, EVENT, Waitlisted);
    assert WithStatus(ss[8].db.regs, EVENT, Waitlisted) == {11};
  }

  // Cancelled with registration 7 told, then published again by the late save.
  lemma CancelledThenSaved() returns (ss: seq<State>, es: seq<Step>)
    ensures IsRun(ss, es) && |es| == 7
    ensures IsCancelled(ss[6].db, EVENT) && !IsCancelled(ss[7].db, EVENT) && StalePublish(ss[6], es[6])
    ensures ss[6].db.regs == ss[7].db.regs == map[7 := Reg(EVENT, 5, Confirmed, 1, None)]
    ensures ss[7].db.events == map[EVENT := Event(ORGANIZER, Published, 1, 100)]
    ensures ss[7].db.jobs == [Job(7, RegistrationConfirmed, EVENT, 5, None), Job(7, EventCancelled, EVENT, 5, None)]
  {
    ss, es := OneSeatTaken();
    assert ActiveIn(ss[5].db.regs, EVENT) == {7};
    ss, es := Then(ss, es, DoCancelEvent(ORGANIZER, EVENT, 2, [7]));
    ss, es := Then(ss, es, EndPublish(EVENT));
  }

  // The second of two publish requests saves after the event was cancelled. The
  // event takes registrations again, and cancelling it fails from then on.
  lemma StalePublishRevives() returns (ss: seq<State>, es: seq<Step>)
    ensures IsRun(ss, es) && |es| == 9
    ensures IsCancelled(ss[6].db, EVENT) && !IsCancelled(ss[7].db, EVENT) && StalePublish(ss[6], es[6])
    ensures 11 !in RegsOf(ss[6].db, EVENT) && 11 in RegsOf(ss[8].db, EVENT)
    ensures Enabled(ss[8], es[8]) && es[8].DoCancelEvent? && ReplyTo(ss[8], es[8]) == ServerError
  {
    ss, es := CancelledThenSaved();
    assert WithStatus(ss[7].db.regs, EVENT, Confirmed) == {7};
    var before := ss[7];
    ss, es := Then(ss, es, DoRegister(6, EVENT, 11, 3));
    assert ss[8] == Apply(before, DoRegister(6, EVENT, 11, 3));
    assert ss[8].db.regs == map[7 := Reg(EVENT, 5, Confirmed, 1, None), 11 := Reg(EVENT, 6, Waitlisted, 3, None)];
    assert ActiveIn(ss[8].db.regs, EVENT) == {7, 11};
    assert ss[8].db.jobs[1] == Job(7, EventCancelled, EVENT, 5, None);
    ss, es := Then(ss, es, DoCancelEvent(ORGANIZER, EVENT, 4, [7, 11]));
    assert KeyTaken(ss[8].db.jobs, 7, EventCancelled);
    FanOutCollides(ss[8].db, EVENT, [7, 11]);
  }
}
