/**
 The service functions working on the tables in place. Each transaction is proved to do what
 the corresponding function of module Registration does; a failed one leaves the tables alone.
 */
module RegistrationService {
  import opened Basics
  import opened Waitlist
  import opened Registration

  // `q` is the queue of `S` up to the rows in `left`.
  ghost predicate QueuedUpTo(regs: Regs, q: seq<RegId>, left: set<RegId>, S: set<RegId>)
    requires left <= S <= regs.Keys
  {
    q + Queue(regs, left) == Queue(regs, S)
  }

  lemma QueuedOneMore(regs: Regs, q: seq<RegId>, left: set<RegId>, S: set<RegId>)
    requires left <= S <= regs.Keys && left != {} && QueuedUpTo(regs, q, left, S)
    ensures QueuedUpTo(regs, q + [First(regs, left)], left - {First(regs, left)}, S)
  {
    var m := First(regs, left);
    assert q + Queue(regs, left) == (q + [m]) + Queue(regs, left - {m});
  }

  // `n` is the 1-based place of `r` in its event's waitlist.
  ghost predicate PlacedAt(regs: Regs, r: RegId, n: nat)
    requires r in regs
  {
    var q := Queue(regs, WithStatus(regs, regs[r].event, Waitlisted));
    1 <= n <= |q| && q[n - 1] == r
  }

  // One entry of a student's own list.
  datatype MyRegistration = MyRegistration(reg: Reg, position: Option<nat>)

  // The row as it is, with its place in the waitlist exactly if it is waitlisted.
  ghost predicate AnswersFor(regs: Regs, r: RegId, entry: MyRegistration)
    requires r in regs
  {
    && entry.reg == regs[r]
    && (entry.position.Some? <==> regs[r].status == Waitlisted)
    && (entry.position.Some? ==> PlacedAt(regs, r, entry.position.value))
  }

  lemma CountedIsPlaced(regs: Regs, r: RegId)
    requires r in regs && regs[r].status == Waitlisted
    ensures PlacedAt(regs, r, Position(regs, WithStatus(regs, regs[r].event, Waitlisted), r))
  {
    var waiting := WithStatus(regs, regs[r].event, Waitlisted);
    var i := PlaceOf(regs, Queue(regs, waiting), waiting, r);
  }

  lemma NewcomerCounted(regs: Regs, e: EventId, id: RegId, reg: Reg)
    requires id !in regs && reg.event == e
    ensures |WithStatus(regs[id := reg], e, Waitlisted)| == |WithStatus(regs, e, Waitlisted)| + if reg.status == Waitlisted then 1 else 0
  {
    assert WithStatus(regs[id := reg], e, Waitlisted) == WithStatus(regs, e, Waitlisted) + if reg.status == Waitlisted then {id} else {};
  }

  class Service {
    var events: map<EventId, Event>
    var regs: Regs
    var jobs: seq<Job>

    ghost function View(): DB
      reads this
    {
      DB(events, regs, jobs)
    }

    constructor ()
      ensures View() == DB(map[], map[], [])
    {
      events, regs, jobs := map[], map[], [];
    }

    // Seat or waitlist place for a newcomer, from the two counts.
    method Place(e: EventId) returns (status: RegStatus, kind: Kind, position: Option<nat>)
      requires e in events
      ensures status == PlacementOf(regs, e, events[e].capacity)
      ensures forall student, id :: Job(id, kind, e, student, position) == RegistrationJob(regs, e, events[e].capacity, student, id)
      ensures position == if status == Waitlisted then Some(|WithStatus(regs, e, Waitlisted)| + 1) else None
    {
      var confirmedCount := |WithStatus(regs, e, Confirmed)|;
      if confirmedCount < events[e].capacity {
        return Confirmed, RegistrationConfirmed, None;
      }
      return Waitlisted, RegistrationWaitlisted, Some(|WithStatus(regs, e, Waitlisted)| + 1);
    }

    method RegisterStudent(student: UserId, e: EventId, id: RegId, now: int) returns (reply: Reply, position: Option<nat>)
      requires id !in regs
      modifies this
      ensures (View(), reply) == Register(old(View()), student, e, id, now)
      ensures reply == Ok ==> id in regs && position == if regs[id].status == Waitlisted then Some(|WithStatus(regs, e, Waitlisted)|) else None
    {
      if e !in events || events[e].status != Published {
        return NotFound, None;
      }
      var status, kind, place := Place(e);
      if HasActive(regs, e, student) {
        return Conflict, None;
      }
      var new_ := [Job(id, kind, e, student, place)];
      if Collides(jobs, new_) {
        return ServerError, None;
      }
      NewcomerCounted(regs, e, id, Reg(e, student, status, now, None));
      regs := regs[id := Reg(e, student, status, now, None)];
      jobs := jobs + new_;
      return Ok, place;
    }

    // The earliest of the given rows.
    method FirstOf(S: set<RegId>) returns (m: RegId)
      requires S != {} && S <= regs.Keys
      ensures m in S && m == First(regs, S)
    {
      m :| m in S;
      var rest := S - {m};
      while rest != {}
        invariant rest <= S && m in S && m !in rest
        invariant forall r :: r in S && r !in rest && r != m ==> Before(regs, m, r)
        decreases |rest|
      {
        var x :| x in rest;
        if Before(regs, x, m) {
          m := x;
        }
        rest := rest - {x};
      }
    }

    // The part of `cancel_registration` under the event lock.
    method FinishCancel(r: RegId, now: int) returns (reply: Reply)
      modifies this
      ensures (View(), reply) == CancelLocked(old(View()), r, now)
    {
      if r !in regs || regs[r].event !in events {
        return NotFound;
      }
      var reg := regs[r];
      if reg.status == Withdrawn || events[reg.event].startsAt <= now {
        return Conflict;
      }
      var wasConfirmed := reg.status == Confirmed;
      var newRegs := regs[r := reg.(status := Withdrawn, cancelledAt := Some(now))];
      var newJobs: seq<Job> := [];
      var waiting := WithStatus(regs, reg.event, Waitlisted);
      if wasConfirmed && waiting != {} {
        var p := FirstOf(waiting);
        newRegs := newRegs[p := newRegs[p].(status := Confirmed)];
        newJobs := [Job(p, WaitlistPromoted, regs[p].event, regs[p].student, None)];
        assert p == NextUp(regs, r) && newJobs + [CancelJob(regs, r)] == [PromoteJob(regs, p), CancelJob(regs, r)];
      } else {
        assert newJobs + [CancelJob(regs, r)] == [CancelJob(regs, r)];
      }
      newJobs := newJobs + [Job(r, RegistrationCancelled, reg.event, reg.student, None)];
      if Collides(jobs, newJobs) {
        return ServerError;
      }
      regs, jobs := newRegs, jobs + newJobs;
      reply := Ok;
    }

    method CancelEventByOwner(user: UserId, e: EventId, now: int) returns (reply: Reply, ghost order: seq<RegId>)
      modifies this
      ensures Enumerates(order, ActiveIn(old(regs), e))
      ensures (View(), reply) == CancelEvent(old(View()), user, e, now, order)
    {
      var ids := InAnyOrder(ActiveIn(regs, e));
      order := ids;
      if e !in events || events[e].organizer != user {
        return NotFound, order;
      }
      if events[e].status == Cancelled {
        return Ok, order;
      }
      if events[e].startsAt <= now {
        return Conflict, order;
      }
      var newJobs := CancelJobs(regs, ids);
      if Collides(jobs, newJobs) {
        return ServerError, order;
      }
      events := events[e := events[e].(status := Cancelled)];
      jobs := jobs + newJobs;
      reply := Ok;
    }

    // Rows of an unordered query.
    method InAnyOrder(S: set<RegId>) returns (order: seq<RegId>)
      ensures Enumerates(order, S)
    {
      order := [];
      var left := S;
      while left != {}
        invariant left <= S && Enumerates(order, S - left)
        decreases |left|
      {
        var x :| x in left;
        ghost var before := order;
        order := order + [x];
        left := left - {x};
        forall r | r in S - left ensures r in order {
          if r != x { assert r in before; } else { assert order[|before|] == x; }
        }
      }
      assert S - left == S;
    }

    method Ordered(S: set<RegId>) returns (q: seq<RegId>)
      requires S <= regs.Keys
      ensures q == Queue(regs, S)
    {
      q := [];
      var left := S;
      while left != {}
        invariant left <= S
        invariant QueuedUpTo(regs, q, left, S)
        decreases |left|
      {
        var m := FirstOf(left);
        QueuedOneMore(regs, q, left, S);
        q := q + [m];
        left := left - {m};
      }
    }

    // The student's registrations that are not withdrawn, with one count per waitlisted row.
    method ListMine(student: UserId) returns (mine: map<RegId, MyRegistration>)
      ensures mine.Keys == set r | r in regs && regs[r].student == student && regs[r].status != Withdrawn
      ensures forall r :: r in mine ==> AnswersFor(regs, r, mine[r])
    {
      var rows := set r | r in regs && regs[r].student == student && regs[r].status != Withdrawn;
      mine := map[];
      var left := rows;
      while left != {}
        invariant left <= rows && mine.Keys == rows - left
        invariant forall r :: r in mine ==> AnswersFor(regs, r, mine[r])
        decreases |left|
      {
        var r :| r in left;
        var position: Option<nat> := None;
        if regs[r].status == Waitlisted {
          CountedIsPlaced(regs, r);
          position := Some(Position(regs, WithStatus(regs, regs[r].event, Waitlisted), r));
        }
        mine := mine[r := MyRegistration(regs[r], position)];
        left := left - {r};
      }
    }

    // One page of an organizer's list, oldest first.
    method ListEvent(organizer: UserId, e: EventId, waitlistOnly: bool, limit: nat, offset: nat) returns (reply: Reply, rows: seq<RegId>)
      ensures reply == if e !in events || events[e].organizer != organizer then NotFound else Ok
      ensures reply == Ok ==> rows == Page(Queue(regs, WithStatus(regs, e, if waitlistOnly then Waitlisted else Confirmed)), limit, offset)
      ensures reply != Ok ==> rows == []
    {
      if e !in events || events[e].organizer != organizer {
        return NotFound, [];
      }
      var q := Ordered(WithStatus(regs, e, if waitlistOnly then Waitlisted else Confirmed));
      return Ok, Page(q, limit, offset);
    }
  }
}
