/**
 Registrations, events and the outbox jobs they write: `hefest/services/registration.py` and
 `hefest/services/event.py`, as transactions on the database value.

 A transaction that would store an idempotency key already present fails and is rolled back,
 as the unique constraint demands.
 */
module Registration {
  import opened Basics
  import opened Waitlist

  datatype EventStatus = Draft | Published | Cancelled

  datatype Event = Event(organizer: UserId, status: EventStatus, capacity: int, startsAt: int)

  datatype Kind = RegistrationConfirmed | RegistrationWaitlisted | WaitlistPromoted | RegistrationCancelled | EventCancelled

  // The idempotency key is `{reg}:{kind}`.
  datatype Job = Job(reg: RegId, kind: Kind, event: EventId, student: UserId, position: Option<nat>)

  datatype DB = DB(events: map<EventId, Event>, regs: Regs, jobs: seq<Job>)

  datatype Reply = Ok | NotFound | Conflict | ServerError

  predicate KeyTaken(jobs: seq<Job>, r: RegId, k: Kind) {
    exists i :: 0 <= i < |jobs| && jobs[i].reg == r && jobs[i].kind == k
  }

  // Some key of `new` is already stored.
  predicate Collides(jobs: seq<Job>, new_: seq<Job>) {
    exists i :: 0 <= i < |new_| && KeyTaken(jobs, new_[i].reg, new_[i].kind)
  }

  ghost function Commit(db: DB, done: DB, new_: seq<Job>): (DB, Reply) {
    if Collides(db.jobs, new_) then (db, ServerError) else (done.(jobs := db.jobs + new_), Ok)
  }

  // The partial unique constraint on (event, student).
  predicate HasActive(regs: Regs, e: EventId, student: UserId) {
    exists r :: r in regs && regs[r].event == e && regs[r].student == student && regs[r].status != Withdrawn
  }

  // ---------------------------------------------------------------- register_student

  function PlacementOf(regs: Regs, e: EventId, capacity: int): RegStatus {
    if |WithStatus(regs, e, Confirmed)| < capacity then Confirmed else Waitlisted
  }

  function RegistrationJob(regs: Regs, e: EventId, capacity: int, student: UserId, id: RegId): Job {
    if PlacementOf(regs, e, capacity) == Confirmed then Job(id, RegistrationConfirmed, e, student, None)
    else Job(id, RegistrationWaitlisted, e, student, Some(|WithStatus(regs, e, Waitlisted)| + 1))
  }

  ghost function Register(db: DB, student: UserId, e: EventId, id: RegId, now: int): (DB, Reply) {
    if e !in db.events || db.events[e].status != Published then (db, NotFound)
    else if HasActive(db.regs, e, student) then (db, Conflict)
    else
      var capacity := db.events[e].capacity;
      var reg := Reg(e, student, PlacementOf(db.regs, e, capacity), now, None);
      Commit(db, db.(regs := db.regs[id := reg]), [RegistrationJob(db.regs, e, capacity, student, id)])
  }

  // ---------------------------------------------------------------- cancel_registration

  // The unlocked first read; only `Ok` goes on to lock the event.
  function CancelCheck(db: DB, student: UserId, r: RegId): Reply {
    if r !in db.regs || db.regs[r].student != student then NotFound
    else if db.regs[r].status == Withdrawn then Conflict
    else Ok
  }

  function Withdraw(regs: Regs, r: RegId, now: int): Regs
    requires r in regs
  {
    regs[r := regs[r].(status := Withdrawn, cancelledAt := Some(now))]
  }

  // Whether withdrawing `r` frees a seat that someone waits for.
  function Promotes(regs: Regs, r: RegId): bool
    requires r in regs
  {
    regs[r].status == Confirmed && WithStatus(regs, regs[r].event, Waitlisted) != {}
  }

  function CancelJob(regs: Regs, r: RegId): Job
    requires r in regs
  {
    Job(r, RegistrationCancelled, regs[r].event, regs[r].student, None)
  }

  function PromoteJob(regs: Regs, p: RegId): Job
    requires p in regs
  {
    Job(p, WaitlistPromoted, regs[p].event, regs[p].student, None)
  }

  ghost function NextUp(regs: Regs, r: RegId): (p: RegId)
    requires r in regs && Promotes(regs, r)
    ensures p in regs && p != r && regs[p].event == regs[r].event && regs[p].status == Waitlisted
  {
    First(regs, WithStatus(regs, regs[r].event, Waitlisted))
  }

  // The remainder, under the event lock, deciding on the row as it is then.
  ghost function CancelLocked(db: DB, r: RegId, now: int): (DB, Reply) {
    if r !in db.regs || db.regs[r].event !in db.events then (db, NotFound)
    else if db.regs[r].status == Withdrawn then (db, Conflict)
    else if db.events[db.regs[r].event].startsAt <= now then (db, Conflict)
    else if Promotes(db.regs, r) then
      var p := NextUp(db.regs, r);
      Commit(db, db.(regs := Withdraw(db.regs, r, now)[p := db.regs[p].(status := Confirmed)]),
             [PromoteJob(db.regs, p), CancelJob(db.regs, r)])
    else
      Commit(db, db.(regs := Withdraw(db.regs, r, now)), [CancelJob(db.regs, r)])
  }

  // ---------------------------------------------------------------- events

  function ActiveIn(regs: Regs, e: EventId): set<RegId> {
    set r | r in regs && regs[r].event == e && regs[r].status != Withdrawn
  }

  // `order` is the order in which the query returns the active registrations.
  predicate Enumerates(order: seq<RegId>, S: set<RegId>) {
    && (forall i :: 0 <= i < |order| ==> order[i] in S)
    && (forall r :: r in S ==> r in order)
    && (forall i, k :: 0 <= i < k < |order| ==> order[i] != order[k])
  }

  function CancelJobs(regs: Regs, order: seq<RegId>): seq<Job>
    requires forall i :: 0 <= i < |order| ==> order[i] in regs
  {
    seq(|order|, i requires 0 <= i < |order| => Job(order[i], EventCancelled, regs[order[i]].event, regs[order[i]].student, None))
  }

  ghost function CancelEvent(db: DB, user: UserId, e: EventId, now: int, order: seq<RegId>): (DB, Reply)
    requires Enumerates(order, ActiveIn(db.regs, e))
  {
    if e !in db.events || db.events[e].organizer != user then (db, NotFound)
    else if db.events[e].status == Cancelled then (db, Ok)
    else if db.events[e].startsAt <= now then (db, Conflict)
    else Commit(db, db.(events := db.events[e := db.events[e].(status := Cancelled)]), CancelJobs(db.regs, order))
  }

  // `_get_owned_draft`, read without a lock.
  function PublishCheck(db: DB, user: UserId, e: EventId): Reply {
    if e !in db.events || db.events[e].organizer != user then NotFound
    else if db.events[e].status != Draft then Conflict
    else Ok
  }

  function PublishSave(db: DB, e: EventId): DB {
    if e in db.events then db.(events := db.events[e := db.events[e].(status := Published)]) else db
  }

  function UpdateEvent(db: DB, user: UserId, e: EventId, capacity: int, startsAt: int): (DB, Reply) {
    if e !in db.events || db.events[e].organizer != user then (db, NotFound)
    else (db.(events := db.events[e := db.events[e].(capacity := capacity, startsAt := startsAt)]), Ok)
  }

  // ---------------------------------------------------------------- concurrent requests

  // `reading` and `publishing` hold the requests past their unlocked read; each of them may
  // finish later, once. `maxCap` is the largest capacity an event has had.
  datatype State = State(
    db: DB,
    reading: multiset<(UserId, RegId)>,
    publishing: multiset<EventId>,
    maxCap: map<EventId, int>)

  datatype Step =
    | Create(e: EventId, organizer: UserId, capacity: int, startsAt: int)
    | BeginPublish(user: UserId, e: EventId)
    | EndPublish(e: EventId)
    | Update(user: UserId, e: EventId, capacity: int, startsAt: int)
    | DoCancelEvent(user: UserId, e: EventId, now: int, order: seq<RegId>)
    | DoRegister(student: UserId, e: EventId, id: RegId, now: int)
    | BeginCancel(student: UserId, r: RegId)
    | EndCancel(student: UserId, r: RegId, now: int)

  predicate Enabled(s: State, a: Step) {
    match a
    case Create(e, _, capacity, _) => e !in s.db.events && capacity >= 1
    case BeginPublish(user, e) => PublishCheck(s.db, user, e) == Ok
    case EndPublish(e) => e in s.publishing
    case Update(_, _, capacity, _) => capacity >= 1
    case DoCancelEvent(_, e, _, order) => Enumerates(order, ActiveIn(s.db.regs, e))
    case DoRegister(_, _, id, _) => id !in s.db.regs
    case BeginCancel(student, r) => CancelCheck(s.db, student, r) == Ok
    case EndCancel(student, r, _) => (student, r) in s.reading
  }

  ghost function ReplyTo(s: State, a: Step): Reply
    requires Enabled(s, a)
  {
    match a
    case DoCancelEvent(user, e, now, order) => CancelEvent(s.db, user, e, now, order).1
    case DoRegister(student, e, id, now) => Register(s.db, student, e, id, now).1
    case EndCancel(_, r, now) => CancelLocked(s.db, r, now).1
    case Update(user, e, capacity, startsAt) => UpdateEvent(s.db, user, e, capacity, startsAt).1
    case _ => Ok
  }

  function Larger(a: int, b: int): int { if a < b then b else a }

  ghost function Apply(s: State, a: Step): State
    requires Enabled(s, a)
  {
    match a
    case Create(e, organizer, capacity, startsAt) =>
      s.(db := s.db.(events := s.db.events[e := Event(organizer, Draft, capacity, startsAt)]), maxCap := s.maxCap[e := capacity])
    case BeginPublish(_, e) => s.(publishing := s.publishing + multiset{e})
    case EndPublish(e) => s.(db := PublishSave(s.db, e), publishing := s.publishing - multiset{e})
    case Update(user, e, capacity, startsAt) =>
      var (db', reply) := UpdateEvent(s.db, user, e, capacity, startsAt);
      s.(db := db', maxCap := if reply == Ok && e in s.maxCap then s.maxCap[e := Larger(s.maxCap[e], capacity)] else s.maxCap)
    case DoCancelEvent(user, e, now, order) => s.(db := CancelEvent(s.db, user, e, now, order).0)
    case DoRegister(student, e, id, now) => s.(db := Register(s.db, student, e, id, now).0)
    case BeginCancel(student, r) => s.(reading := s.reading + multiset{(student, r)})
    case EndCancel(student, r, now) => s.(db := CancelLocked(s.db, r, now).0, reading := s.reading - multiset{(student, r)})
  }

  predicate Initial(s: State) {
    s.db == DB(map[], map[], []) && s.reading == multiset{} && s.publishing == multiset{} && s.maxCap == map[]
  }

  ghost predicate StepAt(ss: seq<State>, es: seq<Step>, i: nat)
    requires |ss| == |es| + 1 && i < |es|
  {
    Enabled(ss[i], es[i]) && ss[i + 1] == Apply(ss[i], es[i])
  }

  ghost predicate IsRun(ss: seq<State>, es: seq<Step>) {
    && |ss| == |es| + 1 && Initial(ss[0])
    && forall i :: 0 <= i < |es| ==> StepAt(ss, es, i)
  }
}
