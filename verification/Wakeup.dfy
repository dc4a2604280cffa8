/**
 The wake flag of `run` and the LISTEN connection of `_listen`: one worker's view of which
 inserted jobs it has been told about and which it has offered to a claim.
 */
module Wakeup {
  import opened Basics
  import opened Outbox
  import Delivery
  import DeliveryInvariant

  // `Top` is the loop head, `Draining` lasts from clearing the flag to the last claim of the
  // drain, `Settled` from that claim to the next turn of the loop, the blocked wait included.
  datatype Phase = Top | Draining | Settled

  // `transit`: jobs whose NOTIFY was sent on the current connection and not yet delivered.
  // `missed`: jobs whose NOTIFY can no longer arrive.
  datatype State = State(
    now: int,
    rows: Table,
    connected: bool,
    caughtUp: bool,
    transit: set<JobId>,
    missed: set<JobId>,
    wake: bool,
    phase: Phase,
    stopping: bool)

  datatype Step =
    | Tick(to: int)
    | Insert(js: set<JobId>, due: int)
    | Others(rows': Table)
    | Deliver(js: set<JobId>)
    | Drop
    | Listen
    | CatchUp
    | Clear
    | Claim(sel: set<JobId>)
    | Wake
    | Stop
    | Quit

  // How rows change between inserts: claims count up, and a row no one has claimed keeps still.
  ghost predicate Evolves(rows: Table, rows': Table) {
    && rows'.Keys == rows.Keys
    && forall j :: j in rows ==>
         rows[j].attempts <= rows'[j].attempts && (rows'[j].attempts == 0 ==> rows'[j] == rows[j])
  }

  // Every step of every worker in the delivery protocol is such a change.
  lemma DeliveryEvolves(c: Delivery.Config, s: Delivery.State, e: Delivery.Step)
    requires DeliveryInvariant.Inv(c, s) && Delivery.Enabled(c, s, e) && !e.Insert?
    ensures Evolves(s.rows, Delivery.Apply(c, s, e).rows)
  {
    forall j | j in s.rows
      ensures var rows' := Delivery.Apply(c, s, e).rows;
              s.rows[j].attempts <= rows'[j].attempts && (rows'[j].attempts == 0 ==> rows'[j] == s.rows[j])
    {
      assert DeliveryInvariant.JobOk(c, s, j);
    }
  }

  // `limit` is the claim batch size.
  ghost predicate Enabled(limit: nat, s: State, e: Step) {
    match e
    case Tick(to) => s.now <= to
    case Insert(js, due) => js !! s.rows.Keys && due <= s.now
    case Others(rows') => Evolves(s.rows, rows')
    case Deliver(js) => s.connected && js <= s.transit && js != {}
    case Drop => s.connected
    case Listen => !s.connected
    case CatchUp => s.connected && !s.caughtUp
    case Clear => s.phase == Top && !s.stopping
    case Claim(sel) => s.phase == Draining && ClaimSelection(s.rows, s.now, limit, sel)
    case Wake => s.phase == Settled
    case Stop => true
    case Quit => s.phase == Draining && s.stopping
  }

  function Apply(limit: nat, me: WorkerId, s: State, e: Step): State {
    match e
    case Tick(to) => s.(now := to)
    case Insert(js, due) =>
      var rows' := s.rows + map j | j in js :: Row(Pending, None, 0, due, 0, None);
      if s.connected then s.(rows := rows', transit := s.transit + js)
      else s.(rows := rows', missed := s.missed + js)
    case Others(rows') => s.(rows := rows')
    case Deliver(js) => s.(transit := s.transit - js, wake := true)
    case Drop => s.(connected := false, caughtUp := false, missed := s.missed + s.transit, transit := {})
    case Listen => s.(connected := true, caughtUp := false)
    case CatchUp => s.(wake := true, caughtUp := true, missed := {})
    case Clear => s.(wake := false, phase := Draining)
    case Claim(sel) =>
      s.(rows := ClaimRows(s.rows, sel, me, s.now), phase := if sel == {} || |sel| < limit then Settled else Draining)
    case Wake => s.(phase := Top)
    case Stop => s.(stopping := true)
    case Quit => s.(phase := Settled)
  }

  // A worker starting up, over rows inserted earlier and due.
  ghost predicate Initial(s: State) {
    && !s.connected && !s.caughtUp && !s.wake && s.phase == Top && !s.stopping
    && s.transit == {} && s.missed == s.rows.Keys
    && forall j :: j in s.rows ==> s.rows[j].attempts == 0 ==> s.rows[j].status == Pending && s.rows[j].nextAttemptAt <= s.now
  }

  ghost predicate Inv(s: State) {
    && (forall j :: j in s.rows && s.rows[j].attempts == 0 ==> s.rows[j].status == Pending && s.rows[j].nextAttemptAt <= s.now)
    && (s.caughtUp ==> s.connected && s.missed == {})
    && s.transit <= s.rows.Keys && s.missed <= s.rows.Keys
    && (s.phase == Settled && !s.wake && !s.stopping ==>
          forall j :: j in s.rows && s.rows[j].attempts == 0 ==> j in s.transit || j in s.missed)
  }

  lemma InvClaim(limit: nat, me: WorkerId, s: State, sel: set<JobId>)
    requires limit >= 1 && Inv(s) && Enabled(limit, s, Claim(sel))
    ensures Inv(Apply(limit, me, s, Claim(sel)))
  {
    var s' := Apply(limit, me, s, Claim(sel));
    forall j | j in s'.rows && s'.rows[j].attempts == 0
      ensures s'.rows[j].status == Pending && s'.rows[j].nextAttemptAt <= s'.now && s'.phase != Settled
    {
      assert j in Due(s.rows, s.now) && j !in sel;
    }
  }

  lemma InvRows(limit: nat, me: WorkerId, s: State, e: Step)
    requires Inv(s) && Enabled(limit, s, e) && (e.Insert? || e.Others? || e.Tick?)
    ensures Inv(Apply(limit, me, s, e))
  {
    var s' := Apply(limit, me, s, e);
    assert forall j :: j in s'.rows && s'.rows[j].attempts == 0 ==> (e.Insert? && j in e.js) || (j in s.rows && s'.rows[j] == s.rows[j]);
  }

  lemma InvFlags(limit: nat, me: WorkerId, s: State, e: Step)
    requires Inv(s) && Enabled(limit, s, e) && !e.Insert? && !e.Others? && !e.Tick? && !e.Claim?
    ensures Inv(Apply(limit, me, s, e))
  {
    assert Apply(limit, me, s, e).rows == s.rows;
  }

  lemma InvStep(limit: nat, me: WorkerId, s: State, e: Step)
    requires limit >= 1 && Inv(s) && Enabled(limit, s, e)
    ensures Inv(Apply(limit, me, s, e))
  {
    if e.Claim? { InvClaim(limit, me, s, e.sel); }
    else if e.Insert? || e.Others? || e.Tick? { InvRows(limit, me, s, e); }
    else { InvFlags(limit, me, s, e); }
  }

  ghost predicate StepAt(limit: nat, me: WorkerId, ss: seq<State>, es: seq<Step>, i: nat)
    requires |ss| == |es| + 1 && i < |es|
  {
    Enabled(limit, ss[i], es[i]) && ss[i + 1] == Apply(limit, me, ss[i], es[i])
  }

  ghost predicate IsRun(limit: nat, me: WorkerId, ss: seq<State>, es: seq<Step>) {
    && limit >= 1 && |ss| == |es| + 1 && Initial(ss[0])
    && forall i :: 0 <= i < |es| ==> StepAt(limit, me, ss, es, i)
  }

  lemma {:induction false} InvRun(limit: nat, me: WorkerId, ss: seq<State>, es: seq<Step>, i: nat)
    requires IsRun(limit, me, ss, es) && i < |ss|
    ensures Inv(ss[i])
  {
    if i > 0 {
      InvRun(limit, me, ss, es, i - 1);
      assert StepAt(limit, me, ss, es, i - 1);
      InvStep(limit, me, ss[i - 1], es[i - 1]);
    }
  }

  lemma {:induction false} OutOfTransitForGood(limit: nat, me: WorkerId, ss: seq<State>, es: seq<Step>, i: nat, k: nat, j: JobId)
    requires IsRun(limit, me, ss, es) && i <= k < |ss|
    requires j in ss[i].rows && j !in ss[i].transit
    ensures j in ss[k].rows && j !in ss[k].transit
    decreases k
  {
    if i < k {
      OutOfTransitForGood(limit, me, ss, es, i, k - 1, j);
      assert StepAt(limit, me, ss, es, k - 1);
    }
  }

  // No wake-up is lost: with the connection up and caught up, a worker that has finished its
  // last claim with the flag unset has seen every job claimed except those whose NOTIFY is
  // still on its way. Jobs inserted while it was disconnected are among the claimed ones.
  lemma NoLostWakeup(limit: nat, me: WorkerId, ss: seq<State>, es: seq<Step>, k: nat)
    requires IsRun(limit, me, ss, es) && k < |ss|
    requires ss[k].connected && ss[k].caughtUp && ss[k].phase == Settled && !ss[k].wake && !ss[k].stopping
    ensures forall j :: j in ss[k].rows && j !in ss[k].transit ==> ss[k].rows[j].attempts >= 1
  {
    InvRun(limit, me, ss, es, k);
  }

  // The same for one signal: once delivered, its jobs are claimed before the worker blocks.
  lemma DeliveredJobsClaimed(limit: nat, me: WorkerId, ss: seq<State>, es: seq<Step>, i: nat, k: nat, j: JobId)
    requires IsRun(limit, me, ss, es) && i < k < |ss|
    requires es[i].Deliver? && j in es[i].js
    requires ss[k].connected && ss[k].caughtUp && ss[k].phase == Settled && !ss[k].wake && !ss[k].stopping
    ensures j in ss[k].rows && ss[k].rows[j].attempts >= 1
  {
    assert StepAt(limit, me, ss, es, i);
    InvRun(limit, me, ss, es, i);
    OutOfTransitForGood(limit, me, ss, es, i + 1, k, j);
    NoLostWakeup(limit, me, ss, es, k);
  }

  // The flag is set exactly if a signal was delivered, or a reconnect caught up, since the loop
  // last cleared it.
  ghost predicate Woken(es: seq<Step>, n: nat)
    requires n <= |es|
  {
    exists m :: 0 <= m < n && (es[m].Deliver? || es[m].CatchUp?) && forall i :: m < i < n ==> !es[i].Clear?
  }

  lemma {:induction false} WakeIff(limit: nat, me: WorkerId, ss: seq<State>, es: seq<Step>, n: nat)
    requires IsRun(limit, me, ss, es) && n < |ss|
    ensures ss[n].wake <==> Woken(es, n)
  {
    if n > 0 {
      WakeIff(limit, me, ss, es, n - 1);
      assert StepAt(limit, me, ss, es, n - 1);
      var e := es[n - 1];
      if Woken(es, n - 1) && !e.Clear? {
        var m :| 0 <= m < n - 1 && (es[m].Deliver? || es[m].CatchUp?) && forall i :: m < i < n - 1 ==> !es[i].Clear?;
        assert Woken(es, n);
      }
    }
  }

  // A claim is the last of its drain exactly if it took fewer rows than it could.
  lemma ShortClaimSettles(limit: nat, me: WorkerId, s: State, sel: set<JobId>)
    requires limit >= 1 && Enabled(limit, s, Claim(sel))
    ensures Apply(limit, me, s, Claim(sel)).phase == Settled <==> |sel| < limit
  {
  }
}
