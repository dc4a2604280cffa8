/** Two concrete runs that show where the delivery guarantees stop. */
module DeliveryExamples {
  import opened Basics
  import opened Outbox
  import opened Delivery
  import opened DeliveryTheorems

  const SETTINGS := Config(3, 30, 300)

  const EMPTY := State(0, map[], map[], map[])

  // One more step of a run that starts from the empty system.
  lemma Then(es: seq<Step>, s: State, e: Step) returns (es': seq<Step>, s': State)
    requires Replay(SETTINGS, EMPTY, es) == Some(s) && Enabled(SETTINGS, s, e)
    ensures s' == Apply(SETTINGS, s, e) && Replay(SETTINGS, EMPTY, es') == Some(s')
    ensures SendsOf(es', 7) == SendsOf(es, 7) + if SendsJob(e, 7) then 1 else 0
    ensures ReapsOf(es', 7) == ReapsOf(es, 7) + if ReapsJob(e, 7) then 1 else 0
  {
    es', s' := es + [e], Apply(SETTINGS, s, e);
    ReplayOneMore(SETTINGS, EMPTY, es, e);
    assert es'[..|es|] == es;
  }

  // Job 7 is pending and worker 1 idle at time `at`.
  lemma ReadyAt(at: nat) returns (es: seq<Step>, s: State)
    ensures Replay(SETTINGS, EMPTY, es) == Some(s) && SendsOf(es, 7) == 0 && ReapsOf(es, 7) == 0
    ensures s == State(at, map[7 := Row(Pending, None, 0, 0, 0, None)],
                       map[1 := Worker(Running, map[], 0, 0, false, false)], map[7 := []])
  {
    es, s := Then([], EMPTY, Insert(7, 0));
    es, s := Then(es, s, Start(1));
    es, s := Then(es, s, Tick(at));
  }

  // Worker 1 has claimed job 7 at time `at`.
  lemma ClaimedAt(at: nat) returns (es: seq<Step>, s: State)
    ensures Replay(SETTINGS, EMPTY, es) == Some(s) && SendsOf(es, 7) == 0 && ReapsOf(es, 7) == 0
    ensures s == State(at, map[7 := Row(Processing, Some(1), at, 0, 1, None)],
                       map[1 := Worker(Running, map[7 := Task(1, Queued)], 0, 0, false, false)],
                       map[7 := [ClaimRec(1, 0, Open)]])
  {
    es, s := ReadyAt(at);
    assert Due(s.rows, s.now) == {7};
    es, s := Then(es, s, Claim(1, {7}));
    assert s.rows == map[7 := Row(Processing, Some(1), at, 0, 1, None)];
    assert s.workers[1].batch == map[7 := Task(1, Queued)];
    assert s.workers == map[1 := s.workers[1]];
    var first := [ClaimRec(1, 0, Open)];
    assert s.log[7] == first;
    assert s.log == map[7 := first];
  }

  // Worker 1 sends, cannot finalize in time, and is reaped.
  lemma SentAndReaped() returns (es: seq<Step>, s: State)
    ensures Replay(SETTINGS, EMPTY, es) == Some(s) && SendsOf(es, 7) == 1 && ReapsOf(es, 7) == 1
    ensures s.now == 301 && s.rows == map[7 := Row(Pending, None, 0, 0, 1, None)]
    ensures 2 !in s.workers && 7 in s.log && |s.log[7]| == 1
  {
    es, s := ClaimedAt(0);
    es, s := Then(es, s, Send(1, 7, Accepted));
    es, s := Then(es, s, Tick(301));
    assert 7 in Stale(s.rows, s.now, 300);
    es, s := Then(es, s, Reap({7}));
  }

  // Delivery is not exactly once: with one reap, two sends can be accepted, which is also the
  // most one reap allows.
  lemma ReapCanResend() returns (ss: seq<State>, es: seq<Step>)
    ensures IsRun(SETTINGS, ss, es)
    ensures 7 in ss[|es|].rows && ss[|es|].rows[7].status == Completed
    ensures SendsOf(es, 7) == 2 && ReapsOf(es, 7) == 1
  {
    var s;
    es, s := Resent();
    ss := AsRun(es, s);
  }

  lemma AsRun(es: seq<Step>, s: State) returns (ss: seq<State>)
    requires Replay(SETTINGS, EMPTY, es) == Some(s)
    ensures IsRun(SETTINGS, ss, es) && ss[|es|] == s
  {
    assert IsRun(SETTINGS, [EMPTY], []);
    ss := ReplayProlongsRun(SETTINGS, [EMPTY], [], es);
    assert [] + es == es;
  }

  // Worker 2 sends the job again and completes it.
  lemma Resent() returns (es: seq<Step>, s: State)
    ensures Replay(SETTINGS, EMPTY, es) == Some(s)
    ensures 7 in s.rows && s.rows[7].status == Completed
    ensures SendsOf(es, 7) == 2 && ReapsOf(es, 7) == 1
  {
    es, s := SentAndReaped();
    es, s := Then(es, s, Start(2));
    assert 7 in Due(s.rows, s.now);
    es, s := Then(es, s, Claim(2, {7}));
    es, s := Then(es, s, Send(2, 7, Accepted));
    es, s := Then(es, s, TryFinalize(2, 7, true, true));
  }

  // Giving up the lease does not mean the leases are gone: a worker can set `lease_lost` while
  // it still holds a row that no reaper may take.
  lemma LeaseLostWithFreshRow() returns (ss: seq<State>, es: seq<Step>)
    ensures IsRun(SETTINGS, ss, es)
    ensures var s := ss[|es|];
            && 1 in s.workers && s.workers[1].leaseLost && Fence(s.rows, 7, 1)
            && 7 !in Stale(s.rows, s.now, SETTINGS.reaperIdle)
  {
    var s;
    es, s := ClaimedAt(299);
    es, s := Then(es, s, Tick(301));
    es, s := Then(es, s, RenewReport(1, false));
    ss := AsRun(es, s);
  }
}
