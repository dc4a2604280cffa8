/** `hefest/worker/heartbeat.py`: lease renewal with self-abort. */
module LeaseHeartbeat {
  import opened Basics
  import opened Outbox
  import opened Delivery

  // One turn of the renewal loop: whether the statement committed and at what database time,
  // whether the worker saw it succeed, and the monotonic clock reading that followed.
  datatype Beat = Beat(committed: bool, statementAt: int, ok: bool, at: int)

  // The monotonic clock never goes back, and success is only reported for a commit.
  ghost predicate Monotonic(start: int, beats: seq<Beat>) {
    && (forall k :: 0 <= k < |beats| ==> start <= beats[k].at && (beats[k].ok ==> beats[k].committed))
    && forall k, m :: 0 <= m < k < |beats| ==> beats[m].at <= beats[k].at
  }

  // Turn `k` fails and every success before it, and the start, lie more than `idle` back.
  ghost predicate SilentTooLong(start: int, beats: seq<Beat>, idle: int, k: nat)
    requires k < |beats|
  {
    && !beats[k].ok && beats[k].at - start > idle
    && forall m :: 0 <= m < k && beats[m].ok ==> beats[k].at - beats[m].at > idle
  }

  // The table after the committed renewals of `beats`.
  function Renewed(rows: Table, w: WorkerId, beats: seq<Beat>): Table {
    if beats == [] then rows
    else
      var n := |beats| - 1;
      var before := Renewed(rows, w, beats[..n]);
      if beats[n].committed then RenewRows(before, w, beats[n].statementAt) else before
  }

  // ---------------------------------------------------------------- the loop as protocol steps

  function BeatSteps(w: WorkerId, b: Beat): seq<Step> {
    [Tick(b.statementAt)] + (if b.committed then [Renew(w)] else []) + [Tick(b.at), RenewReport(w, b.ok)]
  }

  function StepsOf(w: WorkerId, beats: seq<Beat>): seq<Step> {
    if beats == [] then [] else StepsOf(w, beats[..|beats| - 1]) + BeatSteps(w, beats[|beats| - 1])
  }

  // Database and worker read one clock, which is at `now` before the first turn.
  ghost predicate OneClock(now: int, beats: seq<Beat>) {
    && (forall k :: 0 <= k < |beats| ==> now <= beats[k].statementAt <= beats[k].at)
    && forall k, m :: 0 <= m < k < |beats| ==> beats[m].at <= beats[k].statementAt
  }

  function LastSuccess(start: int, beats: seq<Beat>): int {
    if beats == [] then start
    else if beats[|beats| - 1].ok then beats[|beats| - 1].at
    else LastSuccess(start, beats[..|beats| - 1])
  }

  lemma {:induction false} LastSuccessIsMax(start: int, beats: seq<Beat>)
    requires Monotonic(start, beats)
    ensures LastSuccess(start, beats) >= start
    ensures LastSuccess(start, beats) == start || exists m :: 0 <= m < |beats| && beats[m].ok && beats[m].at == LastSuccess(start, beats)
    ensures forall m :: 0 <= m < |beats| && beats[m].ok ==> beats[m].at <= LastSuccess(start, beats)
  {
    if beats != [] {
      var n := |beats| - 1;
      LastSuccessIsMax(start, beats[..n]);
      if beats[n].ok {
        assert beats[n].at == LastSuccess(start, beats);
      } else {
        forall m | 0 <= m < |beats| && beats[m].ok ensures beats[m].at <= LastSuccess(start, beats) { assert beats[..n][m] == beats[m]; }
        if m :| 0 <= m < n && beats[..n][m].ok && beats[..n][m].at == LastSuccess(start, beats[..n]) { assert beats[m].ok; }
      }
    }
  }

  // Silence is measured from the last success.
  lemma SilentIff(start: int, beats: seq<Beat>, idle: int, k: nat)
    requires k < |beats| && Monotonic(start, beats)
    ensures SilentTooLong(start, beats, idle, k) <==> !beats[k].ok && beats[k].at - LastSuccess(start, beats[..k]) > idle
  {
    var past := beats[..k];
    LastSuccessIsMax(start, past);
    forall m | 0 <= m < k ensures past[m] == beats[m] {}
    if m :| 0 <= m < |past| && past[m].ok && past[m].at == LastSuccess(start, past) {
      assert beats[m].ok && beats[m].at == LastSuccess(start, past);
    }
  }

  lemma SilentInPrefix(start: int, beats: seq<Beat>, idle: int, n: nat, k: nat)
    requires k < n <= |beats| && Monotonic(start, beats)
    ensures SilentTooLong(start, beats[..n], idle, k) <==> SilentTooLong(start, beats, idle, k)
  {
    SilentIff(start, beats[..n], idle, k);
    SilentIff(start, beats, idle, k);
    assert beats[..n][..k] == beats[..k];
  }

  // The worker's lease state after one turn.
  function AfterBeat(c: Config, k: Worker, b: Beat): Worker {
    k.(lastCommit := if b.committed then b.statementAt else k.lastCommit,
       lastSuccess := if b.ok then b.at else k.lastSuccess,
       renewed := false,
       leaseLost := if b.ok then k.leaseLost else b.at - k.lastSuccess > c.reaperIdle)
  }

  lemma BeatIsSteps(c: Config, s: State, w: WorkerId, b: Beat)
    requires Live(s, w) && !s.workers[w].leaseLost && s.now <= b.statementAt <= b.at && (b.ok ==> b.committed)
    ensures Replay(c, s, BeatSteps(w, b)) ==
              Some(State(b.at, if b.committed then RenewRows(s.rows, w, b.statementAt) else s.rows,
                         s.workers[w := AfterBeat(c, s.workers[w], b)], s.log))
  {
    var e1, e2, e3 := Tick(b.statementAt), Tick(b.at), RenewReport(w, b.ok);
    var s1 := Apply(c, s, e1);
    assert Replay(c, s, []) == Some(s);
    ReplayOneMore(c, s, [], e1);
    assert [] + [e1] == [e1];
    var es, s2 := [e1], s1;
    if b.committed {
      ReplayOneMore(c, s, [e1], Renew(w));
      es, s2 := [e1] + [Renew(w)], Apply(c, s1, Renew(w));
    }
    ReplayOneMore(c, s, es, e2);
    var s3 := Apply(c, s2, e2);
    ReplayOneMore(c, s, es + [e2], e3);
    assert BeatSteps(w, b) == es + [e2] + [e3];
    assert Apply(c, s3, e3).workers == s.workers[w := AfterBeat(c, s.workers[w], b)];
  }

  lemma OneMoreBeat(c: Config, s: State, w: WorkerId, beats: seq<Beat>, s1: State) returns (s': State)
    requires beats != [] && Replay(c, s, StepsOf(w, beats[..|beats| - 1])) == Some(s1)
    requires Live(s1, w) && !s1.workers[w].leaseLost
    requires var b := beats[|beats| - 1]; s1.now <= b.statementAt <= b.at && (b.ok ==> b.committed)
    ensures Replay(c, s, StepsOf(w, beats)) == Some(s') && Live(s', w)
    ensures var b := beats[|beats| - 1];
            && s'.rows == (if b.committed then RenewRows(s1.rows, w, b.statementAt) else s1.rows)
            && s'.now == b.at && s'.workers[w] == AfterBeat(c, s1.workers[w], b)
  {
    var b := beats[|beats| - 1];
    BeatIsSteps(c, s1, w, b);
    ReplayConcat(c, s, StepsOf(w, beats[..|beats| - 1]), BeatSteps(w, b));
    s' := Replay(c, s, StepsOf(w, beats)).value;
  }

  // What the turns of the loop make of the system, as long as none but the last gives up.
  lemma {:induction false} BeatsAreSteps(c: Config, s: State, w: WorkerId, beats: seq<Beat>) returns (s': State)
    requires Live(s, w) && !s.workers[w].leaseLost && OneClock(s.now, beats) && Monotonic(s.workers[w].lastSuccess, beats)
    requires forall k: nat :: k < |beats| - 1 ==> !SilentTooLong(s.workers[w].lastSuccess, beats, c.reaperIdle, k)
    ensures Replay(c, s, StepsOf(w, beats)) == Some(s')
    ensures s'.rows == Renewed(s.rows, w, beats) && Live(s', w)
    ensures s'.workers[w].lastSuccess == LastSuccess(s.workers[w].lastSuccess, beats)
    ensures s'.workers[w].leaseLost <==>
              beats != [] && SilentTooLong(s.workers[w].lastSuccess, beats, c.reaperIdle, |beats| - 1)
    ensures s'.now == if beats == [] then s.now else beats[|beats| - 1].at
  {
    if beats == [] {
      s' := s;
    } else {
      var n, start := |beats| - 1, s.workers[w].lastSuccess;
      var past := beats[..n];
      forall k: nat | k < n ensures !SilentTooLong(start, past, c.reaperIdle, k) {
        SilentInPrefix(start, beats, c.reaperIdle, n, k);
      }
      var s1 := BeatsAreSteps(c, s, w, past);
      s' := OneMoreBeat(c, s, w, beats, s1);
      SilentIff(start, beats, c.reaperIdle, n);
    }
  }

  // The renewal loop of worker `w`, last successful at `start`, runs in system `s`.
  ghost predicate RunsIn(c: Config, s: State, rows: Table, w: WorkerId, idle: int, start: int, beats: seq<Beat>) {
    && s.rows == rows && c.reaperIdle == idle && Live(s, w)
    && !s.workers[w].leaseLost && s.workers[w].lastSuccess == start && OneClock(s.now, beats)
  }

  class Heartbeat {
    const worker: WorkerId
    const reaperIdle: int
    var leaseLost: bool

    constructor (worker: WorkerId, reaperIdle: int)
      ensures this.worker == worker && this.reaperIdle == reaperIdle && !leaseLost
    {
      this.worker, this.reaperIdle, leaseLost := worker, reaperIdle, false;
    }

    // Runs until self-abort or until it is cancelled after `beats`. The lease is given up at
    // the first failed turn with no success within the idle limit, and only then. In a system
    // with one clock the turns are steps of the delivery protocol.
    method Run(db: JobTable, start: int, beats: seq<Beat>, ghost c: Config, ghost s: State) returns (used: nat)
      requires !leaseLost && Monotonic(start, beats)
      modifies this, db
      ensures used <= |beats|
      ensures leaseLost <==> exists k: nat :: k < |beats| && SilentTooLong(start, beats, reaperIdle, k)
      ensures leaseLost ==> used >= 1 && SilentTooLong(start, beats, reaperIdle, used - 1)
      ensures forall k: nat :: k < used && !(leaseLost && k == used - 1) ==> !SilentTooLong(start, beats, reaperIdle, k)
      ensures !leaseLost ==> used == |beats|
      ensures db.rows == Renewed(old(db.rows), worker, beats[..used])
      ensures RunsIn(c, s, old(db.rows), worker, reaperIdle, start, beats) ==>
                && Replay(c, s, StepsOf(worker, beats[..used])).Some?
                && var s' := Replay(c, s, StepsOf(worker, beats[..used])).value;
                   s'.rows == db.rows && worker in s'.workers && s'.workers[worker].leaseLost == leaseLost
    {
      var lastSuccess := start;
      used := 0;
      while used < |beats| && !leaseLost
        invariant used <= |beats| && lastSuccess == LastSuccess(start, beats[..used])
        invariant forall k: nat :: k < used ==> (SilentTooLong(start, beats, reaperIdle, k) <==> leaseLost && k == used - 1)
        invariant leaseLost ==> used >= 1
        invariant db.rows == Renewed(old(db.rows), worker, beats[..used])
        decreases |beats| - used, !leaseLost
      {
        var beat := beats[used];
        assert beats[..used + 1][..used] == beats[..used];
        SilentIff(start, beats, reaperIdle, used);
        if beat.committed {
          var _ := db.RenewHeartbeat(worker, beat.statementAt);
        }
        used := used + 1;
        if beat.ok {
          lastSuccess := beat.at;
        } else if beat.at - lastSuccess > reaperIdle {
          leaseLost := true;
        }
      }
      assert leaseLost ==> SilentTooLong(start, beats, reaperIdle, used - 1);
      ghost var inSystem := RunsIn(c, s, old(db.rows), worker, reaperIdle, start, beats);
      if inSystem { UsedAreSteps(c, s, worker, start, beats, used, leaseLost); }
    }
  }

  // The turns the loop took, as protocol steps.
  lemma UsedAreSteps(c: Config, s: State, w: WorkerId, start: int, beats: seq<Beat>, used: nat, lost: bool)
    requires used <= |beats| && Monotonic(start, beats) && RunsIn(c, s, s.rows, w, c.reaperIdle, start, beats)
    requires lost ==> used >= 1
    requires forall k: nat :: k < used ==> (SilentTooLong(start, beats, c.reaperIdle, k) <==> lost && k == used - 1)
    ensures Replay(c, s, StepsOf(w, beats[..used])).Some?
    ensures var s' := Replay(c, s, StepsOf(w, beats[..used])).value;
            s'.rows == Renewed(s.rows, w, beats[..used]) && w in s'.workers && s'.workers[w].leaseLost == lost
  {
    var taken := beats[..used];
    forall k: nat | k < used ensures SilentTooLong(start, taken, c.reaperIdle, k) <==> lost && k == used - 1 {
      SilentInPrefix(start, beats, c.reaperIdle, used, k);
    }
    var s' := BeatsAreSteps(c, s, w, taken);
  }
}
