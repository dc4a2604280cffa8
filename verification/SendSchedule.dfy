/**
 One batch under the send semaphore (`_bounded_process` and the task group of `_drain`):
 how long it can take, and that the first-come-first-served semaphore keeps to it.
 */
module SendSchedule {

  // Tasks before `k` that hold a slot at time `t`.
  ghost function Running(start: seq<real>, finish: seq<real>, k: nat, t: real): set<nat>
    requires k <= |start| == |finish|
  {
    set i: nat | i < k && start[i] <= t < finish[i]
  }

  // Before its start, task `k` finds all `c` slots held by earlier tasks.
  ghost predicate HeldUp(start: seq<real>, finish: seq<real>, c: nat, k: nat, t: real)
    requires k < |start| == |finish|
  {
    0.0 <= t < start[k] ==> |Running(start, finish, k, t)| >= c
  }

  ghost predicate AtMost(start: seq<real>, finish: seq<real>, c: nat, t: real)
    requires |start| == |finish|
  {
    |Running(start, finish, |start|, t)| <= c
  }

  // A schedule of tasks, in the order they were created, under a fair semaphore of `c` slots:
  // never more than `c` at once, and no one waits while a slot is free.
  ghost predicate Fair(start: seq<real>, finish: seq<real>, c: nat) {
    && |start| == |finish|
    && (forall k :: 0 <= k < |start| ==> 0.0 <= start[k] <= finish[k])
    && (forall k: nat, t :: k < |start| ==> HeldUp(start, finish, c, k, t))
    && (forall t :: AtMost(start, finish, c, t))
  }

  // ---------------------------------------------------------------- the time bound

  lemma MulMonotone(c: nat, x: int, y: int)
    requires x <= y
    ensures c * x <= c * y
  {
  }

  lemma ScaleMonotone(x: int, y: int, T: real)
    requires x <= y && T >= 0.0
    ensures (x as real) * T <= (y as real) * T
  {
  }

  // `c` tasks further on is one round further on.
  lemma NextRound(i: nat, k: nat, c: nat)
    requires c >= 1 && i + c <= k
    ensures i / c + 1 <= k / c
  {
    var q, p := i / c, k / c;
    assert i == c * q + i % c && k == c * p + k % c;
    if p < q + 1 {
      MulMonotone(c, p + 1, q + 1);
    }
  }

  lemma RoundUp(i: nat, k: nat, c: nat, T: real)
    requires c >= 1 && i + c <= k && T >= 0.0
    ensures ((i / c + 1) as real) * T <= ((k / c) as real) * T
  {
    NextRound(i, k, c);
    ScaleMonotone(i / c + 1, k / c, T);
  }

  lemma {:induction false} FewerBelow(S: set<nat>, lo: int, hi: int)
    requires forall i :: i in S ==> lo < i < hi
    ensures |S| <= if hi - lo > 1 then hi - lo - 1 else 0
    decreases hi - lo
  {
    if hi - lo > 1 {
      FewerBelow(S - {hi - 1}, lo, hi - 1);
    } else {
      assert S == {};
    }
  }

  // With every task taking at most `T`, task `k` is over within k / c + 1 rounds of `T`.
  lemma {:induction false} TaskTimeBound(start: seq<real>, finish: seq<real>, c: nat, T: real, k: nat)
    requires c >= 1 && T >= 0.0 && Fair(start, finish, c) && k < |start|
    requires forall i :: 0 <= i < |start| ==> finish[i] <= start[i] + T
    ensures finish[k] <= ((k / c + 1) as real) * T
    decreases k
  {
    var B := ((k / c) as real) * T;
    if start[k] > B {
      assert HeldUp(start, finish, c, k, B);
      var R := Running(start, finish, k, B);
      forall i | i in R ensures k - c < i < k {
        if i + c <= k {
          TaskTimeBound(start, finish, c, T, i);
          OverByThen(finish[i], i, k, c, T);
        }
      }
      FewerBelow(R, k - c, k);
    }
    OneRoundMore(k / c, T);
  }

  lemma OneRoundMore(n: nat, T: real)
    ensures ((n + 1) as real) * T == (n as real) * T + T
  {
  }

  lemma OverByThen(end: real, i: nat, k: nat, c: nat, T: real)
    requires c >= 1 && i + c <= k && T >= 0.0 && end <= ((i / c + 1) as real) * T
    ensures end <= ((k / c) as real) * T
  {
    RoundUp(i, k, c, T);
  }

  // N tasks finish within ceil(N / c) * T.
  lemma BatchTimeBound(start: seq<real>, finish: seq<real>, c: nat, T: real)
    requires c >= 1 && T >= 0.0 && Fair(start, finish, c)
    requires forall i :: 0 <= i < |start| ==> finish[i] <= start[i] + T
    ensures forall k :: 0 <= k < |start| ==> finish[k] <= (((|start| + c - 1) / c) as real) * T
  {
    forall k | 0 <= k < |start| ensures finish[k] <= (((|start| + c - 1) / c) as real) * T {
      TaskTimeBound(start, finish, c, T, k);
      OverByThen(finish[k], k, |start| + c - 1, c, T);
    }
  }

  // ---------------------------------------------------------------- the semaphore keeps to it

  // Each task ran in one of `c` slots, tasks of a slot do not overlap, and a slot is busy from
  // the beginning until the time it becomes free.
  ghost predicate Slots(start: seq<real>, finish: seq<real>, slot: seq<nat>, free: seq<real>) {
    && |start| == |finish| == |slot|
    && (forall i :: 0 <= i < |slot| ==> slot[i] < |free| && 0.0 <= start[i] <= finish[i] <= free[slot[i]])
    && (forall i, k :: 0 <= i < k < |slot| && slot[i] == slot[k] ==> finish[i] <= start[k])
    && (forall s, t :: 0 <= s < |free| && 0.0 <= t < free[s] ==> Busy(start, finish, slot, s, t))
  }

  ghost predicate Busy(start: seq<real>, finish: seq<real>, slot: seq<nat>, s: int, t: real)
    requires |start| == |finish| == |slot|
  {
    exists i :: 0 <= i < |slot| && slot[i] == s && start[i] <= t < finish[i]
  }

  ghost predicate HasSlot(R: set<nat>, slot: seq<nat>, s: int)
    requires forall i :: i in R ==> i < |slot|
  {
    exists i :: i in R && slot[i] == s
  }

  lemma {:induction false} OnePerSlot(R: set<nat>, slot: seq<nat>, c: nat)
    requires forall i :: i in R ==> i < |slot|
    requires forall s :: 0 <= s < c ==> HasSlot(R, slot, s)
    ensures |R| >= c
  {
    if c > 0 {
      assert HasSlot(R, slot, c - 1);
      var i :| i in R && slot[i] == c - 1;
      forall s | 0 <= s < c - 1 ensures HasSlot(R - {i}, slot, s) {
        assert HasSlot(R, slot, s);
        var k :| k in R && slot[k] == s;
        assert k in R - {i};
      }
      OnePerSlot(R - {i}, slot, c - 1);
    }
  }

  lemma {:induction false} NotTwoPerSlot(R: set<nat>, slot: seq<nat>, c: nat)
    requires forall i :: i in R ==> i < |slot| && slot[i] < c
    requires forall i, k :: i in R && k in R && i != k ==> slot[i] != slot[k]
    ensures |R| <= c
    decreases c
  {
    if c > 0 {
      if i :| i in R && slot[i] == c - 1 {
        NotTwoPerSlot(R - {i}, slot, c - 1);
      } else {
        NotTwoPerSlot(R, slot, c - 1);
      }
    } else {
      assert R == {};
    }
  }

  lemma SlotsAtMost(start: seq<real>, finish: seq<real>, slot: seq<nat>, free: seq<real>, t: real)
    requires Slots(start, finish, slot, free)
    ensures AtMost(start, finish, |free|, t)
  {
    NotTwoPerSlot(Running(start, finish, |start|, t), slot, |free|);
  }

  lemma SlotsHoldUp(start: seq<real>, finish: seq<real>, slot: seq<nat>, free: seq<real>, t: real)
    requires Slots(start, finish, slot, free) && 0.0 <= t && forall s :: 0 <= s < |free| ==> t < free[s]
    ensures |Running(start, finish, |start|, t)| >= |free|
  {
    var R := Running(start, finish, |start|, t);
    forall s | 0 <= s < |free| ensures HasSlot(R, slot, s) {
      assert Busy(start, finish, slot, s, t);
      var i :| 0 <= i < |slot| && slot[i] == s && start[i] <= t < finish[i];
      assert i in R;
    }
    OnePerSlot(R, slot, |free|);
  }

  lemma RunningPrefix(start: seq<real>, finish: seq<real>, a: real, b: real, k: nat, t: real)
    requires k <= |start| == |finish|
    ensures Running(start + [a], finish + [b], k, t) == Running(start, finish, k, t)
  {
  }

  lemma SlotsAdd(start: seq<real>, finish: seq<real>, slot: seq<nat>, free: seq<real>, s: nat, d: real)
    requires Slots(start, finish, slot, free) && s < |free| && d >= 0.0 && free[s] >= 0.0
    ensures Slots(start + [free[s]], finish + [free[s] + d], slot + [s], free[s := free[s] + d])
  {
    var start', finish', slot', free' := start + [free[s]], finish + [free[s] + d], slot + [s], free[s := free[s] + d];
    assert forall i :: 0 <= i < |slot| ==> start'[i] == start[i] && finish'[i] == finish[i] && slot'[i] == slot[i];
    forall r, t | 0 <= r < |free'| && 0.0 <= t < free'[r] ensures Busy(start', finish', slot', r, t) {
      if t < free[r] {
        assert Busy(start, finish, slot, r, t);
        var i :| 0 <= i < |slot| && slot[i] == r && start[i] <= t < finish[i];
        assert slot'[i] == r;
      } else {
        assert slot'[|slot|] == r;
      }
    }
  }

  method EarliestFree(free: seq<real>) returns (s: nat)
    requires free != []
    ensures s < |free| && forall r :: 0 <= r < |free| ==> free[s] <= free[r]
  {
    s := 0;
    for r := 1 to |free|
      invariant s < |free| && forall q :: 0 <= q < r ==> free[s] <= free[q]
    {
      if free[r] < free[s] { s := r; }
    }
  }

  // Running a batch: each task takes the slot that becomes free first.
  method RunBatch(durations: seq<real>, c: nat) returns (start: seq<real>, finish: seq<real>)
    requires c >= 1 && forall i :: 0 <= i < |durations| ==> durations[i] >= 0.0
    ensures |start| == |durations| && Fair(start, finish, c)
    ensures forall i :: 0 <= i < |durations| ==> finish[i] == start[i] + durations[i]
  {
    start, finish := [], [];
    var free := seq(c, _ => 0.0);
    ghost var slot: seq<nat> := [];
    var n := 0;
    while n < |durations|
      invariant n <= |durations| && |start| == n && |free| == c
      invariant Slots(start, finish, slot, free)
      invariant forall s :: 0 <= s < c ==> free[s] >= 0.0
      invariant forall i :: 0 <= i < n ==> finish[i] == start[i] + durations[i]
      invariant forall k: nat, t :: k < n ==> HeldUp(start, finish, c, k, t)
    {
      var s := EarliestFree(free);
      ghost var start0, finish0 := start, finish;
      SlotsAdd(start, finish, slot, free, s, durations[n]);
      start, finish := start + [free[s]], finish + [free[s] + durations[n]];
      forall k: nat, t | k < n + 1 ensures HeldUp(start, finish, c, k, t) {
        RunningPrefix(start0, finish0, free[s], free[s] + durations[n], k, t);
        if k < n {
          assert HeldUp(start0, finish0, c, k, t);
        } else if 0.0 <= t < free[s] {
          SlotsHoldUp(start0, finish0, slot, free, t);
        }
      }
      slot, free := slot + [s], free[s := free[s] + durations[n]];
      n := n + 1;
    }
    forall t ensures AtMost(start, finish, c, t) { SlotsAtMost(start, finish, slot, free, t); }
  }
}
