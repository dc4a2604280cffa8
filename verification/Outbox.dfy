/**
 The `notification_jobs` table and the SQL statements of `hefest/worker/claim.py` and
 `hefest/worker/heartbeat.py`.

 Each statement is first a function on the table value (used by the delivery protocol),
 then a method of the class `JobTable` that updates the rows in place and is proved
 against that function.
 */
module Outbox {

  import opened Basics

  // Primary keys and worker ids are opaque; only equality and the order of keys matter.
  type JobId = nat
  type WorkerId = nat

  datatype Status = Pending | Processing | Completed | Failed

  // `heartbeatAt` carries no meaning before the first claim (NULL in the database).
  datatype Row = Row(
    status: Status,
    lockedBy: Option<WorkerId>,
    heartbeatAt: int,
    nextAttemptAt: int,
    attempts: nat,
    lastError: Option<string>)

  type Table = map<JobId, Row>

  // ---------------------------------------------------------------- claim

  function Due(rows: Table, now: int): set<JobId> {
    set j | j in rows && rows[j].status == Pending && rows[j].nextAttemptAt <= now
  }

  // ORDER BY next_attempt_at, id
  predicate Earlier(rows: Table, a: JobId, b: JobId)
    requires a in rows && b in rows
  {
    rows[a].nextAttemptAt < rows[b].nextAttemptAt ||
    (rows[a].nextAttemptAt == rows[b].nextAttemptAt && a < b)
  }

  // The rows the claim statement selects: due, at most `limit`, all of them if they fit,
  // and none that is left behind comes before one that is taken.
  ghost predicate ClaimSelection(rows: Table, now: int, limit: nat, sel: set<JobId>) {
    && sel <= Due(rows, now)
    && |sel| <= limit
    && (|sel| < limit ==> sel == Due(rows, now))
    && forall a, b :: a in sel && b in Due(rows, now) && b !in sel ==> Earlier(rows, a, b)
  }

  // The same in terms of the row fields: pending rows that are due, at most `limit`, fewer only
  // if there are no more, taken by due time and then by id.
  ghost predicate FirstDue(rows: Table, now: int, limit: nat, sel: set<JobId>) {
    && |sel| <= limit
    && (forall j :: j in sel ==> j in rows && rows[j].status == Pending && rows[j].nextAttemptAt <= now)
    && (|sel| < limit ==> forall j :: j in rows && rows[j].status == Pending && rows[j].nextAttemptAt <= now ==> j in sel)
    && (forall a, b :: a in sel && b in rows && b !in sel && rows[b].status == Pending && rows[b].nextAttemptAt <= now ==>
          rows[a].nextAttemptAt < rows[b].nextAttemptAt || (rows[a].nextAttemptAt == rows[b].nextAttemptAt && a < b))
  }

  lemma SelectionIsFirstDue(rows: Table, now: int, limit: nat, sel: set<JobId>)
    requires ClaimSelection(rows, now, limit, sel)
    ensures FirstDue(rows, now, limit, sel)
  {
    assert forall j :: j in rows && rows[j].status == Pending && rows[j].nextAttemptAt <= now ==> j in Due(rows, now);
  }

  function ClaimRow(r: Row, w: WorkerId, now: int): Row {
    r.(status := Processing, lockedBy := Some(w), heartbeatAt := now, attempts := r.attempts + 1)
  }

  function ClaimRows(rows: Table, sel: set<JobId>, w: WorkerId, now: int): Table {
    map j | j in rows :: if j in sel then ClaimRow(rows[j], w, now) else rows[j]
  }

  // The order and the limit fix the claimed set: two runs of the statement on the same
  // table cannot claim different rows.
  lemma ClaimSelectionUnique(rows: Table, now: int, limit: nat, a: set<JobId>, b: set<JobId>)
    requires ClaimSelection(rows, now, limit, a)
    requires ClaimSelection(rows, now, limit, b)
    ensures a == b
  {
    SubsetSize(a, Due(rows, now));
    SubsetSize(b, Due(rows, now));
    if x :| x in a && x !in b {
      SmallerHasWitness(a, b, x);
    } else {
      SubsetSize(a, b);
    }
  }

  lemma SmallerHasWitness(a: set<JobId>, b: set<JobId>, x: JobId)
    requires x in a && x !in b
    requires |a| <= |b|
    ensures exists y :: y in b && y !in a
  {
    if b <= a {
      SubsetSize(b, a - {x});
    }
  }

  // ---------------------------------------------------------------- reap

  function Stale(rows: Table, now: int, idle: int): set<JobId> {
    set j | j in rows && rows[j].status == Processing && rows[j].heartbeatAt < now - idle
  }

  function ReapRow(r: Row): Row {
    r.(status := Pending, lockedBy := None)
  }

  function ReapRows(rows: Table, sel: set<JobId>): Table {
    map j | j in rows :: if j in sel then ReapRow(rows[j]) else rows[j]
  }

  // ---------------------------------------------------------------- renew

  function RenewRows(rows: Table, w: WorkerId, now: int): Table {
    map j | j in rows :: if Fence(rows, j, w) then rows[j].(heartbeatAt := now) else rows[j]
  }

  // ---------------------------------------------------------------- finalize

  // id = $1 AND locked_by = $2 AND status = 'processing'
  predicate Fence(rows: Table, j: JobId, w: WorkerId) {
    j in rows && rows[j].lockedBy == Some(w) && rows[j].status == Processing
  }

  datatype Finalizer = MarkCompleted | MarkRetry(error: string, delay: int) | MarkFailed(error: string)

  // `mark_completed` and `mark_failed` leave `locked_by` in place.
  function FinalizeRow(r: Row, f: Finalizer, now: int): Row {
    match f
    case MarkCompleted => r.(status := Completed)
    case MarkRetry(error, delay) =>
      r.(status := Pending, lockedBy := None, lastError := Some(error), nextAttemptAt := now + delay)
    case MarkFailed(error) => r.(status := Failed, lastError := Some(error))
  }

  // What each finalizer writes, column by column.
  predicate Marked(r: Row, r': Row, f: Finalizer, now: int) {
    && r'.attempts == r.attempts && r'.heartbeatAt == r.heartbeatAt
    && r'.status == (if f.MarkCompleted? then Completed else if f.MarkFailed? then Failed else Pending)
    && r'.lastError == (if f.MarkCompleted? then r.lastError else Some(f.error))
    && r'.lockedBy == (if f.MarkRetry? then None else r.lockedBy)
    && r'.nextAttemptAt == (if f.MarkRetry? then now + f.delay else r.nextAttemptAt)
  }

  function FinalizeRows(rows: Table, j: JobId, w: WorkerId, f: Finalizer, now: int): Table {
    if Fence(rows, j, w) then rows[j := FinalizeRow(rows[j], f, now)] else rows
  }

  function Pow4(n: nat): (r: nat)
    ensures r >= 1
  {
    if n == 0 then 1 else 4 * Pow4(n - 1)
  }

  function BackoffDelay(attempts: nat, base: int): (d: int)
    requires attempts >= 1
    ensures base > 0 ==> d >= base
  {
    assert base > 0 ==> base * Pow4(attempts - 1) >= base * 1;
    base * Pow4(attempts - 1)
  }

  // Exponential in the attempt number: each retry waits four times as long as the one before.
  lemma BackoffQuadruples(attempts: nat, base: int)
    requires attempts >= 1
    ensures BackoffDelay(1, base) == base
    ensures BackoffDelay(attempts + 1, base) == 4 * BackoffDelay(attempts, base)
  {
    assert Pow4(attempts) == 4 * Pow4(attempts - 1);
  }

  // ---------------------------------------------------------------- the table, updated in place

  ghost predicate AllEarlier(rows: Table, sel: set<JobId>, left: set<JobId>) {
    sel <= rows.Keys && left <= rows.Keys && forall a, b :: a in sel && b in left ==> Earlier(rows, a, b)
  }

  lemma AllEarlierMove(rows: Table, sel: set<JobId>, left: set<JobId>, m: JobId)
    requires AllEarlier(rows, sel, left) && m in left
    requires forall b :: b in left && b != m ==> Earlier(rows, m, b)
    ensures AllEarlier(rows, sel + {m}, left - {m})
  {
  }

  lemma SelectionDone(rows: Table, now: int, limit: nat, sel: set<JobId>, left: set<JobId>)
    requires left !! sel && left + sel == Due(rows, now) && AllEarlier(rows, sel, left)
    requires |sel| <= limit && (left == {} || |sel| == limit)
    ensures ClaimSelection(rows, now, limit, sel)
  {
  }

  class JobTable {
    var rows: Table

    constructor (initial: Table)
      ensures rows == initial
    {
      rows := initial;
    }

    // The first row of `left` in claim order.
    method First(left: set<JobId>) returns (m: JobId)
      requires left != {} && left <= rows.Keys
      ensures m in left
      ensures forall b :: b in left && b != m ==> Earlier(rows, m, b)
    {
      m :| m in left;
      var rest := left - {m};
      while rest != {}
        invariant rest <= left && m in left && m !in rest
        invariant forall b :: b in left && b !in rest && b != m ==> Earlier(rows, m, b)
        decreases |rest|
      {
        var x :| x in rest;
        if Earlier(rows, x, m) {
          m := x;
        }
        rest := rest - {x};
      }
    }

    // The claimable rows: the first `limit` of those due.
    method SelectDue(now: int, limit: nat) returns (sel: set<JobId>)
      ensures ClaimSelection(rows, now, limit, sel) && FirstDue(rows, now, limit, sel)
    {
      var left := Due(rows, now);
      sel := {};
      while left != {} && |sel| < limit
        invariant left !! sel && left + sel == Due(rows, now) && |sel| <= limit
        invariant AllEarlier(rows, sel, left)
        decreases |left|
      {
        var m := First(left);
        AllEarlierMove(rows, sel, left, m);
        left, sel := left - {m}, sel + {m};
      }
      SelectionDone(rows, now, limit, sel, left);
      SelectionIsFirstDue(rows, now, limit, sel);
    }

    // Claims them and returns each with its new attempt number.
    method ClaimBatch(w: WorkerId, now: int, limit: nat) returns (jobs: map<JobId, nat>)
      modifies this
      ensures ClaimSelection(old(rows), now, limit, jobs.Keys)
      ensures rows == ClaimRows(old(rows), jobs.Keys, w, now)
      ensures forall j :: j in jobs ==>
                && j in old(rows) && old(rows)[j].status == Pending && old(rows)[j].nextAttemptAt <= now
                && j in rows && jobs[j] == rows[j].attempts == old(rows)[j].attempts + 1
                && rows[j] == old(rows)[j].(status := Processing, lockedBy := Some(w), heartbeatAt := now, attempts := jobs[j])
      ensures rows.Keys == old(rows).Keys && forall j :: j in rows && j !in jobs ==> rows[j] == old(rows)[j]
      ensures FirstDue(old(rows), now, limit, jobs.Keys)
    {
      var sel := SelectDue(now, limit);
      rows := ClaimRows(rows, sel, w, now);
      jobs := map j | j in sel && j in rows :: rows[j].attempts;
      assert jobs.Keys == sel && |jobs| == |jobs.Keys|;
    }

    // No ORDER BY: which stale rows a bounded pass takes is left open.
    method ReapStale(now: int, idle: int, limit: nat) returns (affected: nat, ghost sel: set<JobId>)
      modifies this
      ensures sel <= Stale(old(rows), now, idle) && affected == |sel| <= limit
      ensures affected < limit ==> sel == Stale(old(rows), now, idle)
      ensures rows == ReapRows(old(rows), sel)
      ensures forall j :: j in sel ==>
                && j in old(rows) && old(rows)[j].status == Processing && old(rows)[j].heartbeatAt < now - idle
                && j in rows && rows[j] == old(rows)[j].(status := Pending, lockedBy := None)
      ensures rows.Keys == old(rows).Keys && forall j :: j in rows && j !in sel ==> rows[j] == old(rows)[j]
      ensures affected < limit ==>
                forall j :: j in old(rows) && old(rows)[j].status == Processing && old(rows)[j].heartbeatAt < now - idle ==> j in sel
    {
      var stale := Stale(rows, now, idle);
      var left := stale;
      var taken: set<JobId> := {};
      while left != {} && |taken| < limit
        invariant rows == old(rows) && left !! taken && left + taken == stale && |taken| <= limit
        decreases |left|
      {
        var x :| x in left;
        left := left - {x};
        taken := taken + {x};
      }
      rows := ReapRows(rows, taken);
      sel := taken;
      affected := |taken|;
    }

    method Finalize(j: JobId, w: WorkerId, f: Finalizer, now: int) returns (held: bool)
      modifies this
      ensures held == Fence(old(rows), j, w)
      ensures rows == FinalizeRows(old(rows), j, w, f, now)
      ensures held <==> j in old(rows) && old(rows)[j].lockedBy == Some(w) && old(rows)[j].status == Processing
      ensures if held then j in rows && rows == old(rows)[j := rows[j]] else rows == old(rows)
      ensures held ==> j in rows && j in old(rows) && Marked(old(rows)[j], rows[j], f, now)
    {
      held := Fence(rows, j, w);
      if held {
        rows := rows[j := FinalizeRow(rows[j], f, now)];
      }
    }

    method RenewHeartbeat(w: WorkerId, now: int) returns (affected: nat)
      modifies this
      ensures rows == RenewRows(old(rows), w, now)
      ensures rows.Keys == old(rows).Keys
      ensures forall j :: j in rows ==>
                rows[j] == if old(rows)[j].lockedBy == Some(w) && old(rows)[j].status == Processing
                           then old(rows)[j].(heartbeatAt := now) else old(rows)[j]
      ensures affected == |set j | j in old(rows) && Fence(old(rows), j, w)|
    {
      var mine := set j | j in rows && Fence(rows, j, w);
      var left := mine;
      var done := rows;
      while left != {}
        invariant rows == old(rows) && left <= mine
        invariant done == map j | j in rows :: if j in mine - left then rows[j].(heartbeatAt := now) else rows[j]
        decreases |left|
      {
        var x :| x in left;
        done := done[x := done[x].(heartbeatAt := now)];
        left := left - {x};
      }
      assert mine - left == mine;
      assert done == RenewRows(rows, w, now);
      rows := done;
      affected := |mine|;
    }
  }
}
