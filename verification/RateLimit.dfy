/**
 The sliding-window rate limiter of `hefest/middleware/rate_limit.py`.

 `Script` is the Lua script on one key: a pruned, expiring sorted set. It is compared with the
 plain rule that remembers every accepted request for ever.
 */
module RateLimit {
  import opened Basics

  // Members of the sorted set are unique per call.
  type Member = nat
  type Scores = map<Member, real>

  datatype Entry = Entry(scores: Scores, expireAt: real)

  datatype Verdict = Verdict(limited: bool, retryAfter: int)

  function Ceil(x: real): (c: int)
    ensures (c as real) >= x && (c as real) < x + 1.0
  {
    -((-x).Floor)
  }

  function Max(a: int, b: int): int { if a < b then b else a }

  // ---------------------------------------------------------------- the script

  // An expired key is gone.
  function Live(entry: Option<Entry>, now: real): Scores {
    if entry.Some? && now < entry.value.expireAt then entry.value.scores else map[]
  }

  // ZREMRANGEBYSCORE key 0 (now - window)
  function Pruned(scores: Scores, now: real, window: real): Scores {
    map m | m in scores && !(0.0 <= scores[m] <= now - window) :: scores[m]
  }

  predicate IsOldest(scores: Scores, m: Member) {
    m in scores && forall k :: k in scores ==> scores[m] <= scores[k]
  }

  lemma {:induction false} OldestExists(scores: Scores)
    requires scores != map[]
    ensures exists m :: IsOldest(scores, m)
    decreases |scores|
  {
    var x :| x in scores;
    var rest := scores - {x};
    assert rest.Keys == scores.Keys - {x};
    if rest == map[] {
      assert rest.Keys == {};
      assert scores.Keys - {x} == {};
      forall k | k in scores ensures k == x { assert k == x || k in scores.Keys - {x}; }
      assert IsOldest(scores, x);
    } else {
      OldestExists(rest);
      var m :| IsOldest(rest, m);
      var first := if scores[x] <= scores[m] then x else m;
      forall k | k in scores ensures scores[first] <= scores[k] { if k != x { assert k in rest; } }
      assert IsOldest(scores, first);
    }
  }

  // ZRANGE key 0 0 WITHSCORES
  ghost function OldestScore(scores: Scores): (s: real)
    requires scores != map[]
    ensures (exists m :: m in scores && scores[m] == s) && forall k :: k in scores ==> s <= scores[k]
  {
    OldestExists(scores);
    var m :| IsOldest(scores, m);
    scores[m]
  }

  ghost function RetryAfter(scores: Scores, now: real, window: real): int {
    if scores == map[] then Ceil(window) else Max(1, Ceil(window - (now - OldestScore(scores))))
  }

  // A key whose set is emptied is deleted; a blocked call leaves the expiry as it was.
  function Blocked(entry: Option<Entry>, scores: Scores): Option<Entry> {
    if scores == map[] || entry == None then None else Some(Entry(scores, entry.value.expireAt))
  }

  ghost function Script(entry: Option<Entry>, now: real, window: real, limit: int, member: Member): (Option<Entry>, Verdict) {
    var scores := Pruned(Live(entry, now), now, window);
    if |scores| < limit then
      (Some(Entry(scores[member := now], now + (Ceil(window) as real))), Verdict(false, 0))
    else
      (Blocked(entry, scores), Verdict(true, RetryAfter(scores, now, window)))
  }

  // ---------------------------------------------------------------- the plain rule

  // Requests accepted within the window that ends at `now`.
  function Recent(accepted: Scores, now: real, window: real): set<Member> {
    set m | m in accepted && accepted[m] > now - window
  }

  function Rule(accepted: Scores, now: real, window: real, limit: int, member: Member): (Scores, bool) {
    if |Recent(accepted, now, window)| < limit then (accepted[member := now], false) else (accepted, true)
  }

  // ---------------------------------------------------------------- the set stands for the history

  // `accepted` is every request accepted so far, the last not after `t`; what the entry has
  // forgotten is out of the window at `t`.
  ghost predicate Stands(entry: Option<Entry>, accepted: Scores, t: real, window: real) {
    && (forall m :: m in accepted ==> 0.0 <= accepted[m] <= t)
    && match entry
       case None => forall m :: m in accepted ==> accepted[m] <= t - window
       case Some(e) =>
         && (forall m :: m in e.scores ==> m in accepted && e.scores[m] == accepted[m])
         && (forall m :: m in accepted && m !in e.scores ==> accepted[m] <= t - window)
         && (forall m :: m in accepted ==> accepted[m] + (Ceil(window) as real) <= e.expireAt)
  }

  // The pruned set is exactly the recent part of the history; expiry loses nothing.
  lemma PrunedIsRecent(entry: Option<Entry>, accepted: Scores, t: real, now: real, window: real)
    requires Stands(entry, accepted, t, window) && t <= now && window >= 0.0
    ensures var scores := Pruned(Live(entry, now), now, window);
            scores.Keys == Recent(accepted, now, window) && forall m :: m in scores ==> scores[m] == accepted[m]
  {
    var scores := Pruned(Live(entry, now), now, window);
    forall m | m in Recent(accepted, now, window) ensures m in scores {
      if entry.Some? {
        assert accepted[m] + (Ceil(window) as real) <= entry.value.expireAt;
      }
    }
    forall m | m in scores ensures m in Recent(accepted, now, window) {
      assert 0.0 <= accepted[m];
    }
  }

  // One call: the script decides as the plain rule does, and still stands for the history.
  lemma ScriptFollowsRule(entry: Option<Entry>, accepted: Scores, t: real, now: real, window: real, limit: int, member: Member)
    requires Stands(entry, accepted, t, window) && 0.0 <= t <= now && window >= 0.0 && member !in accepted
    ensures var (entry', v) := Script(entry, now, window, limit, member);
            var (accepted', limited) := Rule(accepted, now, window, limit, member);
            v.limited == limited && Stands(entry', accepted', now, window)
  {
    PrunedIsRecent(entry, accepted, t, now, window);
    var scores := Pruned(Live(entry, now), now, window);
    assert |scores| == |scores.Keys|;
  }

  // ---------------------------------------------------------------- sequences of calls

  datatype Call = Call(now: real, member: Member)

  // Time does not go back and members are new.
  ghost predicate Orderly(calls: seq<Call>) {
    && (forall i :: 0 <= i < |calls| ==> 0.0 <= calls[i].now)
    && (forall i, k :: 0 <= i < k < |calls| ==> calls[i].now <= calls[k].now && calls[i].member != calls[k].member)
  }

  // The key's entry after all calls, and the accepted requests after all calls.
  ghost function EntryAfter(calls: seq<Call>, window: real, limit: int): Option<Entry> {
    if calls == [] then None
    else
      var x := calls[|calls| - 1];
      Script(EntryAfter(calls[..|calls| - 1], window, limit), x.now, window, limit, x.member).0
  }

  ghost function HistoryAfter(calls: seq<Call>, window: real, limit: int): Scores {
    if calls == [] then map[]
    else
      var x := calls[|calls| - 1];
      Rule(HistoryAfter(calls[..|calls| - 1], window, limit), x.now, window, limit, x.member).0
  }

  // What the script answers to a call after `before`, and whether the plain rule limits it.
  ghost function Answer(before: seq<Call>, x: Call, window: real, limit: int): Verdict {
    Script(EntryAfter(before, window, limit), x.now, window, limit, x.member).1
  }

  ghost predicate RuleLimits(before: seq<Call>, x: Call, window: real, limit: int) {
    Rule(HistoryAfter(before, window, limit), x.now, window, limit, x.member).1
  }

  function LastTime(calls: seq<Call>): real {
    if calls == [] then 0.0 else calls[|calls| - 1].now
  }

  lemma HistorySnoc(calls: seq<Call>, x: Call, window: real, limit: int)
    ensures HistoryAfter(calls + [x], window, limit) == Rule(HistoryAfter(calls, window, limit), x.now, window, limit, x.member).0
  {
    assert (calls + [x])[..|calls|] == calls;
  }

  lemma OrderlyPrefix(calls: seq<Call>, n: nat)
    requires Orderly(calls) && n <= |calls|
    ensures Orderly(calls[..n])
  {
  }

  lemma {:induction false} HistoryMembers(calls: seq<Call>, window: real, limit: int, x: Call)
    requires forall i :: 0 <= i < |calls| ==> calls[i].member != x.member
    ensures x.member !in HistoryAfter(calls, window, limit)
  {
    if calls != [] {
      HistoryMembers(calls[..|calls| - 1], window, limit, x);
    }
  }

  lemma {:induction false} EntryStands(calls: seq<Call>, window: real, limit: int)
    requires window >= 0.0 && Orderly(calls)
    ensures Stands(EntryAfter(calls, window, limit), HistoryAfter(calls, window, limit), LastTime(calls), window)
    ensures LastTime(calls) >= 0.0
  {
    if calls != [] {
      var n := |calls| - 1;
      OrderlyPrefix(calls, n);
      EntryStands(calls[..n], window, limit);
      HistoryMembers(calls[..n], window, limit, calls[n]);
      ScriptFollowsRule(EntryAfter(calls[..n], window, limit), HistoryAfter(calls[..n], window, limit), LastTime(calls[..n]),
                        calls[n].now, window, limit, calls[n].member);
    }
  }

  lemma LastBefore(calls: seq<Call>, x: Call)
    requires Orderly(calls + [x])
    ensures Orderly(calls) && 0.0 <= LastTime(calls) <= x.now
    ensures forall i :: 0 <= i < |calls| ==> calls[i].member != x.member
  {
    var all := calls + [x];
    assert all[|calls|] == x && all[..|calls|] == calls;
    OrderlyPrefix(all, |calls|);
    assert forall i :: 0 <= i < |calls| ==> all[i] == calls[i];
  }

  // The whole answer, Retry-After included, read off the history.
  ghost function RuleAnswer(accepted: Scores, now: real, window: real, limit: int): Verdict {
    var recent: Scores := map m | m in accepted && accepted[m] > now - window :: accepted[m];
    if |recent| < limit then Verdict(false, 0) else Verdict(true, RetryAfter(recent, now, window))
  }

  // The answer is a function of the full history: neither pruning nor key expiry shows in it.
  lemma AnswerIsOfHistory(calls: seq<Call>, x: Call, window: real, limit: int)
    requires window >= 0.0 && Orderly(calls + [x])
    ensures Answer(calls, x, window, limit) == RuleAnswer(HistoryAfter(calls, window, limit), x.now, window, limit)
  {
    var accepted := HistoryAfter(calls, window, limit);
    LastBefore(calls, x);
    EntryStands(calls, window, limit);
    PrunedIsRecent(EntryAfter(calls, window, limit), accepted, LastTime(calls), x.now, window);
    var recent: Scores := map m | m in accepted && accepted[m] > x.now - window :: accepted[m];
    assert Pruned(Live(EntryAfter(calls, window, limit), x.now), x.now, window) == recent;
  }

  // For every sequence of calls and every next call the script and the plain rule agree:
  // neither pruning nor key expiry ever changes a decision.
  lemma PrunedSetDecidesAsHistory(calls: seq<Call>, x: Call, window: real, limit: int)
    requires window >= 0.0 && Orderly(calls + [x])
    ensures Answer(calls, x, window, limit).limited <==> RuleLimits(calls, x, window, limit)
  {
    LastBefore(calls, x);
    EntryStands(calls, window, limit);
    HistoryMembers(calls, window, limit, x);
    ScriptFollowsRule(EntryAfter(calls, window, limit), HistoryAfter(calls, window, limit), LastTime(calls), x.now, window, limit, x.member);
  }

  // ---------------------------------------------------------------- the limit holds over every window

  function InWindow(accepted: Scores, t: real, window: real): set<Member> {
    set m | m in accepted && t - window < accepted[m] <= t
  }

  // One more accepted request keeps every window within the limit.
  lemma WindowStep(accepted: Scores, x: Call, window: real, limit: int, t: real)
    requires |Recent(accepted, x.now, window)| < limit && x.member !in accepted
    requires |InWindow(accepted, t, window)| <= limit
    ensures |InWindow(accepted[x.member := x.now], t, window)| <= limit
  {
    var after := InWindow(accepted[x.member := x.now], t, window);
    if t >= x.now {
      assert after <= Recent(accepted, x.now, window) + {x.member};
      SubsetSize(after, Recent(accepted, x.now, window) + {x.member});
    } else {
      assert after == InWindow(accepted, t, window);
    }
  }

  // Whatever is called and when, no interval (t - window, t] holds more than `limit` accepted
  // requests.
  lemma {:induction false} LimitOverEveryWindow(calls: seq<Call>, window: real, limit: int, t: real)
    requires Orderly(calls)
    ensures |InWindow(HistoryAfter(calls, window, limit), t, window)| <= Max(0, limit)
  {
    if calls != [] {
      var n := |calls| - 1;
      var before, x := HistoryAfter(calls[..n], window, limit), calls[n];
      OrderlyPrefix(calls, n);
      LimitOverEveryWindow(calls[..n], window, limit, t);
      HistoryMembers(calls[..n], window, limit, x);
      if |Recent(before, x.now, window)| < limit { WindowStep(before, x, window, limit, t); }
    }
  }

  // ---------------------------------------------------------------- blocked requests leave no trace

  lemma {:induction false} SameHistoryOn(p: seq<Call>, q: seq<Call>, more: seq<Call>, window: real, limit: int)
    requires HistoryAfter(p, window, limit) == HistoryAfter(q, window, limit)
    ensures HistoryAfter(p + more, window, limit) == HistoryAfter(q + more, window, limit)
  {
    if more == [] {
      assert p + more == p && q + more == q;
    } else {
      var n := |more| - 1;
      SameHistoryOn(p, q, more[..n], window, limit);
      assert p + more == (p + more[..n]) + [more[n]] && q + more == (q + more[..n]) + [more[n]];
      HistorySnoc(p + more[..n], more[n], window, limit);
      HistorySnoc(q + more[..n], more[n], window, limit);
    }
  }

  lemma BlockedKeepsHistory(p: seq<Call>, x: Call, window: real, limit: int)
    requires RuleLimits(p, x, window, limit)
    ensures HistoryAfter(p + [x], window, limit) == HistoryAfter(p, window, limit)
  {
    HistorySnoc(p, x, window, limit);
  }

  lemma DropOne(p: seq<Call>, x: Call, q: seq<Call>)
    requires Orderly(p + [x] + q)
    ensures Orderly(p + q) && Orderly(p + [x])
  {
    var all, part := p + [x] + q, p + q;
    assert forall i :: 0 <= i < |part| ==> part[i] == all[if i < |p| then i else i + 1];
    assert forall i :: 0 <= i <= |p| ==> (p + [x])[i] == all[i];
  }

  // Deleting a blocked call `x` from a sequence changes the answer to no later call `y`
  // (earlier ones cannot depend on it).
  lemma BlockedCallsLeaveNoTrace(p: seq<Call>, x: Call, q: seq<Call>, y: Call, window: real, limit: int)
    requires window >= 0.0 && Orderly(p + [x] + (q + [y]))
    requires Answer(p, x, window, limit).limited
    ensures Answer(p + [x] + q, y, window, limit) == Answer(p + q, y, window, limit)
  {
    DropOne(p, x, q + [y]);
    PrunedSetDecidesAsHistory(p, x, window, limit);
    BlockedKeepsHistory(p, x, window, limit);
    SameHistoryOn(p + [x], p, q, window, limit);
    assert p + [x] + (q + [y]) == (p + [x] + q) + [y] && p + (q + [y]) == (p + q) + [y];
    AnswerIsOfHistory(p + [x] + q, y, window, limit);
    AnswerIsOfHistory(p + q, y, window, limit);
  }

  // ---------------------------------------------------------------- Retry-After

  // Counting the window again `ra` seconds and `ra - 1` seconds after the block.
  lemma RetryBounds(accepted: Scores, scores: Scores, now: real, window: real, limit: int)
    requires scores.Keys == Recent(accepted, now, window) && |scores.Keys| == limit >= 1
    requires forall m :: m in scores ==> scores[m] == accepted[m]
    ensures scores != map[]
    ensures var ra := RetryAfter(scores, now, window);
            && ra == Ceil(window - (now - OldestScore(scores))) >= 1
            && |Recent(accepted, now + (ra as real), window)| < limit
            && |Recent(accepted, now + (ra as real) - 1.0, window)| >= limit
  {
    var some :| some in scores.Keys;
    var oldest := OldestScore(scores);
    var m :| m in scores && scores[m] == oldest;
    var ra := RetryAfter(scores, now, window);
    assert oldest > now - window;
    var soon, late := Recent(accepted, now + (ra as real) - 1.0, window), Recent(accepted, now + (ra as real), window);
    forall k | k in scores ensures k in soon { assert oldest <= scores[k]; }
    SubsetSize(scores.Keys, soon);
    forall k | k in late ensures k in scores.Keys - {m} { assert accepted[m] <= now + (ra as real) - window; }
    SubsetSize(late, scores.Keys - {m});
  }

  // The script limits a call exactly when the window is full.
  lemma LimitedIff(entry: Option<Entry>, accepted: Scores, t: real, now: real, window: real, limit: int, member: Member)
    requires Stands(entry, accepted, t, window) && t <= now && window >= 0.0
    ensures Script(entry, now, window, limit, member).1.limited <==> |Recent(accepted, now, window)| >= limit
  {
    PrunedIsRecent(entry, accepted, t, now, window);
    var scores := Pruned(Live(entry, now), now, window);
    assert |scores| == |scores.Keys|;
  }

  // The pruned set is the recent history, and it is full.
  ghost predicate FullWindow(entry: Option<Entry>, accepted: Scores, now: real, window: real, limit: int) {
    var scores := Pruned(Live(entry, now), now, window);
    && scores.Keys == Recent(accepted, now, window) && |scores.Keys| == limit
    && forall m :: m in scores ==> scores[m] == accepted[m]
  }

  // `ra` is the exact ceiling, at least 1 by itself; `ra` seconds on the window has room, one
  // second earlier it has none.
  ghost predicate ExactRetry(entry: Option<Entry>, accepted: Scores, now: real, window: real, limit: int, ra: int) {
    var scores := Pruned(Live(entry, now), now, window);
    && scores != map[] && ra == Ceil(window - (now - OldestScore(scores))) >= 1
    && |Recent(accepted, now + (ra as real), window)| < limit
    && |Recent(accepted, now + (ra as real) - 1.0, window)| >= limit
  }

  // A blocked call finds the window exactly full, and its set is that window.
  lemma BlockedIsFull(calls: seq<Call>, x: Call, window: real, limit: int)
    requires window >= 0.0 && limit >= 1 && Orderly(calls + [x]) && Answer(calls, x, window, limit).limited
    ensures FullWindow(EntryAfter(calls, window, limit), HistoryAfter(calls, window, limit), x.now, window, limit)
  {
    var accepted, entry := HistoryAfter(calls, window, limit), EntryAfter(calls, window, limit);
    LastBefore(calls, x);
    EntryStands(calls, window, limit);
    PrunedIsRecent(entry, accepted, LastTime(calls), x.now, window);
    LimitedIff(entry, accepted, LastTime(calls), x.now, window, limit, x.member);
    LimitOverEveryWindow(calls, window, limit, x.now);
    assert forall m :: m in accepted ==> accepted[m] <= x.now;
    assert Recent(accepted, x.now, window) == InWindow(accepted, x.now, window);
  }

  lemma FullWindowAnswer(entry: Option<Entry>, accepted: Scores, now: real, window: real, limit: int, member: Member)
    requires limit >= 1 && FullWindow(entry, accepted, now, window, limit)
    ensures ExactRetry(entry, accepted, now, window, limit, Script(entry, now, window, limit, member).1.retryAfter)
  {
    var scores := Pruned(Live(entry, now), now, window);
    assert |scores| == |scores.Keys|;
    RetryBounds(accepted, scores, now, window, limit);
  }

  // The answer to a blocked call is the exact ceiling (the lower bound of 1 never comes into
  // play); that many seconds later the window has room, one second earlier it has not.
  lemma RetryAfterExact(calls: seq<Call>, x: Call, window: real, limit: int)
    requires window >= 0.0 && limit >= 1 && Orderly(calls + [x]) && Answer(calls, x, window, limit).limited
    ensures ExactRetry(EntryAfter(calls, window, limit), HistoryAfter(calls, window, limit), x.now, window, limit,
                       Answer(calls, x, window, limit).retryAfter)
  {
    BlockedIsFull(calls, x, window, limit);
    FullWindowAnswer(EntryAfter(calls, window, limit), HistoryAfter(calls, window, limit), x.now, window, limit, x.member);
  }

  // A limit that admits nothing blocks every call for a whole window.
  lemma {:induction false} NothingAdmitted(calls: seq<Call>, window: real, limit: int)
    requires limit <= 0
    ensures HistoryAfter(calls, window, limit) == map[]
  {
    if calls != [] { NothingAdmitted(calls[..|calls| - 1], window, limit); }
  }

  lemma RetryAfterWithoutLimit(calls: seq<Call>, x: Call, window: real, limit: int)
    requires window >= 0.0 && limit <= 0 && Orderly(calls + [x])
    ensures Answer(calls, x, window, limit) == Verdict(true, Ceil(window))
  {
    NothingAdmitted(calls, window, limit);
    AnswerIsOfHistory(calls, x, window, limit);
  }

  // Every call of `more`, made after `calls`, is blocked.
  ghost predicate AllBlocked(calls: seq<Call>, more: seq<Call>, window: real, limit: int) {
    more == [] ||
    (AllBlocked(calls, more[..|more| - 1], window, limit) &&
     Answer(calls + more[..|more| - 1], more[|more| - 1], window, limit).limited)
  }

  lemma {:induction false} AllBlockedKeepHistory(calls: seq<Call>, more: seq<Call>, window: real, limit: int)
    requires window >= 0.0 && Orderly(calls + more) && AllBlocked(calls, more, window, limit)
    ensures HistoryAfter(calls + more, window, limit) == HistoryAfter(calls, window, limit)
  {
    if more == [] {
      assert calls + more == calls;
    } else {
      var n := |more| - 1;
      var before := calls + more[..n];
      assert calls + more == before + [more[n]];
      LastBefore(before, more[n]);
      AllBlockedKeepHistory(calls, more[..n], window, limit);
      PrunedSetDecidesAsHistory(before, more[n], window, limit);
      BlockedKeepsHistory(before, more[n], window, limit);
    }
  }

  lemma AnswerAfterBlocked(calls: seq<Call>, more: seq<Call>, y: Call, window: real, limit: int)
    requires window >= 0.0 && Orderly(calls + more + [y]) && AllBlocked(calls, more, window, limit)
    ensures Answer(calls + more, y, window, limit).limited <==> |Recent(HistoryAfter(calls, window, limit), y.now, window)| >= limit
  {
    LastBefore(calls + more, y);
    AllBlockedKeepHistory(calls, more, window, limit);
    EntryStands(calls + more, window, limit);
    LimitedIff(EntryAfter(calls + more, window, limit), HistoryAfter(calls, window, limit), LastTime(calls + more), y.now, window, limit, y.member);
  }

  // For a client that keeps trying: `x` is blocked with answer `ra` and so is every call in
  // `more`; a call `y` made `ra` seconds after `x` is let through.
  lemma RetryAfterSuffices(calls: seq<Call>, x: Call, more: seq<Call>, y: Call, window: real, limit: int, ra: int)
    requires window >= 0.0 && limit >= 1 && Orderly(calls + [x]) && Orderly(calls + more + [y])
    requires Answer(calls, x, window, limit) == Verdict(true, ra) && AllBlocked(calls, more, window, limit)
    requires y.now == x.now + (ra as real)
    ensures !Answer(calls + more, y, window, limit).limited
  {
    RetryWindow(calls, x, window, limit, ra);
    AnswerAfterBlocked(calls, more, y, window, limit);
  }

  // One made a second earlier is still blocked.
  lemma RetryAfterTight(calls: seq<Call>, x: Call, more: seq<Call>, y: Call, window: real, limit: int, ra: int)
    requires window >= 0.0 && limit >= 1 && Orderly(calls + [x]) && Orderly(calls + more + [y])
    requires Answer(calls, x, window, limit) == Verdict(true, ra) && AllBlocked(calls, more, window, limit)
    requires y.now == x.now + (ra as real) - 1.0
    ensures Answer(calls + more, y, window, limit).limited
  {
    RetryWindow(calls, x, window, limit, ra);
    AnswerAfterBlocked(calls, more, y, window, limit);
  }

  lemma RetryWindow(calls: seq<Call>, x: Call, window: real, limit: int, ra: int)
    requires window >= 0.0 && limit >= 1 && Orderly(calls + [x]) && Answer(calls, x, window, limit) == Verdict(true, ra)
    ensures |Recent(HistoryAfter(calls, window, limit), x.now + (ra as real), window)| < limit
    ensures |Recent(HistoryAfter(calls, window, limit), x.now + (ra as real) - 1.0, window)| >= limit
  {
    RetryAfterExact(calls, x, window, limit);
  }

  // ---------------------------------------------------------------- the store, updated in place

  class Limiter {
    var sets: map<string, Entry>

    constructor ()
      ensures sets == map[]
    {
      sets := map[];
    }

    ghost function At(key: string): Option<Entry>
      reads this
    {
      if key in sets then Some(sets[key]) else None
    }

    // The score of the first element of a sorted set.
    method Oldest(scores: Scores) returns (s: real)
      requires scores != map[]
      ensures s == OldestScore(scores)
    {
      var m :| m in scores;
      var left := scores.Keys - {m};
      s := scores[m];
      while left != {}
        invariant left <= scores.Keys
        invariant exists k :: k in scores && scores[k] == s
        invariant forall k :: k in scores && k !in left ==> s <= scores[k]
        decreases |left|
      {
        m :| m in left;
        left := left - {m};
        if scores[m] < s {
          s := scores[m];
        }
      }
    }

    // One run of the script. Other keys are not touched.
    method Check(key: string, now: real, window: real, limit: int, member: Member) returns (v: Verdict)
      modifies this
      ensures (At(key), v) == Script(old(At(key)), now, window, limit, member)
      ensures forall k :: k != key ==> At(k) == old(At(k))
      ensures !v.limited ==> key in sets && member in sets[key].scores && sets[key].scores[member] == now
      ensures !v.limited ==> sets[key].expireAt == now + (Ceil(window) as real)
      ensures v.limited && key in sets ==> key in old(sets) && sets[key].expireAt == old(sets)[key].expireAt
    {
      var entry := if key in sets then Some(sets[key]) else None;
      var scores := Pruned(Live(entry, now), now, window);
      if |scores| < limit {
        sets := sets[key := Entry(scores[member := now], now + (Ceil(window) as real))];
        return Verdict(false, 0);
      }
      var retryAfter := Ceil(window);
      if scores != map[] {
        var oldest := Oldest(scores);
        retryAfter := Max(1, Ceil(window - (now - oldest)));
        sets := sets[key := Entry(scores, entry.value.expireAt)];
      } else {
        sets := sets - {key};
      }
      v := Verdict(true, retryAfter);
    }
  }
}
