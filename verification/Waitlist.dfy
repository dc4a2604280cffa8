/**
 Registrations in waitlist order: `ORDER BY registered_at, id`, the counted position of
 `list_my_registrations`, and the pages of `list_event_registrations`.
 */
module Waitlist {
  import opened Basics

  type RegId = nat
  type EventId = nat
  type UserId = nat

  datatype RegStatus = Confirmed | Waitlisted | Withdrawn

  datatype Reg = Reg(event: EventId, student: UserId, status: RegStatus, registeredAt: int, cancelledAt: Option<int>)

  type Regs = map<RegId, Reg>

  predicate Before(regs: Regs, a: RegId, b: RegId)
    requires a in regs && b in regs
  {
    regs[a].registeredAt < regs[b].registeredAt ||
    (regs[a].registeredAt == regs[b].registeredAt && a < b)
  }

  function WithStatus(regs: Regs, e: EventId, status: RegStatus): set<RegId> {
    set r | r in regs && regs[r].event == e && regs[r].status == status
  }

  // ---------------------------------------------------------------- ordered enumeration

  // `q` lists exactly `S`, strictly in order.
  ghost predicate Lists(regs: Regs, q: seq<RegId>, S: set<RegId>)
    requires S <= regs.Keys
  {
    && (forall i :: 0 <= i < |q| ==> q[i] in S)
    && (forall r :: r in S ==> r in q)
    && (forall i, k :: 0 <= i < k < |q| && q[i] in S && q[k] in S ==> Before(regs, q[i], q[k]))
  }

  ghost predicate IsFirst(regs: Regs, S: set<RegId>, m: RegId)
    requires S <= regs.Keys
  {
    m in S && forall r :: r in S && r != m ==> Before(regs, m, r)
  }

  // The first of the others, compared with one more row.
  lemma FirstOfMore(regs: Regs, S: set<RegId>, x: RegId, m: RegId)
    requires S <= regs.Keys && x in S && IsFirst(regs, S - {x}, m)
    ensures IsFirst(regs, S, if Before(regs, x, m) then x else m)
  {
    forall r | r in S && r != x && r != m ensures Before(regs, m, r) {
      assert r in S - {x};
    }
  }

  lemma {:induction false} FirstExists(regs: Regs, S: set<RegId>)
    requires S != {} && S <= regs.Keys
    ensures exists m :: IsFirst(regs, S, m)
    decreases |S|
  {
    var x :| x in S;
    if S == {x} {
      assert IsFirst(regs, S, x);
    } else {
      FirstExists(regs, S - {x});
      var m :| IsFirst(regs, S - {x}, m);
      FirstOfMore(regs, S, x, m);
    }
  }

  // `.order_by("registered_at", "id").first()`
  ghost function First(regs: Regs, S: set<RegId>): (m: RegId)
    requires S != {} && S <= regs.Keys
    ensures m in S && forall r :: r in S && r != m ==> Before(regs, m, r)
  {
    FirstExists(regs, S);
    var m :| IsFirst(regs, S, m);
    m
  }

  ghost function Queue(regs: Regs, S: set<RegId>): (q: seq<RegId>)
    requires S <= regs.Keys
    ensures Lists(regs, q, S)
    decreases |S|
  {
    if S == {} then []
    else
      var m := First(regs, S);
      [m] + Queue(regs, S - {m})
  }

  // An ordered listing is determined by what it lists and by the registration times alone.
  lemma {:induction false} ListingUnique(regs: Regs, regs': Regs, q: seq<RegId>, q': seq<RegId>, S: set<RegId>)
    requires S <= regs.Keys && S <= regs'.Keys
    requires forall r :: r in S ==> regs'[r].registeredAt == regs[r].registeredAt
    requires Lists(regs, q, S) && Lists(regs', q', S)
    ensures q == q'
    decreases |S|
  {
    EmptyListing(regs, q, S);
    EmptyListing(regs', q', S);
    if S != {} {
      HeadsAgree(regs, regs', q, q', S);
      Tail(regs, q, S);
      Tail(regs', q', S);
      ListingUnique(regs, regs', q[1..], q'[1..], S - {q[0]});
      SameHeadAndTail(q, q');
    }
  }

  lemma EmptyListing(regs: Regs, q: seq<RegId>, S: set<RegId>)
    requires S <= regs.Keys && Lists(regs, q, S)
    ensures q == [] <==> S == {}
  {
    if r :| r in S {
      assert r in q;
    }
    assert q != [] ==> q[0] in S;
  }

  lemma SameHeadAndTail(q: seq<RegId>, q': seq<RegId>)
    requires q != [] && q' != [] && q[0] == q'[0] && q[1..] == q'[1..]
    ensures q == q'
  {
    assert q == [q[0]] + q[1..] && q' == [q'[0]] + q'[1..];
  }

  lemma HeadsAgree(regs: Regs, regs': Regs, q: seq<RegId>, q': seq<RegId>, S: set<RegId>)
    requires S <= regs.Keys && S <= regs'.Keys && q != [] && q' != []
    requires forall r :: r in S ==> regs'[r].registeredAt == regs[r].registeredAt
    requires Lists(regs, q, S) && Lists(regs', q', S)
    ensures q[0] == q'[0]
  {
    var k :| 0 <= k < |q'| && q'[k] == q[0];
    var i :| 0 <= i < |q| && q[i] == q'[0];
  }

  lemma Tail(regs: Regs, q: seq<RegId>, S: set<RegId>)
    requires S <= regs.Keys && Lists(regs, q, S) && q != []
    ensures Lists(regs, q[1..], S - {q[0]})
  {
    forall r | r in S - {q[0]} ensures r in q[1..] {
      var k :| 0 <= k < |q| && q[k] == r;
      assert q[1..][k - 1] == r;
    }
  }

  lemma {:induction false} ListingLength(regs: Regs, q: seq<RegId>, S: set<RegId>)
    requires S <= regs.Keys && Lists(regs, q, S)
    ensures |q| == |S|
    decreases |S|
  {
    if q == [] {
      assert S == {};
    } else {
      Tail(regs, q, S);
      ListingLength(regs, q[1..], S - {q[0]});
    }
  }

  // ---------------------------------------------------------------- the queue under changes

  // A newcomer goes to the end exactly when it comes after everyone waiting.
  lemma AppendIff(regs: Regs, S: set<RegId>, x: RegId)
    requires S <= regs.Keys && x in regs && x !in S
    ensures Queue(regs, S + {x}) == Queue(regs, S) + [x] <==> forall r :: r in S ==> Before(regs, r, x)
  {
    var q, q' := Queue(regs, S), Queue(regs, S + {x});
    if forall r :: r in S ==> Before(regs, r, x) {
      assert Lists(regs, q + [x], S + {x});
      ListingUnique(regs, regs, q', q + [x], S + {x});
    }
    if q' == q + [x] {
      forall r | r in S ensures Before(regs, r, x) {
        var k :| 0 <= k < |q| && q[k] == r;
        assert q'[k] == r && q'[|q|] == x;
      }
    }
  }

  lemma ListingWithout(regs: Regs, q: seq<RegId>, S: set<RegId>, i: nat)
    requires S <= regs.Keys && Lists(regs, q, S) && i < |q|
    ensures Lists(regs, q[..i] + q[i + 1..], S - {q[i]})
  {
    var p := q[..i] + q[i + 1..];
    assert forall k :: 0 <= k < |p| ==> p[k] == q[if k < i then k else k + 1];
    forall r | r in S - {q[i]} ensures r in p {
      var k :| 0 <= k < |q| && q[k] == r;
      assert p[if k < i then k else k - 1] == r;
    }
  }

  // Leaving takes out one element and moves nothing else.
  lemma RemoveOne(regs: Regs, S: set<RegId>, i: nat)
    requires S <= regs.Keys && i < |Queue(regs, S)|
    ensures var q := Queue(regs, S);
            Queue(regs, S - {q[i]}) == q[..i] + q[i + 1..]
  {
    var q := Queue(regs, S);
    ListingWithout(regs, q, S, i);
    ListingUnique(regs, regs, Queue(regs, S - {q[i]}), q[..i] + q[i + 1..], S - {q[i]});
  }

  // ---------------------------------------------------------------- positions

  predicate AtOrBefore(regs: Regs, s: RegId, r: RegId)
    requires s in regs && r in regs
  {
    regs[s].registeredAt < regs[r].registeredAt || (regs[s].registeredAt == regs[r].registeredAt && s <= r)
  }

  function UpTo(regs: Regs, S: set<RegId>, r: RegId): set<RegId>
    requires S <= regs.Keys && r in regs
  {
    set s | s in S && AtOrBefore(regs, s, r)
  }

  // The count of `list_my_registrations`: rows at or before `r`.
  function Position(regs: Regs, S: set<RegId>, r: RegId): nat
    requires S <= regs.Keys && r in regs
  {
    |UpTo(regs, S, r)|
  }

  lemma {:induction false} ElementsOf(regs: Regs, q: seq<RegId>, S: set<RegId>, n: nat)
    requires S <= regs.Keys && Lists(regs, q, S) && n <= |q|
    ensures |set k | 0 <= k < n :: q[k]| == n
  {
    if n > 0 {
      ElementsOf(regs, q, S, n - 1);
      assert forall k :: 0 <= k < n - 1 ==> q[k] != q[n - 1];
      assert (set k | 0 <= k < n :: q[k]) == (set k | 0 <= k < n - 1 :: q[k]) + {q[n - 1]};
    }
  }

  lemma PrefixIsUpTo(regs: Regs, q: seq<RegId>, S: set<RegId>, i: nat)
    requires S <= regs.Keys && Lists(regs, q, S) && i < |q|
    ensures UpTo(regs, S, q[i]) == set k | 0 <= k < i + 1 :: q[k]
  {
    forall s | s in UpTo(regs, S, q[i]) ensures s in (set k | 0 <= k < i + 1 :: q[k]) {
      var k :| 0 <= k < |q| && q[k] == s;
    }
    forall s | s in (set k | 0 <= k < i + 1 :: q[k]) ensures s in UpTo(regs, S, q[i]) {
      var k :| 0 <= k < i + 1 && q[k] == s;
      assert k < i ==> Before(regs, q[k], q[i]);
    }
  }

  // The counted position is the 1-based place in the queue.
  lemma PositionIsPlace(regs: Regs, q: seq<RegId>, S: set<RegId>, i: nat)
    requires S <= regs.Keys && Lists(regs, q, S) && i < |q|
    ensures Position(regs, S, q[i]) == i + 1
  {
    PrefixIsUpTo(regs, q, S, i);
    ElementsOf(regs, q, S, i + 1);
  }

  ghost predicate Taken(regs: Regs, S: set<RegId>, n: nat)
    requires S <= regs.Keys
  {
    exists r :: r in S && Position(regs, S, r) == n
  }

  lemma PlaceOf(regs: Regs, q: seq<RegId>, S: set<RegId>, r: RegId) returns (i: nat)
    requires S <= regs.Keys && Lists(regs, q, S) && r in S
    ensures i < |q| && q[i] == r && Position(regs, S, r) == i + 1
  {
    i :| 0 <= i < |q| && q[i] == r;
    PositionIsPlace(regs, q, S, i);
  }

  lemma PositionInRange(regs: Regs, S: set<RegId>, r: RegId)
    requires S <= regs.Keys && r in S
    ensures 1 <= Position(regs, S, r) <= |S|
  {
    var q := Queue(regs, S);
    ListingLength(regs, q, S);
    var i := PlaceOf(regs, q, S, r);
  }

  lemma PositionInjective(regs: Regs, S: set<RegId>, a: RegId, b: RegId)
    requires S <= regs.Keys && a in S && b in S && Position(regs, S, a) == Position(regs, S, b)
    ensures a == b
  {
    var q := Queue(regs, S);
    var i := PlaceOf(regs, q, S, a);
    var k := PlaceOf(regs, q, S, b);
  }

  lemma PositionOnto(regs: Regs, S: set<RegId>, n: nat)
    requires S <= regs.Keys && 1 <= n <= |S|
    ensures Taken(regs, S, n)
  {
    var q := Queue(regs, S);
    ListingLength(regs, q, S);
    PositionIsPlace(regs, q, S, n - 1);
    assert q[n - 1] in S;
  }

  // Positions are a bijection onto 1..n.
  lemma PositionsBijective(regs: Regs, S: set<RegId>)
    requires S <= regs.Keys
    ensures forall r :: r in S ==> 1 <= Position(regs, S, r) <= |S|
    ensures forall a, b :: a in S && b in S && Position(regs, S, a) == Position(regs, S, b) ==> a == b
    ensures forall n: nat :: 1 <= n <= |S| ==> Taken(regs, S, n)
  {
    forall r | r in S ensures 1 <= Position(regs, S, r) <= |S| { PositionInRange(regs, S, r); }
    forall a, b | a in S && b in S && Position(regs, S, a) == Position(regs, S, b) ensures a == b {
      PositionInjective(regs, S, a, b);
    }
    forall n: nat | 1 <= n <= |S| ensures Taken(regs, S, n) { PositionOnto(regs, S, n); }
  }

  // Position 1 is the row the next promotion takes.
  lemma PositionOneIsNext(regs: Regs, S: set<RegId>, r: RegId)
    requires S <= regs.Keys && r in S
    ensures Position(regs, S, r) == 1 <==> r == First(regs, S)
  {
    var q := Queue(regs, S);
    var i := PlaceOf(regs, q, S, r);
    assert q[0] == First(regs, S);
  }

  // When a row leaves, exactly those behind it move up, by one.
  lemma RemovalShifts(regs: Regs, S: set<RegId>, gone: RegId, r: RegId)
    requires S <= regs.Keys && gone in S && r in S && r != gone
    ensures Position(regs, S - {gone}, r) == Position(regs, S, r) - if Before(regs, gone, r) then 1 else 0
  {
    assert UpTo(regs, S - {gone}, r) == UpTo(regs, S, r) - {gone};
    assert gone in UpTo(regs, S, r) <==> Before(regs, gone, r);
  }

  // The position told at registration (`waitlist_count + 1`) is the counted one exactly when
  // the newcomer comes after everyone waiting.
  lemma PromisedPosition(regs: Regs, S: set<RegId>, x: RegId)
    requires S <= regs.Keys && x in regs && x !in S
    ensures Position(regs, S + {x}, x) == |S| + 1 <==> forall r :: r in S ==> Before(regs, r, x)
  {
    var T := S + {x};
    var upTo := UpTo(regs, T, x);
    assert |T| == |S| + 1;
    if forall r :: r in S ==> Before(regs, r, x) {
      assert upTo == T;
    }
    if r :| r in S && !Before(regs, r, x) {
      assert upTo <= T - {r};
      assert T - {r} == upTo + (T - {r} - upTo);
    }
  }

  // ---------------------------------------------------------------- pages

  function Page<T>(q: seq<T>, limit: nat, offset: nat): (p: seq<T>)
    ensures offset >= |q| ==> p == []
    ensures offset < |q| ==> |p| == if limit < |q| - offset then limit else |q| - offset
    ensures forall i :: 0 <= i < |p| ==> offset + i < |q| && p[i] == q[offset + i]
  {
    var from := if offset < |q| then offset else |q|;
    var to := if from + limit < |q| then from + limit else |q|;
    q[from..to]
  }

  function Pages<T>(q: seq<T>, size: nat, offset: nat): seq<T>
    requires size >= 1
    decreases if offset < |q| then |q| - offset else 0
  {
    if offset >= |q| then [] else Page(q, size, offset) + Pages(q, size, offset + size)
  }

  // Reading page after page gives the whole list, whatever the page size.
  lemma {:induction false} PagesAreAll<T>(q: seq<T>, size: nat, offset: nat)
    requires size >= 1 && offset <= |q|
    ensures Pages(q, size, offset) == q[offset..]
    decreases |q| - offset
  {
    if offset < |q| {
      if offset + size <= |q| {
        PagesAreAll(q, size, offset + size);
      } else {
        assert Pages(q, size, offset + size) == [];
      }
    }
  }

  // The organizer's pages and the student's position agree for every page size.
  lemma PositionInPages(regs: Regs, S: set<RegId>, size: nat, r: RegId)
    requires S <= regs.Keys && r in S && size >= 1
    ensures var all := Pages(Queue(regs, S), size, 0);
            1 <= Position(regs, S, r) <= |all| && all[Position(regs, S, r) - 1] == r
  {
    var q := Queue(regs, S);
    PagesAreAll(q, size, 0);
    assert q[0..] == q;
    var i := PlaceOf(regs, q, S, r);
  }
}
