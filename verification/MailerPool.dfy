/** `hefest/worker/mailer.py`: the SMTP client pool under the send semaphore, and error classification. */
module MailerPool {
  import opened Basics

  type Client = nat
  type TaskId = nat

  // ---------------------------------------------------------------- the pool

  class Mailer {
    const size: nat
    var idle: seq<Client>

    // One client per concurrency slot.
    constructor (size: nat)
      ensures this.size == size && |idle| == size
      ensures forall i :: 0 <= i < size ==> idle[i] == i
    {
      this.size := size;
      idle := [];
      new;
      var n := 0;
      while n < size
        invariant n <= size && |idle| == n && forall i :: 0 <= i < n ==> idle[i] == i
      {
        idle := idle + [n];
        n := n + 1;
      }
    }

    // `await pool.get()`: None stands for a caller that has to wait. For a task `t` of a batch
    // `s` this is its step CheckOut, and a task inside the semaphore does not wait.
    method CheckOut(ghost s: State, ghost t: TaskId) returns (client: Option<Client>)
      modifies this`idle
      ensures old(idle) == [] ==> client == None && idle == []
      ensures old(idle) != [] ==> client == Some(old(idle)[0]) && idle == old(idle)[1..]
      ensures t in s.tasks && s.tasks[t] == Ready && s.idle == old(idle) && Inv(size, s) ==>
                && client.Some? && Enabled(size, s, Step.CheckOut(t))
                && Apply(size, s, Step.CheckOut(t)) == State(s.tasks[t := Sending(client.value)], idle)
    {
      ghost var ready := t in s.tasks && s.tasks[t] == Ready && s.idle == idle && Inv(size, s);
      if ready { ReadyFindsClient(size, s, t); }
      if idle == [] {
        return None;
      }
      client := Some(idle[0]);
      idle := idle[1..];
    }

    // `pool.put_nowait(client)`: refused when the queue is full. For a task `t` that returns the
    // client it holds this is its step CheckIn, and it is not refused.
    method CheckIn(client: Client, ghost s: State, ghost t: TaskId) returns (ok: bool)
      modifies this`idle
      ensures ok == (|old(idle)| < size)
      ensures idle == if ok then old(idle) + [client] else old(idle)
      ensures t in s.tasks && s.tasks[t] == Sending(client) && s.idle == old(idle) && Inv(size, s) ==>
                && ok && Enabled(size, s, Step.CheckIn(t))
                && Apply(size, s, Step.CheckIn(t)) == State(s.tasks[t := Sent], idle)
    {
      ghost var sending := t in s.tasks && s.tasks[t] == Sending(client) && s.idle == idle && Inv(size, s);
      if sending { ReturnFindsRoom(size, s, t); }
      ok := |idle| < size;
      if ok {
        idle := idle + [client];
      }
    }
  }

  // ---------------------------------------------------------------- tasks of one batch

  // A task waits for the semaphore, is inside it before, during or after its send, or is over.
  datatype Stage = Waiting | Ready | Sending(client: Client) | Sent | Finished

  datatype State = State(tasks: map<TaskId, Stage>, idle: seq<Client>)

  datatype Step = Acquire(t: TaskId) | CheckOut(t: TaskId) | CheckIn(t: TaskId) | Release(t: TaskId)

  function Inside(s: State): set<TaskId> {
    set t | t in s.tasks && s.tasks[t] != Waiting && s.tasks[t] != Finished
  }

  function Holding(s: State): set<TaskId> {
    set t | t in s.tasks && s.tasks[t].Sending?
  }

  predicate Enabled(c: nat, s: State, e: Step) {
    e.t in s.tasks &&
    match e
    case Acquire(t) => s.tasks[t] == Waiting && |Inside(s)| < c
    case CheckOut(t) => s.tasks[t] == Ready && s.idle != []
    case CheckIn(t) => s.tasks[t].Sending? && |s.idle| < c
    case Release(t) => s.tasks[t] == Ready || s.tasks[t] == Sent
  }

  function Apply(c: nat, s: State, e: Step): State
    requires Enabled(c, s, e)
  {
    match e
    case Acquire(t) => s.(tasks := s.tasks[t := Ready])
    case CheckOut(t) => State(s.tasks[t := Sending(s.idle[0])], s.idle[1..])
    case CheckIn(t) => State(s.tasks[t := Sent], s.idle + [s.tasks[t].client])
    case Release(t) => s.(tasks := s.tasks[t := Finished])
  }

  // At most `c` tasks inside, every client either idle or held, and none in two places.
  ghost predicate Inv(c: nat, s: State) {
    && |Inside(s)| <= c
    && |s.idle| + |Holding(s)| == c
    && NoneTwice(s)
  }

  ghost predicate NoneTwice(s: State) {
    && (forall i, k :: 0 <= i < k < |s.idle| ==> s.idle[i] != s.idle[k])
    && (forall t, u :: t in s.tasks && u in s.tasks && t != u && s.tasks[t].Sending? && s.tasks[u].Sending? ==> s.tasks[t].client != s.tasks[u].client)
    && (forall t, i :: t in s.tasks && s.tasks[t].Sending? && 0 <= i < |s.idle| ==> s.tasks[t].client != s.idle[i])
  }

  lemma NoneTwiceStep(c: nat, s: State, e: Step)
    requires NoneTwice(s) && Enabled(c, s, e)
    ensures NoneTwice(Apply(c, s, e))
  {
  }

  // Whatever holds a client is inside, so whoever is inside without one finds the pool non-empty.
  lemma ReadyFindsClient(c: nat, s: State, t: TaskId)
    requires Inv(c, s) && t in s.tasks && s.tasks[t] == Ready
    ensures s.idle != []
  {
    assert Holding(s) <= Inside(s) - {t};
    SubsetSize(Holding(s), Inside(s) - {t});
  }

  // A client on its way back always finds room.
  lemma ReturnFindsRoom(c: nat, s: State, t: TaskId)
    requires Inv(c, s) && t in s.tasks && s.tasks[t].Sending?
    ensures |s.idle| < c
  {
    assert t in Holding(s);
  }

  // Moving one task to another stage changes the two sets by that task only.
  lemma StageSets(s: State, t: TaskId, stage: Stage, idle: seq<Client>)
    requires t in s.tasks
    ensures var s' := State(s.tasks[t := stage], idle);
            && Inside(s') == (if stage == Waiting || stage == Finished then Inside(s) - {t} else Inside(s) + {t})
            && Holding(s') == (if stage.Sending? then Holding(s) + {t} else Holding(s) - {t})
  {
  }

  lemma InsideStep(c: nat, s: State, e: Step)
    requires Enabled(c, s, e) && |Inside(s)| <= c
    ensures |Inside(Apply(c, s, e))| <= c
  {
    var s' := Apply(c, s, e);
    StageSets(s, e.t, s'.tasks[e.t], s'.idle);
    if e.Release? {
      SubsetSize(Inside(s'), Inside(s));
    } else if !e.Acquire? {
      assert Inside(s') == Inside(s);
    }
  }

  lemma ClientsStep(c: nat, s: State, e: Step)
    requires Enabled(c, s, e) && |s.idle| + |Holding(s)| == c
    ensures var s' := Apply(c, s, e);
            |s'.idle| + |Holding(s')| == c
  {
    var s' := Apply(c, s, e);
    StageSets(s, e.t, s'.tasks[e.t], s'.idle);
    assert e.t in Holding(s) <==> e.CheckIn?;
  }

  lemma InvStep(c: nat, s: State, e: Step)
    requires Inv(c, s) && Enabled(c, s, e)
    ensures Inv(c, Apply(c, s, e))
  {
    NoneTwiceStep(c, s, e);
    InsideStep(c, s, e);
    ClientsStep(c, s, e);
  }

  ghost predicate StepAt(c: nat, ss: seq<State>, es: seq<Step>, i: nat)
    requires |ss| == |es| + 1 && i < |es|
  {
    Enabled(c, ss[i], es[i]) && ss[i + 1] == Apply(c, ss[i], es[i])
  }

  // A batch begins with every task waiting and a full pool of distinct clients.
  ghost predicate IsRun(c: nat, ss: seq<State>, es: seq<Step>) {
    && |ss| == |es| + 1
    && (forall t :: t in ss[0].tasks ==> ss[0].tasks[t] == Waiting)
    && |ss[0].idle| == c && (forall i, k :: 0 <= i < k < c ==> ss[0].idle[i] != ss[0].idle[k])
    && forall i :: 0 <= i < |es| ==> StepAt(c, ss, es, i)
  }

  lemma {:induction false} InvRun(c: nat, ss: seq<State>, es: seq<Step>, i: nat)
    requires IsRun(c, ss, es) && i < |ss|
    ensures Inv(c, ss[i])
  {
    if i == 0 {
      assert Inside(ss[0]) == {} && Holding(ss[0]) == {};
    } else {
      InvRun(c, ss, es, i - 1);
      assert StepAt(c, ss, es, i - 1);
      InvStep(c, ss[i - 1], es[i - 1]);
    }
  }

  // In every schedule of a batch under the semaphore: no check-out waits, no return is refused,
  // idle and checked-out clients always add up to the pool size, and no client is used twice.
  lemma PoolNeverStarves(c: nat, ss: seq<State>, es: seq<Step>, i: nat)
    requires IsRun(c, ss, es) && i < |ss|
    ensures |ss[i].idle| + |Holding(ss[i])| == c && |Inside(ss[i])| <= c
    ensures forall t :: t in ss[i].tasks && ss[i].tasks[t] == Ready ==> Enabled(c, ss[i], CheckOut(t))
    ensures forall t :: t in ss[i].tasks && ss[i].tasks[t].Sending? ==> Enabled(c, ss[i], CheckIn(t))
    ensures forall t, u :: t in Holding(ss[i]) && u in Holding(ss[i]) && t != u ==> ss[i].tasks[t].client != ss[i].tasks[u].client
  {
    InvRun(c, ss, es, i);
    forall t | t in ss[i].tasks && ss[i].tasks[t] == Ready ensures Enabled(c, ss[i], CheckOut(t)) { ReadyFindsClient(c, ss[i], t); }
    forall t | t in ss[i].tasks && ss[i].tasks[t].Sending? ensures Enabled(c, ss[i], CheckIn(t)) { ReturnFindsRoom(c, ss[i], t); }
  }

  // ---------------------------------------------------------------- error classification

  datatype SmtpError =
    | Timeout
    | RecipientsRefused(codes: seq<int>)
    | Response(code: int)
    | Disconnected
    | OtherSmtp
    | Unexpected

  datatype SendError = TransientSend | PermanentSend

  method MaxOf(codes: seq<int>) returns (m: int)
    requires codes != []
    ensures m in codes && forall i :: 0 <= i < |codes| ==> codes[i] <= m
  {
    m := codes[0];
    for i := 1 to |codes|
      invariant m in codes && forall k :: 0 <= k < i ==> codes[k] <= m
    {
      if codes[i] > m { m := codes[i]; }
    }
  }

  // Permanent exactly for a negative completion reply, or one among the refused recipients, of
  // 500 or more; everything else is worth a retry.
  method Classify(error: SmtpError) returns (r: SendError)
    ensures r == PermanentSend <==>
              || (error.Response? && error.code >= 500)
              || (error.RecipientsRefused? && exists i :: 0 <= i < |error.codes| && error.codes[i] >= 500)
  {
    match error
    case RecipientsRefused(codes) =>
      if codes == [] {
        return TransientSend;
      }
      var m := MaxOf(codes);
      r := if m >= 500 then PermanentSend else TransientSend;
    case Response(code) => r := if code >= 500 then PermanentSend else TransientSend;
    case _ => r := TransientSend;
  }
}
