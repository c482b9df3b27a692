/** Why Reconnect may leave the swap of the socket to the io thread: writes and swaps wait in one queue, so a
    request that is dispatched after a reconnect never goes to an older connection. */
module RpcQueue {
  import opened Frames
  import opened RpcChannel

  function Swaps(queue: seq<Task>): nat {
    if queue == [] then 0 else (if queue[0].Swap? then 1 else 0) + Swaps(queue[1..])
  }

  /** The number of connections when all swaps that wait now have been run. */
  function Due(s: State): nat {
    |s.conns| + Swaps(s.queue)
  }

  lemma {:induction false} SwapsAppend(queue: seq<Task>, t: Task)
    ensures Swaps(queue + [t]) == Swaps(queue) + if t.Swap? then 1 else 0
  {
    if queue != [] {
      assert (queue + [t])[1..] == queue[1..] + [t];
      SwapsAppend(queue[1..], t);
    }
  }

  /** Every write of the call that waits at place p of the queue has at least k connections before it. */
  ghost predicate WaitsBehind(s: State, id: nat, k: nat) {
    forall p :: 0 <= p < |s.queue| && s.queue[p] == Write(id) ==> |s.conns| + Swaps(s.queue[..p]) >= k
  }

  /** The call's request was sent on the k-th connection or a later one, counted from 1, if at all. */
  ghost predicate SentFrom(s: State, id: nat, k: nat) {
    forall i, q :: 0 <= i < |s.conns| && q in s.conns[i].sent && q.id == id ==> i + 1 >= k
  }

  ghost predicate Undispatched(s: State, id: nat) {
    && (forall p :: 0 <= p < |s.queue| ==> s.queue[p] != Write(id))
    && (forall i, q :: 0 <= i < |s.conns| && q in s.conns[i].sent ==> q.id != id)
  }

  /** A call that has not dispatched its write, or has not begun, is not in the queue and was not sent. */
  ghost predicate NothingEarly(s: State) {
    forall id: nat :: (id in s.calls ==> s.calls[id].stage in {Started, Registered}) ==> Undispatched(s, id)
  }

  predicate Queueing(a: Action) {
    a.Dispatch? || a.Reconnect? || a.RunWrite? || a.RunSwap?
  }

  /** Only four steps touch the queue or what is sent. */
  lemma OthersLeaveAlone(s: State, a: Action)
    requires Enabled(s, a) && !Queueing(a)
    ensures var s' := Step(s, a);
      && s'.queue == s.queue && |s'.conns| == |s.conns|
      && forall i :: 0 <= i < |s.conns| ==> s'.conns[i].sent == s.conns[i].sent
  {
    hide Responses, Requests, RequestStream, ResponseHeader, HasFrame, FirstResponse, AfterFirst, ValidRequest, ValidResponse;
  }

  lemma DueGrows(s: State, a: Action)
    requires Enabled(s, a)
    ensures Due(Step(s, a)) >= Due(s)
    ensures a.Reconnect? ==> Due(Step(s, a)) == Due(s) + 1
  {
    if !Queueing(a) {
      OthersLeaveAlone(s, a);
      hide Step, Enabled;
    } else if a.Dispatch? {
      SwapsAppend(s.queue, Write(a.id));
    } else if a.Reconnect? {
      SwapsAppend(s.queue, Swap);
    }
  }

  /** Once a call's write waits behind k connections, it is sent on the k-th or a later one. */
  lemma StepKeepsPlace(s: State, a: Action, id: nat, k: nat)
    requires Enabled(s, a) && a != Dispatch(id)
    requires WaitsBehind(s, id, k) && SentFrom(s, id, k)
    ensures WaitsBehind(Step(s, a), id, k) && SentFrom(Step(s, a), id, k)
  {
    if !Queueing(a) {
      OthersLeaveAlone(s, a);
      hide Step, Enabled, Swaps;
    } else if a.Dispatch? || a.Reconnect? {
      hide Swaps;
      var s' := Step(s, a);
      var t := if a.Dispatch? then Write(a.id) else Swap;
      assert s'.queue == s.queue + [t] && s'.conns == s.conns;
      forall p | 0 <= p < |s'.queue| && s'.queue[p] == Write(id) ensures |s'.conns| + Swaps(s'.queue[..p]) >= k {
        SamePlace(s.queue, t, p);
      }
    } else {
      HeadRuns(s, a, id, k);
    }
  }

  lemma SamePlace(queue: seq<Task>, t: Task, p: nat)
    requires p <= |queue|
    ensures (queue + [t])[..p] == queue[..p]
    ensures p < |queue| ==> (queue + [t])[p] == queue[p]
    ensures p == |queue| ==> (queue + [t])[p] == t
  {}

  lemma HeadGone(queue: seq<Task>, p: nat)
    requires p + 1 <= |queue|
    ensures Swaps(queue[..p + 1]) == (if queue[0].Swap? then 1 else 0) + Swaps(queue[1..][..p])
  {
    assert queue[..p + 1][1..] == queue[1..][..p];
  }

  lemma HeadRuns(s: State, a: Action, id: nat, k: nat)
    requires Enabled(s, a) && (a.RunWrite? || a.RunSwap?)
    requires WaitsBehind(s, id, k) && SentFrom(s, id, k)
    ensures WaitsBehind(Step(s, a), id, k) && SentFrom(Step(s, a), id, k)
  {
    var s' := Step(s, a);
    forall p | 0 <= p < |s'.queue| && s'.queue[p] == Write(id) ensures |s'.conns| + Swaps(s'.queue[..p]) >= k {
      assert s'.queue == s.queue[1..];
      assert s.queue[p + 1] == Write(id);
      HeadGone(s.queue, p);
    }
    hide Enabled, ValidRequest;
    assert s.queue[..0] == [];
    if a.RunWrite? && s.queue[0] == Write(id) {
      assert |s.conns| + Swaps(s.queue[..0]) >= k;
    }
  }

  lemma {:induction false} RunKeepsPlace(s: State, run: seq<Action>, id: nat, k: nat)
    requires Possible(s, run) && Dispatch(id) !in run
    requires WaitsBehind(s, id, k) && SentFrom(s, id, k)
    ensures WaitsBehind(After(s, run), id, k) && SentFrom(After(s, run), id, k)
    decreases |run|
  {
    hide Step, Enabled, WaitsBehind, SentFrom;
    if run != [] {
      StepKeepsPlace(s, run[0], id, k);
      RunKeepsPlace(Step(s, run[0]), run[1..], id, k);
    }
  }

  lemma {:induction false} RunDueGrows(s: State, run: seq<Action>)
    requires Possible(s, run)
    ensures Due(After(s, run)) >= Due(s)
    decreases |run|
  {
    hide Step, Enabled, Due;
    if run != [] {
      DueGrows(s, run[0]);
      RunDueGrows(Step(s, run[0]), run[1..]);
    }
  }

  // ----- nothing is dispatched early

  lemma StepKeepsUndispatched(s: State, a: Action, id: nat)
    requires Enabled(s, a) && a != Dispatch(id) && Undispatched(s, id)
    ensures Undispatched(Step(s, a), id)
  {
    if !Queueing(a) {
      OthersLeaveAlone(s, a);
      hide Step, Enabled;
    } else {
      hide ValidRequest;
    }
  }

  lemma StageStays(s: State, a: Action, id: nat)
    requires Enabled(s, a) && !OfCaller(a)
    ensures id in Step(s, a).calls <==> id in s.calls
    ensures id in s.calls ==> Step(s, a).calls[id].stage == s.calls[id].stage
  {
    hide ValidRequest, Responses, Requests, RequestStream, ResponseHeader, HasFrame, FirstResponse, AfterFirst, ValidResponse;
  }

  /** A call leaves its first stages by dispatching its write, and in no other way. */
  lemma EarlyBefore(s: State, a: Action, id: nat)
    requires Enabled(s, a) && CallsOk(s)
    requires id in Step(s, a).calls ==> Step(s, a).calls[id].stage in {Started, Registered}
    ensures a != Dispatch(id) && (id in s.calls ==> s.calls[id].stage in {Started, Registered})
  {
    hide Enabled, Step, CallsOk;
    if OfCaller(a) {
      CallerStages(s, a, id);
    } else {
      StageStays(s, a, id);
    }
  }

  /** What a step of a caller does to the stage of any call. */
  lemma CallerStages(s: State, a: Action, id: nat)
    requires Enabled(s, a) && CallsOk(s) && OfCaller(a)
    ensures id in Step(s, a).calls && Step(s, a).calls[id].stage in {Started, Registered} && id in s.calls
      ==> s.calls[id].stage in {Started, Registered}
    ensures a == Dispatch(id) ==> AtStage(Step(s, a), id, Waiting) && AtStage(s, id, Registered)
    ensures Late(s, id) ==> Late(Step(s, a), id)
    ensures id in s.calls ==> id in Step(s, a).calls
  {
    if id in s.calls { assert CallOk(s, id); }
    hide CallOk, CallsOk, ValidRequest;
  }

  lemma StepKeepsNothingEarly(s: State, a: Action)
    requires Enabled(s, a) && CallsOk(s) && NothingEarly(s)
    ensures NothingEarly(Step(s, a))
  {
    hide CallsOk, Undispatched, Enabled, Step;
    var s' := Step(s, a);
    forall id: nat | id in s'.calls ==> s'.calls[id].stage in {Started, Registered} ensures Undispatched(s', id) {
      EarlyBefore(s, a, id);
      StepKeepsUndispatched(s, a, id);
    }
  }

  lemma {:induction false} RunKeepsNothingEarly(s: State, run: seq<Action>)
    requires Inv(s) && NothingEarly(s) && Possible(s, run)
    ensures NothingEarly(After(s, run))
    decreases |run|
  {
    hide CallsOk, WireOk, NothingEarly, Enabled, Step;
    if run != [] {
      StepKeeps(s, run[0]);
      StepKeepsNothingEarly(s, run[0]);
      RunKeepsNothingEarly(Step(s, run[0]), run[1..]);
    }
  }

  lemma InitialNothingEarly()
    ensures NothingEarly(Initial())
  {}

  /** A request that is dispatched after a reconnect is never sent on a connection older than the one that
      this reconnect brings: before and after are any steps of any thread. */
  lemma NewSocketAfterReconnect(before: seq<Action>, between: seq<Action>, id: nat, after: seq<Action>)
    requires Possible(Initial(), before)
    requires var s := After(Initial(), before);
      && Enabled(s, Reconnect) && Possible(Step(s, Reconnect), between)
      && var t := After(Step(s, Reconnect), between);
      && Enabled(t, Dispatch(id)) && Possible(Step(t, Dispatch(id)), after)
    ensures var s := After(Initial(), before);
      var t := After(Step(s, Reconnect), between);
      var end := After(Step(t, Dispatch(id)), after);
      forall i, q :: 0 <= i < |end.conns| && q in end.conns[i].sent && q.id == id ==> i >= Due(s)
  {
    hide *;
    var s := After(Initial(), before);
    var s1 := Step(s, Reconnect);
    var t := After(s1, between);
    InitialOk();
    InitialNothingEarly();
    RunKeeps(Initial(), before);
    RunKeepsNothingEarly(Initial(), before);
    StepKeeps(s, Reconnect);
    InvParts(s);
    StepKeepsNothingEarly(s, Reconnect);
    RunKeeps(s1, between);
    RunKeepsNothingEarly(s1, between);
    DueGrows(s, Reconnect);
    RunDueGrows(s1, between);
    DispatchPlaces(t, id, Due(s) + 1);
    var t1 := Step(t, Dispatch(id));
    StepKeeps(t, Dispatch(id));
    DispatchedOnce(t1, after, id);
    RunKeepsPlace(t1, after, id, Due(s) + 1);
    SentFromIs(After(t1, after), id, Due(s) + 1);
  }

  lemma InvParts(s: State)
    requires Inv(s)
    ensures CallsOk(s)
  {}

  lemma SentFromIs(s: State, id: nat, k: nat)
    requires SentFrom(s, id, k)
    ensures forall i, q :: 0 <= i < |s.conns| && q in s.conns[i].sent && q.id == id ==> i + 1 >= k
  {}

  /** The write of a call is put behind every swap that waits. */
  lemma DispatchPlaces(s: State, id: nat, k: nat)
    requires Enabled(s, Dispatch(id)) && NothingEarly(s) && Due(s) >= k
    ensures var s' := Step(s, Dispatch(id)); WaitsBehind(s', id, k) && SentFrom(s', id, k) && Late(s', id)
  {
    assert Undispatched(s, id);
    var s' := Step(s, Dispatch(id));
    forall p | 0 <= p < |s'.queue| && s'.queue[p] == Write(id) ensures |s'.conns| + Swaps(s'.queue[..p]) >= k {
      assert p == |s.queue| && s'.queue[..p] == s.queue;
    }
  }

  /** Past the stages in which a call dispatches its write. */
  predicate Late(s: State, id: nat) {
    id in s.calls && s.calls[id].stage !in {Started, Registered}
  }

  lemma StepKeepsLate(s: State, a: Action, id: nat)
    requires Enabled(s, a) && CallsOk(s) && Late(s, id)
    ensures Late(Step(s, a), id) && a != Dispatch(id)
  {
    hide Enabled, Step, CallsOk;
    if OfCaller(a) {
      CallerStages(s, a, id);
    } else {
      StageStays(s, a, id);
    }
  }

  lemma {:induction false} DispatchedOnce(s: State, run: seq<Action>, id: nat)
    requires Inv(s) && Late(s, id) && Possible(s, run)
    ensures Dispatch(id) !in run
    decreases |run|
  {
    hide CallsOk, WireOk, Late, Enabled, Step;
    if run != [] {
      StepKeepsLate(s, run[0], id);
      StepKeeps(s, run[0]);
      DispatchedOnce(Step(s, run[0]), run[1..], id);
      assert run == [run[0]] + run[1..];
    }
  }
}
