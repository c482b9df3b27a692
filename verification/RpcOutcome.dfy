/** What becomes of a call: the response taken for it reaches its caller, a woken call fails, a failure has a
    cause, and every answer can come through. */
module RpcOutcome {
  import opened Frames
  import opened RpcChannel

  /** What Call returns for a response. */
  function Outcome(status: byte, data: seq<byte>): Stage {
    if status == 0 then Returned(true, data) else Returned(false, [])
  }

  /** The call was completed with this status and data, and has not given up before. */
  ghost predicate Settles(s: State, id: nat, status: byte, data: seq<byte>) {
    && id in s.calls
    && var c := s.calls[id];
      && c.done && c.status == status && c.data == data
      && (c.stage in {Registered, Waiting, TimedOut, Claimed, Finished(true)} || c.stage == Outcome(status, data))
  }

  /** The reader holds the response for the call, or has completed the call with it. */
  ghost predicate Coming(s: State, r: Response) {
    || Settles(s, r.id, r.status, r.data)
    || (s.reader == Holding(r) && r.id in s.calls && s.calls[r.id].stage in {Registered, Waiting, TimedOut, Claimed})
  }

  /** The call's second wait runs out. */
  predicate GivesUp(s: State, a: Action, id: nat) {
    a == Timeout(id) && AtStage(s, id, Claimed)
  }

  predicate NeverGivesUp(s: State, run: seq<Action>, id: nat)
    requires Possible(s, run)
    decreases |run|
  {
    run == [] || (!GivesUp(s, run[0], id) && NeverGivesUp(Step(s, run[0]), run[1..], id))
  }

  // ----- steps

  /** Nothing but the two completing steps and the steps of its caller touches a call. */
  lemma CallStays(s: State, a: Action, id: nat)
    requires Enabled(s, a) && CallsOk(s) && id in s.calls
    requires a !in {Register(id), Dispatch(id), Awake(id), Timeout(id), Reclaim(id), Return(id), WakeOne(id)}
    requires a == Deliver ==> !Held(s, id)
    ensures id in Step(s, a).calls && Step(s, a).calls[id] == s.calls[id]
  {
    assert CallOk(s, id);
    hide CallsOk, CallOk, ValidRequest, ValidResponse, Responses, Requests, RequestStream, ResponseHeader, HasFrame, FirstResponse, AfterFirst;
  }

  /** A held response waits until it is delivered. */
  lemma ReaderWaits(s: State, a: Action)
    requires Enabled(s, a) && s.reader.Holding? && a != Deliver
    ensures Step(s, a).reader == s.reader
  {
    hide ValidRequest, ValidResponse, Responses, Requests, RequestStream, ResponseHeader, HasFrame, FirstResponse, AfterFirst;
  }

  lemma SettlesStep(s: State, a: Action, id: nat, status: byte, data: seq<byte>)
    requires CallsOk(s) && Enabled(s, a) && Settles(s, id, status, data)
    ensures Settles(Step(s, a), id, status, data)
  {
    assert CallOk(s, id);
    hide CallOk, CallsOk, ValidRequest;
    if a in {Register(id), Dispatch(id), Awake(id), Timeout(id), Reclaim(id), Return(id), WakeOne(id)} {
    } else if a == Deliver && Held(s, id) {
    } else {
      hide Enabled, Step;
      CallStays(s, a, id);
    }
  }

  lemma ComingStep(s: State, a: Action, r: Response)
    requires CallsOk(s) && Enabled(s, a) && Coming(s, r) && !GivesUp(s, a, r.id)
    ensures Coming(Step(s, a), r)
  {
    var id := r.id;
    if Settles(s, id, r.status, r.data) {
      SettlesStep(s, a, id, r.status, r.data);
    } else {
      assert CallOk(s, id);
      hide CallOk, CallsOk, ValidRequest;
      if a == Deliver || a in {Register(id), Dispatch(id), Awake(id), Timeout(id), Reclaim(id), Return(id), WakeOne(id)} {
      } else {
        hide Enabled, Step;
        CallStays(s, a, id);
        ReaderWaits(s, a);
      }
    }
  }

  // ----- runs

  lemma {:induction false} SettlesThen(s: State, run: seq<Action>, id: nat, status: byte, data: seq<byte>)
    requires Inv(s) && Possible(s, run) && Settles(s, id, status, data)
    ensures Settles(After(s, run), id, status, data)
    decreases |run|
  {
    hide CallsOk, WireOk, Enabled, Step, Settles;
    if run != [] {
      StepKeeps(s, run[0]);
      SettlesStep(s, run[0], id, status, data);
      SettlesThen(Step(s, run[0]), run[1..], id, status, data);
    }
  }

  lemma {:induction false} ComingThen(s: State, run: seq<Action>, r: Response)
    requires Inv(s) && Possible(s, run) && Coming(s, r) && NeverGivesUp(s, run, r.id)
    ensures Coming(After(s, run), r)
    decreases |run|
  {
    hide CallsOk, WireOk, Enabled, Step, Coming, GivesUp;
    if run != [] {
      StepKeeps(s, run[0]);
      ComingStep(s, run[0], r);
      ComingThen(Step(s, run[0]), run[1..], r);
    }
  }

  lemma TakenIsComing(s: State, r: Response)
    requires Inv(s) && Enabled(s, TakeFrame)
    requires Step(s, TakeFrame).taken == s.taken + [r] && r.id in s.pending
    ensures Coming(Step(s, TakeFrame), r)
  {
    hide WireOk, ValidRequest, ValidResponse, HasFrame, FirstResponse, AfterFirst;
    assert CallOk(s, r.id);
    assert (s.taken + [r])[|s.taken|] == r;
  }

  /** The answer arrives: when the reader takes a response whose id is pending, then, whatever callers,
      reconnects and the core do, the call returns with that response's data if its status is 0 and fails if
      not, unless the second wait of the call runs out first. */
  lemma AnswerArrives(before: seq<Action>, r: Response, after: seq<Action>)
    requires Possible(Initial(), before)
    requires var s := After(Initial(), before);
      && Enabled(s, TakeFrame) && Step(s, TakeFrame).taken == s.taken + [r] && r.id in s.pending
      && Possible(Step(s, TakeFrame), after) && NeverGivesUp(Step(s, TakeFrame), after, r.id)
    ensures var end := After(Step(After(Initial(), before), TakeFrame), after);
      && r.id in end.calls
      && (end.calls[r.id].stage.Returned? ==>
          end.calls[r.id].stage == if r.status == 0 then Returned(true, r.data) else Returned(false, []))
  {
    hide Possible, After, Enabled, Step, CallsOk, WireOk, Inv, Coming, NeverGivesUp;
    var s := After(Initial(), before);
    InitialOk();
    RunKeeps(Initial(), before);
    TakenIsComing(s, r);
    StepKeeps(s, TakeFrame);
    ComingThen(Step(s, TakeFrame), after, r);
    ComingMeans(After(Step(s, TakeFrame), after), r);
  }

  lemma ComingMeans(s: State, r: Response)
    requires Coming(s, r)
    ensures r.id in s.calls && (s.calls[r.id].stage.Returned? ==> s.calls[r.id].stage == Outcome(r.status, r.data))
  {}

  lemma WokenSettles(s: State, id: nat)
    requires Inv(s) && Enabled(s, WakeOne(id))
    ensures var t := Step(s, WakeOne(id)); id in t.calls && Settles(t, id, 1, t.calls[id].data)
  {
    hide WireOk, ValidRequest;
    assert CallOk(s, id);
  }

  /** A call that a disconnect or a reconnect wakes fails, whatever happens afterwards. */
  lemma WokenFails(before: seq<Action>, id: nat, after: seq<Action>)
    requires Possible(Initial(), before)
    requires var s := After(Initial(), before);
      Enabled(s, WakeOne(id)) && Possible(Step(s, WakeOne(id)), after)
    ensures var end := After(Step(After(Initial(), before), WakeOne(id)), after);
      id in end.calls && (end.calls[id].stage.Returned? ==> end.calls[id].stage == Returned(false, []))
  {
    hide Possible, After, Enabled, Step, CallsOk, WireOk, Inv, Settles;
    var s := After(Initial(), before);
    InitialOk();
    RunKeeps(Initial(), before);
    WokenSettles(s, id);
    StepKeeps(s, WakeOne(id));
    var t := Step(s, WakeOne(id));
    SettlesThen(t, after, id, 1, t.calls[id].data);
    SettlesMeans(After(t, after), id, 1, t.calls[id].data);
  }

  lemma SettlesMeans(s: State, id: nat, status: byte, data: seq<byte>)
    requires Settles(s, id, status, data)
    ensures id in s.calls && (s.calls[id].stage.Returned? ==> s.calls[id].stage == Outcome(status, data))
  {}

  /** wakeAllWithError leaves nobody out: when it lets go of the lock, every call that was registered when it
      took it is completed. */
  lemma AllWoken(run: seq<Action>, id: nat)
    requires Possible(Initial(), run) && Enabled(After(Initial(), run), UnlockAll)
    requires id in After(Initial(), run).pending
    ensures id in After(Initial(), run).calls && After(Initial(), run).calls[id].done
  {
    hide Possible, After, WireOk, ValidRequest;
    InitialOk();
    RunKeeps(Initial(), run);
    assert CallOk(After(Initial(), run), id);
  }

  // ----- why a call fails

  /** Some handler answered the call with an error. */
  ghost predicate Refused(s: State, id: nat) {
    id in s.calls && exists status: byte, data :: status != 0 && Answer(RequestOf(s, id), Response(id, status, data)) in s.answers
  }

  ghost predicate Cause(s: State, acts: seq<Action>, id: nat) {
    Timeout(id) in acts || WakeOne(id) in acts || Refused(s, id)
  }

  ghost predicate Explained(s: State, acts: seq<Action>, id: nat) {
    id in s.calls ==>
      var c := s.calls[id];
      && (c.stage in {TimedOut, Claimed, Finished(false)} ==> Timeout(id) in acts)
      && (c.done ==> WakeOne(id) in acts || Answer(RequestOf(s, id), Response(id, c.status, c.data)) in s.answers)
      && (c.stage.Returned? && !c.stage.success ==> Cause(s, acts, id))
  }

  lemma ExplainedStep(s: State, acts: seq<Action>, a: Action, id: nat)
    requires CallsOk(s) && Enabled(s, a) && Explained(s, acts, id)
    ensures Explained(Step(s, a), acts + [a], id)
  {
    hide Enabled, Step, CallsOk, CallOk;
    if id !in s.calls {
      if id in Step(s, a).calls { NewCall(s, a, id); }
    } else if a == Deliver && Held(s, id) {
      DeliverExplained(s, acts, id);
    } else if a in {Register(id), Dispatch(id), Awake(id), Timeout(id), Reclaim(id), Return(id), WakeOne(id)} {
      OwnExplained(s, acts, a, id);
    } else {
      StepGrows(s, a);
      CallStays(s, a, id);
      ExplainedStays(s, acts, a, Step(s, a), id);
    }
  }

  lemma ExplainedStays(s: State, acts: seq<Action>, a: Action, s': State, id: nat)
    requires Explained(s, acts, id) && Grows(s, s') && id in s.calls && s'.calls[id] == s.calls[id]
    ensures Explained(s', acts + [a], id)
  {
    assert forall b :: b in acts ==> b in acts + [a];
  }

  lemma OwnExplained(s: State, acts: seq<Action>, a: Action, id: nat)
    requires CallsOk(s) && Enabled(s, a) && Explained(s, acts, id) && id in s.calls
    requires a in {Register(id), Dispatch(id), Awake(id), Timeout(id), Reclaim(id), Return(id), WakeOne(id)}
    ensures Explained(Step(s, a), acts + [a], id)
  {
    assert CallOk(s, id);
    hide CallOk, CallsOk, ValidRequest;
    var more := acts + [a];
    assert a in more && forall b :: b in acts ==> b in more;
    assert Step(s, a).answers == s.answers && RequestOf(Step(s, a), id) == RequestOf(s, id);
  }

  lemma DeliverExplained(s: State, acts: seq<Action>, id: nat)
    requires CallsOk(s) && Enabled(s, Deliver) && Held(s, id) && id in s.calls && Explained(s, acts, id)
    ensures Explained(Step(s, Deliver), acts + [Deliver], id)
  {
    hide ValidRequest, ValidResponse;
    assert CallOk(s, id);
    assert forall b :: b in acts ==> b in acts + [Deliver];
  }

  lemma NewCall(s: State, a: Action, id: nat)
    requires Enabled(s, a) && id !in s.calls && id in Step(s, a).calls
    ensures Step(s, a).calls[id].stage == Started && !Step(s, a).calls[id].done
  {
    hide ValidRequest, ValidResponse, Responses, Requests, RequestStream, ResponseHeader, HasFrame, FirstResponse, AfterFirst;
  }

  lemma {:induction false} ExplainedThen(s: State, acts: seq<Action>, run: seq<Action>, id: nat)
    requires Inv(s) && Possible(s, run) && Explained(s, acts, id)
    ensures Explained(After(s, run), acts + run, id)
    decreases |run|
  {
    hide CallsOk, WireOk, Enabled, Step, Explained;
    if run == [] {
      assert acts + run == acts;
    } else {
      StepKeeps(s, run[0]);
      ExplainedStep(s, acts, run[0], id);
      ExplainedThen(Step(s, run[0]), acts + [run[0]], run[1..], id);
      assert acts + [run[0]] + run[1..] == acts + run;
    }
  }

  /** A call fails only for a reason: it timed out, it was woken by a disconnect or a reconnect, or its own
      request was answered with an error. */
  lemma FailsForAReason(run: seq<Action>, id: nat)
    requires Possible(Initial(), run) && AtStage(After(Initial(), run), id, Returned(false, []))
    ensures Timeout(id) in run || WakeOne(id) in run || Refused(After(Initial(), run), id)
  {
    hide Possible, After, CallsOk, WireOk;
    InitialOk();
    ExplainedThen(Initial(), [], run, id);
    assert [] + run == run;
  }

  // ----- every answer can come through

  /** The only call waits, its request is on the only connection. */
  function RequestSent(name: seq<byte>, payload: seq<byte>): State {
    State(2, map[1 := Call(name, payload, Waiting, false, 1, [], 0)], {1}, Free, [], true, [], Idle,
          [Conn([Request(1, name, payload)], 0, {}, {}, NoWriter, [], [], false)], 0, [], {})
  }

  lemma OneByOne(s: State, a: Action, run: seq<Action>)
    requires Enabled(s, a) && Possible(Step(s, a), run)
    ensures Possible(s, [a] + run) && After(s, [a] + run) == After(Step(s, a), run)
  {
    hide Enabled, Step;
    assert ([a] + run)[1..] == run;
  }

  lemma Nothing(s: State)
    ensures Possible(s, []) && After(s, []) == s
  {}

  /** Connected, with no call yet. */
  function Connected(): State {
    State(1, map[], {}, Free, [], true, [], Idle, [Conn([], 0, {}, {}, NoWriter, [], [], false)], 0, [], {})
  }

  lemma Connects()
    ensures Possible(Initial(), [Reconnect] + ([RunSwap] + [])) && After(Initial(), [Reconnect] + ([RunSwap] + [])) == Connected()
  {
    hide Possible, After;
    var s1 := Step(Initial(), Reconnect);
    assert s1.queue == [Swap];
    var s2 := Step(s1, RunSwap);
    assert s2 == Connected();
    Nothing(s2);
    OneByOne(s1, RunSwap, []);
    OneByOne(Initial(), Reconnect, [RunSwap] + []);
  }

  /** The call is registered and its write is queued. */
  function Queued(name: seq<byte>, payload: seq<byte>): State {
    Connected().(nextId := 2, calls := map[1 := Call(name, payload, Waiting, false, 1, [], 0)], pending := {1}, queue := [Write(1)])
  }

  lemma Queues(name: seq<byte>, payload: seq<byte>)
    requires ValidRequest(Request(1, name, payload))
    ensures var run := [Begin(name, payload)] + ([Register(1)] + ([Dispatch(1)] + []));
      Possible(Connected(), run) && After(Connected(), run) == Queued(name, payload)
  {
    hide Possible, After, ValidRequest;
    var s1 := Step(Connected(), Begin(name, payload));
    var s2 := Step(s1, Register(1));
    var s3 := Step(s2, Dispatch(1));
    assert s3 == Queued(name, payload);
    Nothing(s3);
    OneByOne(s2, Dispatch(1), []);
    OneByOne(s1, Register(1), [Dispatch(1)] + []);
    OneByOne(Connected(), Begin(name, payload), [Register(1)] + ([Dispatch(1)] + []));
  }

  lemma Writes(name: seq<byte>, payload: seq<byte>)
    ensures Possible(Queued(name, payload), [RunWrite] + []) && After(Queued(name, payload), [RunWrite] + []) == RequestSent(name, payload)
  {
    hide Possible, After;
    var q, s := Request(1, name, payload), Step(Queued(name, payload), RunWrite);
    assert [] + [q] == [q] && s.conns == [Conn([q], 0, {}, {}, NoWriter, [], [], false)] && s.queue == [];
    assert s == RequestSent(name, payload);
    Nothing(s);
    OneByOne(Queued(name, payload), RunWrite, []);
  }

  /** From the beginning to the request on the wire. */
  lemma SendsRequest(name: seq<byte>, payload: seq<byte>) returns (run: seq<Action>)
    requires ValidRequest(Request(1, name, payload))
    ensures Possible(Initial(), run) && After(Initial(), run) == RequestSent(name, payload)
  {
    hide *;
    Connects();
    Queues(name, payload);
    Writes(name, payload);
    var a, b, c := [Reconnect] + ([RunSwap] + []), [Begin(name, payload)] + ([Register(1)] + ([Dispatch(1)] + [])), [RunWrite] + [];
    RunsJoin(Initial(), a, b);
    RunsJoin(Initial(), a + b, c);
    run := a + b + c;
  }

  /** The core has answered, and its response is on the wire. */
  function ResponseSent(name: seq<byte>, payload: seq<byte>, r: Response): State {
    var q := Request(1, name, payload);
    RequestSent(name, payload).(
      conns := [Conn([q], 1, {}, {}, NoWriter, [r], ResponseFrame(r), false)],
      answers := {Answer(q, r)})
  }

  lemma RequestRead(q: Request)
    requires ValidRequest(q)
    ensures var b := RequestStream([q]); Requests(b[..|b|]) == [q]
  {
    var b := RequestStream([q]);
    RequestStreamRoundTrip([q]);
    assert b[..|b|] == b;
  }

  /** The state while the core is at work. */
  function AtCore(name: seq<byte>, payload: seq<byte>, conn: Conn, answers: set<Answer>): State {
    RequestSent(name, payload).(conns := [conn], answers := answers)
  }

  lemma CoreReads(name: seq<byte>, payload: seq<byte>)
    requires ValidRequest(Request(1, name, payload))
    ensures var q := Request(1, name, payload);
      var s, n := RequestSent(name, payload), |RequestStream([q])|;
      Enabled(s, ReadRequest(0, n)) && Step(s, ReadRequest(0, n)) == AtCore(name, payload, Conn([q], 1, {q}, {}, NoWriter, [], [], false), {})
  {
    hide ValidRequest, Requests, RequestStream;
    var q := Request(1, name, payload);
    RequestRead(q);
    assert {} + {q} == {q};
  }

  lemma CoreHandles(name: seq<byte>, payload: seq<byte>, r: Response)
    requires ValidResponse(r) && |r.data| < 0x8000_0000 && r.id == 1
    ensures var q := Request(1, name, payload);
      var s := AtCore(name, payload, Conn([q], 1, {q}, {}, NoWriter, [], [], false), {});
      && Enabled(s, Answers(0, q, r))
      && Step(s, Answers(0, q, r)) == AtCore(name, payload, Conn([q], 1, {}, {r}, NoWriter, [], [], false), {Answer(q, r)})
  {
    hide ValidResponse;
    var q := Request(1, name, payload);
    assert {q} - {q} == {} && {} + {r} == {r} && {} + {Answer(q, r)} == {Answer(q, r)};
  }

  lemma HeaderSent(name: seq<byte>, payload: seq<byte>, r: Response)
    ensures var q := Request(1, name, payload);
      var s := AtCore(name, payload, Conn([q], 1, {}, {r}, NoWriter, [], [], false), {Answer(q, r)});
      && Enabled(s, WriteHeader(0, r))
      && Step(s, WriteHeader(0, r))
        == AtCore(name, payload, Conn([q], 1, {}, {}, HeaderWritten(r), [], ResponseHeader(r.id, r.status, |r.data|), false), {Answer(q, r)})
  {
    hide ResponseHeader;
    var head := ResponseHeader(r.id, r.status, |r.data|);
    assert {r} - {r} == {} && [] + head == head;
  }

  lemma DataSent(name: seq<byte>, payload: seq<byte>, r: Response)
    ensures var q := Request(1, name, payload);
      var s := AtCore(name, payload, Conn([q], 1, {}, {}, HeaderWritten(r), [], ResponseHeader(r.id, r.status, |r.data|), false), {Answer(q, r)});
      Enabled(s, WriteData(0)) && Step(s, WriteData(0)) == ResponseSent(name, payload, r)
  {
    hide ResponseHeader;
    assert [] + [r] == [r];
  }

  lemma CoreAnswers(name: seq<byte>, payload: seq<byte>, r: Response) returns (run: seq<Action>)
    requires ValidRequest(Request(1, name, payload)) && ValidResponse(r) && |r.data| < 0x8000_0000 && r.id == 1
    ensures Possible(RequestSent(name, payload), run) && After(RequestSent(name, payload), run) == ResponseSent(name, payload, r)
  {
    hide *;
    var q := Request(1, name, payload);
    var s, n := RequestSent(name, payload), |RequestStream([q])|;
    CoreReads(name, payload);
    CoreHandles(name, payload, r);
    HeaderSent(name, payload, r);
    DataSent(name, payload, r);
    var s1 := Step(s, ReadRequest(0, n));
    var s2 := Step(s1, Answers(0, q, r));
    var s3 := Step(s2, WriteHeader(0, r));
    Nothing(Step(s3, WriteData(0)));
    OneByOne(s3, WriteData(0), []);
    OneByOne(s2, WriteHeader(0, r), [WriteData(0)] + []);
    OneByOne(s1, Answers(0, q, r), [WriteHeader(0, r)] + ([WriteData(0)] + []));
    run := [Answers(0, q, r)] + ([WriteHeader(0, r)] + ([WriteData(0)] + []));
    OneByOne(s, ReadRequest(0, n), run);
    run := [ReadRequest(0, n)] + run;
  }

  lemma FrameRead(r: Response)
    requires ValidResponse(r)
    ensures var b := ResponseFrame(r); HasFrame(b) && FirstResponse(b) == r && AfterFirst(b) == []
  {
    FrameAhead(r, []);
    assert ResponseFrame(r) + [] == ResponseFrame(r);
  }

  lemma CallReturns(name: seq<byte>, payload: seq<byte>, r: Response) returns (run: seq<Action>)
    requires ValidResponse(r) && r.id == 1
    ensures Possible(ResponseSent(name, payload, r), run)
    ensures var s := After(ResponseSent(name, payload, r), run);
      && AtStage(s, 1, if r.status == 0 then Returned(true, r.data) else Returned(false, []))
      && s.calls[1].name == name && s.calls[1].payload == payload
      && s.answers == {Answer(Request(1, name, payload), r)}
  {
    hide Possible, After, ValidResponse, ResponseFrame, HasFrame, FirstResponse, AfterFirst;
    FrameRead(r);
    var s := ResponseSent(name, payload, r);
    var n := |ResponseFrame(r)|;
    var s1 := Step(s, Receive(n));
    assert s1.readBuf == ResponseFrame(r);
    var s2 := Step(s1, TakeFrame);
    var s3 := Step(s2, Deliver);
    var s4 := Step(s3, Awake(1));
    var s5 := Step(s4, Return(1));
    Nothing(s5);
    OneByOne(s4, Return(1), []);
    OneByOne(s3, Awake(1), [Return(1)] + []);
    OneByOne(s2, Deliver, [Awake(1)] + ([Return(1)] + []));
    OneByOne(s1, TakeFrame, [Deliver] + ([Awake(1)] + ([Return(1)] + [])));
    run := [TakeFrame] + ([Deliver] + ([Awake(1)] + ([Return(1)] + [])));
    OneByOne(s, Receive(n), run);
    run := [Receive(n)] + run;
  }

  /** Calls can succeed: for every method, payload, status and data there is a run from the beginning in which
      a call with that method and payload returns exactly what the handler answered. */
  lemma EveryAnswerReachable(name: seq<byte>, payload: seq<byte>, status: byte, data: seq<byte>) returns (run: seq<Action>)
    requires ValidRequest(Request(1, name, payload)) && |data| < 0x8000_0000
    ensures Possible(Initial(), run)
    ensures var s := After(Initial(), run);
      && AtStage(s, 1, if status == 0 then Returned(true, data) else Returned(false, []))
      && s.calls[1].name == name && s.calls[1].payload == payload
      && s.answers == {Answer(Request(1, name, payload), Response(1, status, data))}
  {
    hide Possible, After, ValidRequest, ResponseFrame, Step, Enabled, RequestSent, ResponseSent;
    var r := Response(1, status, data);
    var a := SendsRequest(name, payload);
    var b := CoreAnswers(name, payload, r);
    var c := CallReturns(name, payload, r);
    RunsJoin(Initial(), a, b);
    RunsJoin(Initial(), a + b, c);
    run := a + b + c;
  }
}
