/** The multiplexed channel of src/api/RPC.cpp and the dispatcher of core/server/dispatch.go, as a step
    relation: callers, the io thread, timeouts, disconnects, reconnects and the handlers of the core
    interleave in every way that their locks allow. */
module RpcChannel {
  import opened Frames

  // ----- state

  /** Where a thread stands in Call. */
  datatype Stage = Started | Registered | Waiting | TimedOut | Claimed | Finished(ok: bool) | Returned(success: bool, rsp: seq<byte>)

  /** A PendingCall with what its caller asked for; completions counts how often it was completed. */
  datatype Call = Call(name: seq<byte>, payload: seq<byte>, stage: Stage, done: bool, status: byte, data: seq<byte>, completions: nat)

  /** What waits in the event queue of the io thread. */
  datatype Task = Write(id: nat) | Swap

  /** The reader, between taking a call out of pending and completing it. */
  datatype Reader = Idle | Holding(r: Response)

  /** pending_mu: held for long only by wakeAllWithError, which still has the calls of todo to wake. */
  datatype Lock = Free | Waking(todo: set<nat>)

  datatype Writer = NoWriter | HeaderWritten(r: Response)

  /** One connection: the requests sent, the server's handlers and the bytes that it wrote. */
  datatype Conn = Conn(sent: seq<Request>, seen: nat, running: set<Request>, ready: set<Response>,
                       writer: Writer, written: seq<Response>, toClient: seq<byte>, broken: bool)

  /** A request and the response that its handler gave. */
  datatype Answer = Answer(request: Request, response: Response)

  datatype State = State(nextId: nat, calls: map<nat, Call>, pending: set<nat>, lock: Lock,
                         queue: seq<Task>, connected: bool, readBuf: seq<byte>, reader: Reader,
                         conns: seq<Conn>, received: nat, taken: seq<Response>, answers: set<Answer>)

  function Initial(): State {
    State(1, map[], {}, Free, [], false, [], Idle, [], 0, [], {})
  }

  // ----- steps

  datatype Action =
    // a caller
    | Begin(name: seq<byte>, payload: seq<byte>) | Register(id: nat) | Dispatch(id: nat) | Awake(id: nat)
    | Timeout(id: nat) | Reclaim(id: nat) | Return(id: nat)
    // wakeAllWithError and Reconnect
    | LockAll | WakeOne(id: nat) | UnlockAll | Reconnect
    // the io thread
    | RunWrite | RunSwap | Close | Receive(n: nat) | TakeFrame | Deliver
    // the core
    | ReadRequest(c: nat, n: nat) | Answers(c: nat, q: Request, r: Response) | WriteHeader(c: nat, r: Response)
    | WriteData(c: nat) | Break(c: nat)

  function RequestOf(s: State, id: nat): Request
    requires id in s.calls
  {
    Request(id, s.calls[id].name, s.calls[id].payload)
  }

  predicate AtStage(s: State, id: nat, stage: Stage) {
    id in s.calls && s.calls[id].stage == stage
  }

  function Moved(s: State, id: nat, stage: Stage): State
    requires id in s.calls
  {
    s.(calls := s.calls[id := s.calls[id].(stage := stage)])
  }

  function Completed(c: Call): Call {
    c.(done := true, completions := c.completions + 1)
  }

  predicate AnyWaiting(s: State, id: nat) {
    AtStage(s, id, Waiting) || AtStage(s, id, Claimed)
  }

  function Current(s: State): Conn
    requires s.conns != []
  {
    s.conns[|s.conns| - 1]
  }

  predicate Enabled(s: State, a: Action) {
    match a
    case Begin(name, payload) => ValidRequest(Request(s.nextId, name, payload)) // ids do not wrap
    case Register(id) => AtStage(s, id, Started) && s.lock.Free?
    case Dispatch(id) => AtStage(s, id, Registered)
    case Awake(id) => AnyWaiting(s, id) && s.calls[id].done
    case Timeout(id) => AnyWaiting(s, id) && !s.calls[id].done
    case Reclaim(id) => AtStage(s, id, TimedOut) && s.lock.Free?
    case Return(id) => id in s.calls && s.calls[id].stage.Finished?
    case LockAll => s.lock.Free?
    case WakeOne(id) => s.lock.Waking? && id in s.lock.todo && id in s.calls
    case UnlockAll => s.lock.Waking? && s.lock.todo == {}
    case Reconnect => true
    case RunWrite => s.queue != [] && s.queue[0].Write? && s.queue[0].id in s.calls && s.reader.Idle?
    case RunSwap => s.queue != [] && s.queue[0].Swap? && s.reader.Idle?
    case Close => s.reader.Idle?
    case Receive(n) => s.connected && s.conns != [] && s.reader.Idle? && s.received + n <= |Current(s).toClient|
    case TakeFrame => s.connected && HasFrame(s.readBuf) && s.reader.Idle? && s.lock.Free?
    case Deliver => s.reader.Holding? && s.reader.r.id in s.calls
    case ReadRequest(c, n) => c < |s.conns| && n <= |RequestStream(s.conns[c].sent)|
      && s.conns[c].seen < |Requests(RequestStream(s.conns[c].sent)[..n])|
    case Answers(c, q, r) => c < |s.conns| && q in s.conns[c].running && r.id == q.id && ValidResponse(r) && |r.data| < 0x8000_0000
    case WriteHeader(c, r) => c < |s.conns| && s.conns[c].writer.NoWriter? && r in s.conns[c].ready && !s.conns[c].broken
    case WriteData(c) => c < |s.conns| && s.conns[c].writer.HeaderWritten? && !s.conns[c].broken
    case Break(c) => c < |s.conns|
  }

  function Step(s: State, a: Action): State
    requires Enabled(s, a)
  {
    match a
    case Begin(name, payload) =>
      s.(nextId := s.nextId + 1, calls := s.calls[s.nextId := Call(name, payload, Started, false, 1, [], 0)])
    case Register(id) => Moved(s, id, Registered).(pending := s.pending + {id})
    case Dispatch(id) => Moved(s, id, Waiting).(queue := s.queue + [Write(id)])
    case Awake(id) => Moved(s, id, Finished(true))
    case Timeout(id) => Moved(s, id, if s.calls[id].stage.Waiting? then TimedOut else Finished(false))
    case Reclaim(id) =>
      if id in s.pending then Moved(s, id, Finished(false)).(pending := s.pending - {id}) else Moved(s, id, Claimed)
    case Return(id) =>
      var c := s.calls[id];
      Moved(s, id, if !c.stage.ok || c.status != 0 then Returned(false, []) else Returned(true, c.data))
    case LockAll => s.(lock := Waking(s.pending))
    case WakeOne(id) => s.(calls := s.calls[id := Completed(s.calls[id])], lock := Waking(s.lock.todo - {id}))
    case UnlockAll => s.(pending := {}, lock := Free)
    case Reconnect => s.(queue := s.queue + [Swap])
    case RunWrite =>
      var s' := s.(queue := s.queue[1..]);
      if s.connected && s.conns != [] then SendOn(s', |s.conns| - 1, RequestOf(s, s.queue[0].id)) else s'
    case RunSwap =>
      s.(queue := s.queue[1..], connected := true, readBuf := [], received := 0, taken := [],
         conns := s.conns + [Conn([], 0, {}, {}, NoWriter, [], [], false)])
    case Close => s.(connected := false)
    case Receive(n) =>
      s.(readBuf := s.readBuf + Current(s).toClient[s.received..s.received + n], received := s.received + n)
    case TakeFrame =>
      var r := FirstResponse(s.readBuf);
      var s' := s.(readBuf := AfterFirst(s.readBuf), taken := s.taken + [r]);
      if r.id in s.pending then s'.(pending := s.pending - {r.id}, reader := Holding(r)) else s'
    case Deliver =>
      var r := s.reader.r;
      s.(calls := s.calls[r.id := Completed(s.calls[r.id]).(status := r.status, data := r.data)], reader := Idle)
    case ReadRequest(c, n) =>
      var conn := s.conns[c];
      var q := Requests(RequestStream(conn.sent)[..n])[conn.seen];
      s.(conns := s.conns[c := conn.(seen := conn.seen + 1, running := conn.running + {q})])
    case Answers(c, q, r) =>
      var conn := s.conns[c];
      s.(conns := s.conns[c := conn.(running := conn.running - {q}, ready := conn.ready + {r})],
         answers := s.answers + {Answer(q, r)})
    case WriteHeader(c, r) =>
      var conn := s.conns[c];
      s.(conns := s.conns[c := conn.(ready := conn.ready - {r}, writer := HeaderWritten(r),
                                     toClient := conn.toClient + ResponseHeader(r.id, r.status, |r.data|))])
    case WriteData(c) =>
      var conn := s.conns[c];
      s.(conns := s.conns[c := conn.(writer := NoWriter, written := conn.written + [conn.writer.r],
                                     toClient := conn.toClient + conn.writer.r.data)])
    case Break(c) => s.(conns := s.conns[c := s.conns[c].(broken := true)])
  }

  function SendOn(s: State, c: nat, q: Request): State
    requires c < |s.conns|
  {
    s.(conns := s.conns[c := s.conns[c].(sent := s.conns[c].sent + [q])])
  }

  /** Every action of the run is possible when its turn comes. */
  predicate Possible(s: State, run: seq<Action>)
    decreases |run|
  {
    run == [] || (Enabled(s, run[0]) && Possible(Step(s, run[0]), run[1..]))
  }

  function After(s: State, run: seq<Action>): State
    requires Possible(s, run)
    decreases |run|
  {
    if run == [] then s else After(Step(s, run[0]), run[1..])
  }

  // ----- what every step keeps: the calls

  ghost predicate Answered(s: State, id: nat, data: seq<byte>)
    requires id in s.calls
  {
    Answer(RequestOf(s, id), Response(id, 0, data)) in s.answers
  }

  predicate Held(s: State, id: nat) {
    s.reader.Holding? && s.reader.r.id == id
  }

  ghost predicate CallOk(s: State, id: nat)
    requires id in s.calls
  {
    var c := s.calls[id];
    && 0 < id < s.nextId && ValidRequest(RequestOf(s, id))
    && c.completions == (if c.done then 1 else 0)
    && (id in s.pending ==> (c.done <==> s.lock.Waking? && id !in s.lock.todo))
    && (id in s.pending && !c.done ==> c.stage in {Registered, Waiting, TimedOut})
    && (Held(s, id) ==> id !in s.pending && !c.done)
    && (c.stage == Started ==> id !in s.pending && !c.done && !Held(s, id))
    && (c.stage == Claimed || c.stage == Finished(false) ==> id !in s.pending)
    && (c.stage == Finished(true) ==> c.done)
    && (c.status != 1 ==> c.done)
    && (c.status == 0 ==> Answered(s, id, c.data))
    && (c.stage.Returned? && c.stage.success ==> Answered(s, id, c.stage.rsp))
  }

  ghost predicate CallsOk(s: State) {
    && s.nextId > 0
    && s.pending <= s.calls.Keys && (s.lock.Waking? ==> s.lock.todo <= s.pending)
    && (forall id :: id in s.calls ==> CallOk(s, id))
    && (s.reader.Holding? ==> s.reader.r.id in s.calls && Known(s, s.reader.r))
    && (forall k :: 0 <= k < |s.queue| ==> s.queue[k].Write? ==> s.queue[k].id in s.calls)
  }

  // ----- what every step keeps: the wire

  /** Some handler gave this response, to the request with its id. */
  ghost predicate Known(s: State, r: Response) {
    ValidResponse(r) && r.id in s.calls && Answer(RequestOf(s, r.id), r) in s.answers
  }

  /** The responses whose writing has begun, in order. */
  function Begun(c: Conn): seq<Response> {
    if c.writer.HeaderWritten? then c.written + [c.writer.r] else c.written
  }

  /** Under writeMu frames do not interleave: the bytes are the frames of the responses, the last of
      which may lack its data. */
  predicate InFrames(c: Conn) {
    c.toClient == Stream(c.written)
      + if c.writer.HeaderWritten? then ResponseHeader(c.writer.r.id, c.writer.r.status, |c.writer.r.data|) else []
  }

  ghost predicate ConnOk(s: State, c: Conn) {
    && InFrames(c)
    && (forall q :: q in c.sent ==> q.id in s.calls && q == RequestOf(s, q.id) && ValidRequest(q))
    && (forall q :: q in c.running ==> q in c.sent)
    && (forall r :: r in c.ready ==> Known(s, r))
    && (forall r :: r in Begun(c) ==> Known(s, r))
  }

  /** What the reader has taken and what is left in its buffer are what has arrived. */
  ghost predicate ReadOk(s: State) {
    s.connected ==>
      && s.conns != [] && s.received <= |Current(s).toClient|
      && s.taken + Responses(s.readBuf) == Responses(Current(s).toClient[..s.received])
      && Remnant(s.readBuf) == Remnant(Current(s).toClient[..s.received])
  }

  ghost predicate WireOk(s: State) {
    && (forall i :: 0 <= i < |s.conns| ==> ConnOk(s, s.conns[i]))
    && ReadOk(s)
  }

  ghost predicate Inv(s: State) {
    CallsOk(s) && WireOk(s)
  }

  // ----- each step keeps it

  /** Calls keep what they asked for, and answers stay. */
  ghost predicate Grows(s: State, s': State) {
    && s.answers <= s'.answers && s.nextId <= s'.nextId
    && forall id :: id in s.calls ==> id in s'.calls && RequestOf(s', id) == RequestOf(s, id)
  }

  lemma StepGrows(s: State, a: Action)
    requires CallsOk(s) && Enabled(s, a)
    ensures Grows(s, Step(s, a))
  {
    hide CallOk, Step, Enabled;
    if a.Begin? {
      BeginGrows(s, a);
    } else if OfCaller(a) {
      CallerGrows(s, a);
    } else {
      OtherGrows(s, a);
    }
  }

  predicate OfCaller(a: Action) {
    a.Begin? || a.Register? || a.Dispatch? || a.Awake? || a.Timeout? || a.Reclaim? || a.Return?
  }

  lemma BeginGrows(s: State, a: Action)
    requires CallsOk(s) && Enabled(s, a) && a.Begin?
    ensures Grows(s, Step(s, a))
  {
    hide ValidRequest;
    forall id | id in s.calls
      ensures id < s.nextId
    {
      assert CallOk(s, id);
    }
  }

  lemma CallerGrows(s: State, a: Action)
    requires Enabled(s, a) && OfCaller(a) && !a.Begin?
    ensures Grows(s, Step(s, a))
  {
    hide ValidRequest;
  }

  lemma OtherGrows(s: State, a: Action)
    requires Enabled(s, a) && !OfCaller(a)
    ensures Grows(s, Step(s, a))
  {
    hide Responses, Requests, RequestStream, ResponseHeader, HasFrame, FirstResponse, AfterFirst, ValidRequest, ValidResponse;
  }

  lemma ConnGrows(s: State, s': State, c: Conn)
    requires Grows(s, s') && ConnOk(s, c)
    ensures ConnOk(s', c)
  {
    hide InFrames, ValidRequest, ValidResponse;
  }

  /** A call that a step does not touch. */
  lemma CallGrows(s: State, s': State, id: nat)
    requires Grows(s, s') && id in s.calls && CallOk(s, id) && s'.calls[id] == s.calls[id]
    requires s'.lock == s.lock && (id in s'.pending <==> id in s.pending) && (Held(s', id) <==> Held(s, id))
    ensures CallOk(s', id)
  {
    hide ValidRequest;
  }

  /** Calls that a step does not touch need no further thought. */
  lemma OthersGrow(s: State, s': State, mine: nat)
    requires CallsOk(s) && Grows(s, s') && s'.lock == s.lock && s'.reader == s.reader && s'.nextId > 0
    requires s'.calls.Keys <= s.calls.Keys + {mine}
    requires forall id :: id in s.calls && id != mine ==> s'.calls[id] == s.calls[id] && (id in s'.pending <==> id in s.pending)
    requires mine in s'.calls ==> CallOk(s', mine)
    requires s'.pending <= s'.calls.Keys && (s'.lock.Waking? ==> s'.lock.todo <= s'.pending)
    requires forall k :: 0 <= k < |s'.queue| ==> s'.queue[k].Write? ==> s'.queue[k].id in s'.calls
    ensures CallsOk(s')
  {
    hide ValidRequest, ValidResponse, CallOk;
    forall id | id in s'.calls
      ensures CallOk(s', id)
    {
      if id != mine {
        CallGrows(s, s', id);
      }
    }
  }

  lemma BeginStep(s: State, a: Action)
    requires CallsOk(s) && Enabled(s, a) && a.Begin?
    ensures CallsOk(Step(s, a))
  {
    hide ValidResponse;
    StepGrows(s, a);
    forall id | id in s.calls
      ensures id < s.nextId
    {
      assert CallOk(s, id);
    }
    OthersGrow(s, Step(s, a), s.nextId);
  }

  /** A caller that only moves on. */
  lemma MoveStep(s: State, a: Action)
    requires CallsOk(s) && Enabled(s, a) && (a.Awake? || a.Timeout?)
    ensures CallsOk(Step(s, a))
  {
    hide ValidRequest, ValidResponse;
    StepGrows(s, a);
    assert CallOk(s, a.id);
    OthersGrow(s, Step(s, a), a.id);
  }

  lemma DispatchStep(s: State, a: Action)
    requires CallsOk(s) && Enabled(s, a) && a.Dispatch?
    ensures CallsOk(Step(s, a))
  {
    hide ValidRequest, ValidResponse;
    StepGrows(s, a);
    assert CallOk(s, a.id);
    OthersGrow(s, Step(s, a), a.id);
  }

  lemma ReturnStep(s: State, a: Action)
    requires CallsOk(s) && Enabled(s, a) && a.Return?
    ensures CallsOk(Step(s, a))
  {
    hide ValidRequest, ValidResponse;
    StepGrows(s, a);
    assert CallOk(s, a.id);
    OthersGrow(s, Step(s, a), a.id);
  }

  lemma RegisterStep(s: State, a: Action)
    requires CallsOk(s) && Enabled(s, a) && a.Register?
    ensures CallsOk(Step(s, a))
  {
    hide ValidRequest, ValidResponse;
    StepGrows(s, a);
    assert CallOk(s, a.id);
    OthersGrow(s, Step(s, a), a.id);
  }

  lemma ReclaimStep(s: State, a: Action)
    requires CallsOk(s) && Enabled(s, a) && a.Reclaim?
    ensures CallsOk(Step(s, a))
  {
    hide ValidRequest, ValidResponse;
    StepGrows(s, a);
    assert CallOk(s, a.id);
    OthersGrow(s, Step(s, a), a.id);
  }

  lemma LockStep(s: State, a: Action)
    requires CallsOk(s) && Enabled(s, a) && (a.LockAll? || a.UnlockAll?)
    ensures CallsOk(Step(s, a))
  {
    hide ValidRequest, ValidResponse;
    StepGrows(s, a);
    var s' := Step(s, a);
    forall id | id in s'.calls
      ensures CallOk(s', id)
    {
      assert CallOk(s, id);
    }
  }

  lemma WakeStep(s: State, a: Action)
    requires CallsOk(s) && Enabled(s, a) && a.WakeOne?
    ensures CallsOk(Step(s, a))
  {
    hide ValidRequest, ValidResponse;
    StepGrows(s, a);
    var s' := Step(s, a);
    forall id | id in s'.calls
      ensures CallOk(s', id)
    {
      assert CallOk(s, id);
    }
  }

  // ----- the io thread

  /** Every frame at the head of the buffer is one that the server wrote. */
  lemma HeadKnown(s: State)
    requires WireOk(s) && s.connected && HasFrame(s.readBuf)
    ensures Known(s, FirstResponse(s.readBuf))
  {
    hide HasFrame, FirstResponse, AfterFirst, InFrames, Known;
    var c, r := Current(s), FirstResponse(s.readBuf);
    assert ConnOk(s, c);
    var arrived := Responses(c.toClient[..s.received]);
    assert r in Responses(s.readBuf);
    assert r in arrived;
    WrittenFrames(s, c, s.received);
  }

  /** Whatever has arrived of a connection's bytes holds only responses whose writing has begun. */
  lemma WrittenFrames(s: State, c: Conn, n: nat)
    requires ConnOk(s, c) && n <= |c.toClient|
    ensures Responses(c.toClient[..n]) <= Begun(c)
  {
    hide Responses, ResponseHeader, Known, Stream, InFrames, ValidResponse, ValidRequest, Begun;
    var all := Begun(c);
    forall k | 0 <= k < |all|
      ensures ValidResponse(all[k])
    {
      assert all[k] in all;
      KnownValid(s, all[k]);
    }
    StreamRoundTrip(all);
    BegunStream(c);
    ArrivedPrefix(Stream(all), n);
    assert c.toClient[..n] == Stream(all)[..n];
  }

  lemma KnownValid(s: State, r: Response)
    ensures Known(s, r) ==> ValidResponse(r)
  {}

  lemma BegunStream(c: Conn)
    requires InFrames(c)
    ensures c.toClient <= Stream(Begun(c))
  {
    hide ResponseHeader;
    if c.writer.HeaderWritten? {
      var r := c.writer.r;
      assert Begun(c)[..|Begun(c)| - 1] == c.written;
      assert Stream(Begun(c)) == Stream(c.written) + ResponseFrame(r);
      assert Stream(Begun(c)) == c.toClient + r.data;
    }
  }

  lemma TakeStep(s: State, a: Action)
    requires Inv(s) && Enabled(s, a) && a.TakeFrame?
    ensures Inv(Step(s, a))
  {
    hide ValidRequest, ValidResponse, HasFrame, FirstResponse, AfterFirst, InFrames;
    HeadKnown(s);
    StepGrows(s, a);
    var s' := Step(s, a);
    forall id | id in s'.calls
      ensures CallOk(s', id)
    {
      assert CallOk(s, id);
    }
    forall i | 0 <= i < |s'.conns|
      ensures ConnOk(s', s'.conns[i])
    {
      ConnGrows(s, s', s.conns[i]);
    }
    TakenMore(s.taken, s.readBuf);
  }

  lemma TakenMore(taken: seq<Response>, b: seq<byte>)
    requires HasFrame(b)
    ensures (taken + [FirstResponse(b)]) + Responses(AfterFirst(b)) == taken + Responses(b)
    ensures Remnant(AfterFirst(b)) == Remnant(b)
  {
    hide HasFrame, FirstResponse, AfterFirst;
  }

  lemma DeliverStep(s: State, a: Action)
    requires Inv(s) && Enabled(s, a) && a.Deliver?
    ensures Inv(Step(s, a))
  {
    hide ValidRequest, ValidResponse, Responses, Remnant, InFrames;
    StepGrows(s, a);
    var s' := Step(s, a);
    forall id | id in s'.calls
      ensures CallOk(s', id)
    {
      assert CallOk(s, id);
    }
    forall i | 0 <= i < |s'.conns|
      ensures ConnOk(s', s'.conns[i])
    {
      ConnGrows(s, s', s.conns[i]);
    }
  }

  /** The steps that leave the calls alone. */
  predicate OffCalls(a: Action) {
    a.Reconnect? || a.RunWrite? || a.RunSwap? || a.Close? || a.Receive? || a.ReadRequest? || a.Answers? || a.WriteHeader? || a.WriteData? || a.Break?
  }

  lemma OffCallsStep(s: State, a: Action)
    requires CallsOk(s) && Enabled(s, a) && OffCalls(a)
    ensures CallsOk(Step(s, a))
  {
    StepGrows(s, a);
    SameCalls(s, a);
    CallsStay(s, Step(s, a));
  }

  lemma SameCalls(s: State, a: Action)
    requires Enabled(s, a) && OffCalls(a)
    ensures var s' := Step(s, a);
      && s'.calls == s.calls && s'.pending == s.pending && s'.lock == s.lock && s'.reader == s.reader && s'.nextId == s.nextId
      && forall k :: 0 <= k < |s'.queue| ==> s'.queue[k] == Swap || s'.queue[k] in s.queue
  {
    hide ValidRequest, ValidResponse, Responses, Requests, ResponseHeader, HasFrame;
  }

  lemma CallsStay(s: State, s': State)
    requires CallsOk(s) && Grows(s, s')
    requires s'.calls == s.calls && s'.pending == s.pending && s'.lock == s.lock && s'.reader == s.reader && s'.nextId == s.nextId
    requires forall k :: 0 <= k < |s'.queue| ==> s'.queue[k] == Swap || s'.queue[k] in s.queue
    ensures CallsOk(s')
  {
    hide ValidRequest, ValidResponse, CallOk;
    forall id | id in s'.calls
      ensures CallOk(s', id)
    {
      CallGrows(s, s', id);
    }
  }

  // ----- the wire

  /** Steps that leave the connections and the reader's buffer alone. */
  lemma WireGrows(s: State, s': State)
    requires WireOk(s) && Grows(s, s') && s'.conns == s.conns && (s'.connected ==> s.connected)
    requires s'.readBuf == s.readBuf && s'.received == s.received && s'.taken == s.taken
    ensures WireOk(s')
  {
    hide ConnOk, Responses, Remnant, Grows;
    forall i | 0 <= i < |s'.conns|
      ensures ConnOk(s', s'.conns[i])
    {
      ConnGrows(s, s', s.conns[i]);
    }
  }

  lemma ReceiveStep(s: State, a: Action)
    requires WireOk(s) && Enabled(s, a) && a.Receive?
    ensures WireOk(Step(s, a))
  {
    hide ConnOk, Responses, Remnant;
    var s', all := Step(s, a), Current(s).toClient;
    var old', more := all[..s.received], all[s.received..s.received + a.n];
    assert all[..s.received + a.n] == old' + more;
    ChunkIndependence(old', more);
    ChunkIndependence(s.readBuf, more);
    RemnantOnce(old');
    assert Grows(s, s');
    forall i | 0 <= i < |s'.conns|
      ensures ConnOk(s', s'.conns[i])
    {
      ConnGrows(s, s', s.conns[i]);
    }
  }

  /** The remnant holds no frame. */
  lemma {:induction false} RemnantOnce(b: seq<byte>)
    ensures Responses(Remnant(b)) == [] && Remnant(Remnant(b)) == Remnant(b)
    decreases |b|
  {
    if HasFrame(b) {
      RemnantOnce(AfterFirst(b));
    }
  }

  /** Only one connection changes, and what it has written stays. */
  lemma OneConn(s: State, s': State, c: nat)
    requires WireOk(s) && Grows(s, s') && c < |s.conns| == |s'.conns|
    requires forall i :: 0 <= i < |s.conns| && i != c ==> s'.conns[i] == s.conns[i]
    requires s.conns[c].toClient <= s'.conns[c].toClient && ConnOk(s', s'.conns[c])
    requires s'.connected == s.connected && s'.readBuf == s.readBuf && s'.received == s.received && s'.taken == s.taken
    ensures WireOk(s')
  {
    hide ConnOk, Responses, Remnant, Grows;
    forall i | 0 <= i < |s'.conns|
      ensures ConnOk(s', s'.conns[i])
    {
      if i != c {
        ConnGrows(s, s', s.conns[i]);
      }
    }
    if s.connected {
      assert Current(s).toClient[..s.received] == Current(s')
        .toClient[..s.received];
    }
  }

  lemma WriteStep(s: State, a: Action)
    requires Inv(s) && Enabled(s, a) && a.RunWrite?
    ensures WireOk(Step(s, a))
  {
    hide ValidRequest, ValidResponse, Responses, Remnant, Stream, ResponseHeader, Known;
    StepGrows(s, a);
    var s' := Step(s, a);
    assert CallOk(s, s.queue[0].id);
    if s.connected {
      var c := |s.conns| - 1;
      ConnGrows(s, s', s.conns[c]);
      OneConn(s, s', c);
    } else {
      WireGrows(s, s');
    }
  }

  lemma SwapStep(s: State, a: Action)
    requires WireOk(s) && CallsOk(s) && Enabled(s, a) && a.RunSwap?
    ensures WireOk(Step(s, a))
  {
    hide ValidRequest, ValidResponse;
    StepGrows(s, a);
    var s' := Step(s, a);
    forall i | 0 <= i < |s'.conns|
      ensures ConnOk(s', s'.conns[i])
    {
      if i < |s.conns| {
        ConnGrows(s, s', s.conns[i]);
      }
    }
  }

  /** The frame reader of the core. */
  lemma ReadStep(s: State, a: Action)
    requires Inv(s) && Enabled(s, a) && a.ReadRequest?
    ensures WireOk(Step(s, a))
  {
    hide ValidRequest, Responses, Remnant, Requests, RequestStream, Stream, ResponseHeader;
    StepGrows(s, a);
    var s', conn := Step(s, a), s.conns[a.c];
    ConnGrows(s, s', conn);
    RequestPrefix(conn.sent, a.n);
    assert Requests(RequestStream(conn.sent)[..a.n])[conn.seen] in conn.sent;
    OneConn(s, s', a.c);
  }

  /** A handler of the core. */
  lemma HandlerStep(s: State, a: Action)
    requires Inv(s) && Enabled(s, a) && a.Answers?
    ensures WireOk(Step(s, a))
  {
    hide ValidRequest, Responses, Remnant, Requests, RequestStream, Stream, ResponseHeader;
    StepGrows(s, a);
    var s', conn := Step(s, a), s.conns[a.c];
    ConnGrows(s, s', conn);
    OneConn(s, s', a.c);
  }

  lemma BreakStep(s: State, a: Action)
    requires Inv(s) && Enabled(s, a) && a.Break?
    ensures WireOk(Step(s, a))
  {
    hide ValidRequest, Responses, Remnant, Requests, RequestStream, Stream, ResponseHeader, Known;
    StepGrows(s, a);
    var s', conn := Step(s, a), s.conns[a.c];
    ConnGrows(s, s', conn);
    OneConn(s, s', a.c);
  }

  /** The two writes of writeResponse. */
  lemma HeaderStep(s: State, a: Action)
    requires Inv(s) && Enabled(s, a) && a.WriteHeader?
    ensures WireOk(Step(s, a))
  {
    hide ConnOk, ReadOk, CallsOk;
    StepGrows(s, a);
    var s', conn := Step(s, a), s.conns[a.c];
    ConnGrows(s, s', conn);
    HeaderKeeps(s', conn, a.r);
    OneConn(s, s', a.c);
  }

  lemma HeaderKeeps(s: State, conn: Conn, r: Response)
    requires ConnOk(s, conn) && conn.writer.NoWriter? && r in conn.ready
    ensures ConnOk(s, conn.(ready := conn.ready - {r}, writer := HeaderWritten(r),
                            toClient := conn.toClient + ResponseHeader(r.id, r.status, |r.data|)))
  {
    hide Known, ResponseHeader, ValidRequest, Stream;
    assert Stream(conn.written) + [] == Stream(conn.written);
  }

  lemma DataStep(s: State, a: Action)
    requires Inv(s) && Enabled(s, a) && a.WriteData?
    ensures WireOk(Step(s, a))
  {
    hide ConnOk, ReadOk, CallsOk;
    StepGrows(s, a);
    var s', conn := Step(s, a), s.conns[a.c];
    ConnGrows(s, s', conn);
    DataKeeps(s', conn);
    OneConn(s, s', a.c);
  }

  lemma DataKeeps(s: State, conn: Conn)
    requires ConnOk(s, conn) && conn.writer.HeaderWritten?
    ensures ConnOk(s, conn.(writer := NoWriter, written := conn.written + [conn.writer.r], toClient := conn.toClient + conn.writer.r.data))
  {
    hide Known, ResponseHeader, ValidRequest;
    var r := conn.writer.r;
    assert (conn.written + [r])[..|conn.written|] == conn.written;
    assert conn.toClient + r.data == Stream(conn.written) + ResponseFrame(r);
  }

  // ----- every run

  /** Every step of every thread keeps the invariant. */
  lemma StepKeeps(s: State, a: Action)
    requires Inv(s) && Enabled(s, a)
    ensures Inv(Step(s, a))
  {
    if a.TakeFrame? {
      TakeStep(s, a);
    } else if a.Deliver? {
      DeliverStep(s, a);
    } else if OffCalls(a) {
      OffCallsStep(s, a);
      OffCallsWire(s, a);
    } else {
      OnCallsStep(s, a);
      StepGrows(s, a);
      OnCallsWire(s, a);
    }
  }

  lemma OnCallsStep(s: State, a: Action)
    requires CallsOk(s) && Enabled(s, a) && !OffCalls(a) && !a.TakeFrame? && !a.Deliver?
    ensures CallsOk(Step(s, a))
  {
    hide CallsOk, Step, Enabled;
    if a.Begin? {
      BeginStep(s, a);
    } else if a.Register? {
      RegisterStep(s, a);
    } else if a.Dispatch? {
      DispatchStep(s, a);
    } else if a.Reclaim? {
      ReclaimStep(s, a);
    } else if a.Return? {
      ReturnStep(s, a);
    } else if a.WakeOne? {
      WakeStep(s, a);
    } else if a.LockAll? || a.UnlockAll? {
      LockStep(s, a);
    } else {
      MoveStep(s, a);
    }
  }

  lemma OnCallsWire(s: State, a: Action)
    requires WireOk(s) && Enabled(s, a) && !OffCalls(a) && !a.TakeFrame? && !a.Deliver? && Grows(s, Step(s, a))
    ensures WireOk(Step(s, a))
  {
    hide WireOk, Grows;
    WireGrows(s, Step(s, a));
  }

  lemma OffCallsWire(s: State, a: Action)
    requires Inv(s) && Enabled(s, a) && OffCalls(a)
    ensures WireOk(Step(s, a))
  {
    hide CallsOk, WireOk, Grows;
    if a.Receive? {
      ReceiveStep(s, a);
    } else if a.RunWrite? {
      WriteStep(s, a);
    } else if a.RunSwap? {
      SwapStep(s, a);
    } else if a.WriteHeader? {
      HeaderStep(s, a);
    } else if a.WriteData? {
      DataStep(s, a);
    } else if a.ReadRequest? {
      ReadStep(s, a);
    } else if a.Answers? {
      HandlerStep(s, a);
    } else if a.Break? {
      BreakStep(s, a);
    } else {
      StepGrows(s, a);
      WireGrows(s, Step(s, a));
    }
  }

  lemma InitialOk()
    ensures Inv(Initial())
  {}

  lemma {:induction false} RunKeeps(s: State, run: seq<Action>)
    requires Inv(s) && Possible(s, run)
    ensures Inv(After(s, run))
    decreases |run|
  {
    hide Inv, Enabled, Step;
    if run != [] {
      StepKeeps(s, run[0]);
      RunKeeps(Step(s, run[0]), run[1..]);
    }
  }

  /** On every run of callers, io thread, reconnects and core, for every call: it is completed at most
      once; if it returns success, its data is what a handler answered with status 0 to the very
      request, method and payload, that it made; and once it has returned, its id is not in pending
      while nobody holds pending_mu. */
  lemma ChannelSafe(run: seq<Action>, id: nat)
    requires Possible(Initial(), run) && id in After(Initial(), run).calls
    ensures var s := After(Initial(), run);
      var c := s.calls[id];
      && c.completions <= 1
      && (c.stage.Returned? && c.stage.success ==>
          Answer(Request(id, c.name, c.payload), Response(id, 0, c.stage.rsp)) in s.answers)
      && (c.stage.Returned? && s.lock.Free? ==> id !in s.pending)
  {
    hide Possible, After, ValidRequest;
    InitialOk();
    RunKeeps(Initial(), run);
    assert CallOk(After(Initial(), run), id);
  }

  /** However the bytes of a connection are cut up on their way, the reader takes a prefix of the
      responses that the core has begun to write, in that order. */
  lemma ReaderInOrder(run: seq<Action>)
    requires Possible(Initial(), run) && After(Initial(), run).connected
    ensures var s := After(Initial(), run); s.conns != [] && s.taken <= Begun(Current(s))
  {
    hide Possible, After, Responses, Remnant, InFrames, CallsOk;
    InitialOk();
    RunKeeps(Initial(), run);
    var s := After(Initial(), run);
    WrittenFrames(s, Current(s), s.received);
  }

  /** While wakeAllWithError is still at work, a call that it has woken can return before its id leaves
      pending. */
  lemma ReturnsEarly() returns (run: seq<Action>)
    ensures Possible(Initial(), run)
    ensures var s := After(Initial(), run); AtStage(s, 1, Returned(false, [])) && 1 in s.pending
  {
    hide Possible, After, Step, Enabled;
    run := [Begin([], []), Register(1), Dispatch(1)] + [LockAll, WakeOne(1), Awake(1), Return(1)];
    var s3 := OneCallWaiting();
    var s7 := WokenCallReturns(s3);
    assert run[3..] == [LockAll, WakeOne(1), Awake(1), Return(1)];
    assert run[..3] == [Begin([], []), Register(1), Dispatch(1)];
    RunsJoin(Initial(), run[..3], run[3..]);
    assert run == run[..3] + run[3..];
  }

  /** The first call has been sent. */
  lemma OneCallWaiting() returns (s: State)
    ensures Possible(Initial(), [Begin([], []), Register(1), Dispatch(1)])
    ensures s == After(Initial(), [Begin([], []), Register(1), Dispatch(1)])
    ensures s.lock.Free? && s.pending == {1} && s.calls == map[1 := Call([], [], Waiting, false, 1, [], 0)]
  {
    var a := [Begin([], []), Register(1), Dispatch(1)];
    var s1 := Step(Initial(), a[0]);
    var s2 := Step(s1, a[1]);
    s := Step(s2, a[2]);
    assert a[2..] == [a[2]] && a[1..] == [a[1]] + a[2..] && a == [a[0]] + a[1..];
    OneAction(s2, a[2..]);
    OneAction(s1, a[1..]);
    OneAction(Initial(), a);
  }

  /** The only call returns while wakeAllWithError has not cleared pending yet. */
  lemma WokenCallReturns(s: State) returns (s': State)
    requires s.lock.Free? && s.pending == {1} && s.calls == map[1 := Call([], [], Waiting, false, 1, [], 0)]
    ensures Possible(s, [LockAll, WakeOne(1), Awake(1), Return(1)])
    ensures s' == After(s, [LockAll, WakeOne(1), Awake(1), Return(1)])
    ensures AtStage(s', 1, Returned(false, [])) && 1 in s'.pending
  {
    var a := [LockAll, WakeOne(1), Awake(1), Return(1)];
    var s1 := Step(s, a[0]);
    var s2 := Step(s1, a[1]);
    var s3 := Step(s2, a[2]);
    s' := Step(s3, a[3]);
    assert a[3..] == [a[3]] && a[2..] == [a[2]] + a[3..] && a[1..] == [a[1]] + a[2..] && a == [a[0]] + a[1..];
    OneAction(s3, a[3..]);
    OneAction(s2, a[2..]);
    OneAction(s1, a[1..]);
    OneAction(s, a);
  }

  lemma {:induction false} RunsJoin(s: State, a: seq<Action>, b: seq<Action>)
    requires Possible(s, a) && Possible(After(s, a), b)
    ensures Possible(s, a + b) && After(s, a + b) == After(After(s, a), b)
    decreases |a|
  {
    hide Step, Enabled;
    if a == [] {
      assert a + b == b;
    } else {
      assert (a + b)[1..] == a[1..] + b;
      RunsJoin(Step(s, a[0]), a[1..], b);
    }
  }

  lemma OneAction(s: State, run: seq<Action>)
    requires run != [] && Enabled(s, run[0])
    ensures Possible(s, run) == Possible(Step(s, run[0]), run[1..])
    ensures Possible(s, run) ==> After(s, run) == After(Step(s, run[0]), run[1..])
  {}
}
