/**
  One trace sink: StreamingTraceBase (streaming_trace_base.cpp) over StreamingTraceUSB
  (streaming_trace_usb.cpp).  Each function below is one stretch of code that runs with m_lock held;
  `TraceSystem` interleaves them.
 */
module TraceSink {
  import opened Wire
  import opened UsbDevice

  const TYPE_NONE := 0
  const TYPE_EVENT := 1
  const TYPE_ERROR := 2
  const TYPE_DATA := 3

  const SINK_NOT_ATTACHED := 0x0207
  const SINK_NOT_STARTED := 0x0208

  datatype SinkStatus = DETACHED | ATTACHED | ACTIVE

  /** A token with a label, which the code never reads, for the kind of buffer it was given to. */
  datatype Ticket = Ticket(token: nat, data: bool)
  datatype Buf = Buf(ticket: Ticket, memory: nat)

  /** The type and used fields of a client's buffer. */
  datatype Content = Content(kind: int, used: nat)

  /** A condition variable with at most one waiter. */
  datatype Cond = NoWaiter | Waiter(notified: bool)

  function Notify(c: Cond): Cond {
    if c.Waiter? then Waiter(true) else NoWaiter
  }

  datatype Sink = Sink(status: SinkStatus, queued: seq<Buf>, pending: seq<Buf>, events: seq<Buf>,
                       completed: seq<Ticket>, nextToken: nat, pendingCond: Cond, completedCond: Cond,
                       tokens: seq<nat>, usb: Usb, contents: map<nat, Content>)

  /** Fixed when the sink is attached: dataBufferCount and dataBufferSize, the sink's endpoint
      (transportID) and the device's endpoint table. */
  datatype Setup = Setup(limit: nat, size: nat, endpoint: byte, endpoints: seq<Endpoint>)

  /** Assumptions on the device: the sink has a usable bulk endpoint, and as many buffers as
      discoverSinks takes from asyncTransferCount. */
  ghost predicate Suitable(d: Setup) {
    d.limit <= MAX_IN_FLIGHT && Usable(d.endpoints, d.endpoint, 128, d.size)
  }

  /** `Raised` is an exception of the USB layer. */
  datatype Reply = Token(token: nat) | Refused(code: int) | Raised

  // ---------------------------------------------------------------- locked regions

  /** One round of submitBuffers: the front queued buffer goes to the device, which accepts it. */
  function SubmitOne(s: Sink, d: Setup): Sink
    requires s.queued != []
  {
    var b := s.queued[0];
    s.(usb := Submit(s.usb, d.endpoints, d.endpoint, 128, b.memory, d.size, true),
       tokens := s.tokens + [s.usb.nextToken],
       queued := s.queued[1..], pending := s.pending + [b], pendingCond := Notify(s.pendingCond))
  }

  function SubmitAll(s: Sink, d: Setup): Sink
    decreases |s.queued|
  {
    if |s.pending| < d.limit && s.queued != [] then SubmitAll(SubmitOne(s, d), d) else s
  }

  function SubmitIfActive(s: Sink, d: Setup): Sink {
    if s.status == ACTIVE then SubmitAll(s, d) else s
  }

  /** SubmitEventBuffer.  A bad type is noticed only after the token is spent. */
  function SubmitEvent(s: Sink, d: Setup, kind: int, memory: nat): (Sink, Reply) {
    if s.status == DETACHED then (s, Refused(SINK_NOT_ATTACHED))
    else
      var b := Buf(Ticket(s.nextToken, kind == TYPE_DATA), memory);
      var v := s.(nextToken := s.nextToken + 1, contents := s.contents[memory := Content(TYPE_NONE, 0)]);
      if kind == TYPE_DATA then (SubmitIfActive(v.(queued := v.queued + [b]), d), Token(b.ticket.token))
      else if kind == TYPE_EVENT then (v.(events := v.events + [b]), Token(b.ticket.token))
      else (v, Refused(TYPE_ERROR))
  }

  /** Start.  `accepted` is the device's answer to the start request; when it refuses, the exception
      leaves the sink active with its buffers submitted. */
  function Start(s: Sink, d: Setup, accepted: bool): (Sink, Reply) {
    if s.status == DETACHED then (s, Refused(SINK_NOT_ATTACHED))
    else (SubmitAll(s.(status := ACTIVE), d), if accepted then Token(0) else Raised)
  }

  /** The loop of Stop: every event buffer comes back empty. */
  function ReturnEvents(s: Sink): Sink
    decreases |s.events|
  {
    if s.events == [] then s
    else ReturnEvents(s.(contents := s.contents[s.events[0].memory := Content(TYPE_NONE, 0)],
                         completed := s.completed + [s.events[0].ticket], events := s.events[1..]))
  }

  function Stop(s: Sink): (Sink, Reply) {
    if s.status != ACTIVE then (s, Refused(SINK_NOT_STARTED))
    else
      var v := ReturnEvents(s.(status := ATTACHED, usb := Cancel(s.usb)));
      (if v.completed == [] then v else v.(completedCond := Notify(v.completedCond)), Token(0))
  }

  function UsedOf(contents: map<nat, Content>, memory: nat): nat {
    if memory in contents then contents[memory].used else 0
  }

  /** doSendStateEvent: note that `used` keeps the 0 it got on submission. */
  function StateEvent(s: Sink, kind: int): Sink {
    if s.events == [] then s
    else
      var b := s.events[0];
      s.(contents := s.contents[b.memory := Content(kind, UsedOf(s.contents, b.memory))],
         events := s.events[1..], completed := s.completed + [b.ticket], completedCond := Notify(s.completedCond))
  }

  /** What a finished transfer leaves in its buffer. */
  function Landed(t: Transfer): Content {
    match t.status
    case SUCCEEDED => Content(TYPE_DATA, t.used)
    case CANCELLED => Content(TYPE_DATA, 0)
    case FAILED => Content(TYPE_ERROR, 0)
  }

  /** The rest of waitForBuffer once the lock is back.  `b` is the buffer it was called for.  Reading
      the front of an empty token queue is undefined; `TraceSystem` shows that it does not happen. */
  function Absorb(s: Sink, b: Buf, taken: Taken): (Sink, bool) {
    if taken.None? || s.tokens == [] || taken.transfer.token != s.tokens[0] then (s, false)
    else (s.(tokens := s.tokens[1..], contents := s.contents[b.memory := Landed(taken.transfer)]), true)
  }

  /** The rest of WaitForDataEvent after waitForBuffer. */
  function Deliver(s: Sink, d: Setup, b: Buf, taken: Taken): Sink {
    var (v, got) := Absorb(s, b, taken);
    if !got || v.pending == [] then v
    else
      var w := SubmitIfActive(v.(pending := v.pending[1..]), d);
      w.(completed := w.completed + [b.ticket], completedCond := Notify(w.completedCond))
  }

  /** One round of Detach's drain loop after waitForBuffer; false ends the loop. */
  function Drain(s: Sink, b: Buf, taken: Taken): (Sink, bool) {
    var (v, got) := Absorb(s, b, taken);
    if !got || v.pending == [] then (v, false) else (v.(pending := v.pending[1..]), true)
  }

  function Close(s: Sink): Sink {
    s.(queued := [], pending := [], events := [])
  }

  function Outstanding(u: Usb): int {
    |u.queued| + u.count + |u.completed|
  }

  // ---------------------------------------------------------------- what every region keeps

  /** With one endpoint in use and never more than the cap in flight, nothing is ever queued. */
  ghost predicate Direct(u: Usb, endpoint: byte) {
    && u.queued == []
    && u.flights.Keys <= {endpoint}
    && u.count == |Flight(u.flights, endpoint)|
    && (u.flag ==> u.waiting && u.completed != [])
  }

  function Held(taken: Taken): seq<Transfer> {
    if taken.Some? then [taken.transfer] else []
  }

  /** What the device owes: what completeTransfer has just returned, what has completed, what is in
      flight, oldest first. */
  function Owed(u: Usb, endpoint: byte, taken: Taken): seq<Transfer> {
    Held(taken) + u.completed + Flight(u.flights, endpoint)
  }

  /** Lock-step: token by token the USB layer waits for the transfers of the pending buffers. */
  ghost predicate Paired(pending: seq<Buf>, tokens: seq<nat>, owed: seq<Transfer>) {
    && |pending| == |tokens| == |owed|
    && forall i :: 0 <= i < |tokens| ==> tokens[i] == owed[i].token && pending[i].memory == owed[i].memory
  }

  ghost predicate Rising(tokens: seq<nat>, next: nat) {
    && (forall i, j :: 0 <= i < j < |tokens| ==> tokens[i] < tokens[j])
    && (tokens != [] ==> tokens[|tokens| - 1] < next)
  }

  ghost predicate Linked(s: Sink, d: Setup, taken: Taken) {
    && Direct(s.usb, d.endpoint)
    && Paired(s.pending, s.tokens, Owed(s.usb, d.endpoint, taken))
    && Rising(s.tokens, s.usb.nextToken)
    && |s.pending| <= d.limit
  }

  /** No lost wake-up: nobody sleeps through what it is waiting for. */
  ghost predicate Awake(s: Sink) {
    && (s.pendingCond == Waiter(false) ==> s.pending == [] && s.status != DETACHED)
    && (s.completedCond == Waiter(false) ==> s.completed == [])
  }

  /** Work conservation: a started sink never sits on a buffer it could hand over. */
  ghost predicate Busy(s: Sink, d: Setup) {
    s.status == ACTIVE ==> |s.pending| == d.limit || s.queued == []
  }

  // ---------------------------------------------------------------- submitting

  lemma SubmitStep(u: Usb, d: Setup, memory: nat, taken: Taken)
    requires Suitable(d) && Direct(u, d.endpoint) && |Flight(u.flights, d.endpoint)| < MAX_IN_FLIGHT
    ensures var v := Submit(u, d.endpoints, d.endpoint, 128, memory, d.size, true);
      var t := Transfer(u.nextToken, d.endpoint, memory, SUCCEEDED, 0);
      && Direct(v, d.endpoint) && v.nextToken == u.nextToken + 1
      && v.completed == u.completed && v.waiting == u.waiting && v.flag == u.flag && v.asked == u.asked
      && Owed(v, d.endpoint, taken) == Owed(u, d.endpoint, taken) + [t]
  {
    hide Usable;
    var v := Submit(u, d.endpoints, d.endpoint, 128, memory, d.size, true);
    var q := Flight(u.flights, d.endpoint);
    assert Flight(v.flights, d.endpoint) == q + [Transfer(u.nextToken, d.endpoint, memory, SUCCEEDED, 0)];
  }

  lemma PairedLonger(pending: seq<Buf>, tokens: seq<nat>, owed: seq<Transfer>, b: Buf, t: Transfer)
    requires Paired(pending, tokens, owed) && t.memory == b.memory
    ensures Paired(pending + [b], tokens + [t.token], owed + [t])
  {}

  lemma SubmitOneKeeps(s: Sink, d: Setup, taken: Taken)
    requires Suitable(d) && Linked(s, d, taken) && s.queued != [] && |s.pending| < d.limit
    ensures var v := SubmitOne(s, d);
      && Linked(v, d, taken) && v.pending + v.queued == s.pending + s.queued && s.pending <= v.pending
      && v.usb.asked == s.usb.asked && v.usb.waiting == s.usb.waiting && v.usb.flag == s.usb.flag
      && v.usb.completed == s.usb.completed && v.pendingCond != Waiter(false)
  {
    hide Usable, Submit, Direct;
    assert |Flight(s.usb.flights, d.endpoint)| < MAX_IN_FLIGHT;
    SubmitStep(s.usb, d, s.queued[0].memory, taken);
    PairedLonger(s.pending, s.tokens, Owed(s.usb, d.endpoint, taken), s.queued[0],
                 Transfer(s.usb.nextToken, d.endpoint, s.queued[0].memory, SUCCEEDED, 0));
  }

  /** What submitBuffers leaves alone. */
  ghost predicate OnlySubmits(s: Sink, v: Sink) {
    && v.status == s.status && v.events == s.events && v.completed == s.completed && v.nextToken == s.nextToken
    && v.completedCond == s.completedCond && v.contents == s.contents
    && v.usb.asked == s.usb.asked && v.usb.waiting == s.usb.waiting && v.usb.flag == s.usb.flag
    && v.usb.completed == s.usb.completed
    && v.pending + v.queued == s.pending + s.queued && s.pending <= v.pending
    && (v.pendingCond.Waiter? <==> s.pendingCond.Waiter?)
    && (v.pendingCond == Waiter(false) ==> s.pendingCond == Waiter(false) && v.pending == s.pending)
  }

  /** submitBuffers fills the device up to the limit, or empties the queue, and wakes the data
      thread if it added anything. */
  lemma {:induction false} SubmitAllKeeps(s: Sink, d: Setup, taken: Taken)
    requires Suitable(d) && Linked(s, d, taken)
    ensures var v := SubmitAll(s, d);
      Linked(v, d, taken) && OnlySubmits(s, v) && (|v.pending| == d.limit || v.queued == [])
    decreases |s.queued|
  {
    if d.limit <= |s.pending| || s.queued == [] {
    } else {
      SubmitOneKeeps(s, d, taken);
      hide Linked, Suitable;
      SubmitAllKeeps(SubmitOne(s, d), d, taken);
    }
  }

  lemma SubmitIfActiveKeeps(s: Sink, d: Setup, taken: Taken)
    requires Suitable(d) && Linked(s, d, taken)
    ensures var v := SubmitIfActive(s, d); Linked(v, d, taken) && OnlySubmits(s, v) && Busy(v, d)
  {
    SubmitAllKeeps(s, d, taken);
  }

  // ---------------------------------------------------------------- the device

  lemma LastAtFront(q: seq<Transfer>)
    requires q != [] && forall i, j :: 0 <= i < j < |q| ==> q[i].token < q[j].token
    ensures LastAt(q, q[0].token) == 0
  {
    assert forall i :: 0 < i < |q| ==> q[0].token < q[i].token;
  }

  /** The callback for the front transfer, spelled out. */
  lemma CallbackFront(u: Usb, endpoint: byte, status: Status, used: nat, lucky: nat)
    requires u.queued == []
    requires var q := Flight(u.flights, endpoint); q != [] && LastAt(q, q[0].token) == 0
    ensures var q := Flight(u.flights, endpoint);
      Callback(u, q[0].token, endpoint, status, used, lucky)
        == u.(completed := u.completed + [q[0].(status := status, used := used)],
              flights := u.flights[endpoint := q[1..]], count := u.count - 1, flag := true)
  {
    var q := Flight(u.flights, endpoint);
    hide LastAt;
    assert q[..0] + q[0 + 1..] == q[1..];
  }

  lemma OwedFront(held: seq<Transfer>, completed: seq<Transfer>, q: seq<Transfer>, t: Transfer)
    requires q != []
    ensures held + (completed + [t]) + q[1..] == (held + completed + q)[|held| + |completed| := t]
  {}

  lemma FlightRises(s: Sink, d: Setup, taken: Taken)
    requires Linked(s, d, taken)
    ensures var q := Flight(s.usb.flights, d.endpoint);
      forall i, j :: 0 <= i < j < |q| ==> q[i].token < q[j].token
  {
    var q := Flight(s.usb.flights, d.endpoint);
    var at := |Held(taken)| + |s.usb.completed|;
    var owed := Owed(s.usb, d.endpoint, taken);
    hide Direct;
    forall i, j | 0 <= i < j < |q| ensures q[i].token < q[j].token {
      assert q[i] == owed[at + i] && q[j] == owed[at + j];
      assert s.tokens[at + i] < s.tokens[at + j];
    }
  }

  /** libusb completes the oldest transfer: it moves from flight to completed, nothing else moves. */
  lemma DeviceStep(s: Sink, d: Setup, taken: Taken, status: Status, used: nat, lucky: nat)
    requires Linked(s, d, taken) && s.usb.waiting && Flight(s.usb.flights, d.endpoint) != []
    ensures var q := Flight(s.usb.flights, d.endpoint);
      var v := Callback(s.usb, q[0].token, d.endpoint, status, used, lucky);
      && Linked(s.(usb := v), d, taken) && v.waiting && v.asked == s.usb.asked && v.flag
      && Flight(v.flights, d.endpoint) == q[1..]
      && v.completed == s.usb.completed + [q[0].(status := status, used := used)]
  {
    var q := Flight(s.usb.flights, d.endpoint);
    FlightRises(s, d, taken);
    LastAtFront(q);
    hide LastAt, Callback, Flight;
    CallbackFront(s.usb, d.endpoint, status, used, lucky);
    OwedFront(Held(taken), s.usb.completed, q, q[0].(status := status, used := used));
  }

  lemma CancelStep(s: Sink, d: Setup, taken: Taken)
    requires Linked(s, d, taken)
    ensures Cancel(s.usb) == s.usb.(asked := s.usb.asked + AllTokens(s.usb.flights))
    ensures Linked(s.(usb := Cancel(s.usb)), d, taken)
    ensures forall t <- Flight(s.usb.flights, d.endpoint) :: t.token in Cancel(s.usb).asked
  {
    assert s.usb.completed + [] == s.usb.completed;
    assert AllCancelled(s.usb.queued) == [];
  }

  /** completeTransfer returns the oldest transfer: it goes from completed to the caller's hand. */
  lemma TakeStep(s: Sink, d: Setup)
    requires Linked(s, d, None) && !s.usb.flag
    ensures var (v, t) := TakeFront(s.usb);
      && Linked(s.(usb := v), d, t) && v.waiting == s.usb.waiting && v.asked == s.usb.asked && !v.flag
      && v.flights == s.usb.flights && (t.None? <==> s.usb.completed == [])
  {
    var (v, t) := TakeFront(s.usb);
    assert Owed(v, d.endpoint, t) == Owed(s.usb, d.endpoint, None);
  }

  /** The transfer in hand is the one the front token waits for, and it filled the front buffer. */
  lemma AbsorbStep(s: Sink, d: Setup, t: Transfer)
    requires Linked(s, d, Some(t))
    ensures s.pending != [] && s.tokens != [] && s.tokens[0] == t.token && t.memory == s.pending[0].memory
    ensures var (v, got) := Absorb(s, s.pending[0], Some(t));
      && got
      && v == s.(tokens := s.tokens[1..],
                 contents := s.contents[t.memory := Content(if t.status == FAILED then TYPE_ERROR else TYPE_DATA,
                                                            if t.status == SUCCEEDED then t.used else 0)])
      && Linked(v.(pending := s.pending[1..]), d, None)
  {
    var owed := Owed(s.usb, d.endpoint, Some(t));
    assert owed[0] == t && owed[1..] == Owed(s.usb, d.endpoint, None);
  }

  /** One round of the drain loop pops the front buffer and goes on. */
  lemma DrainStep(s: Sink, d: Setup, t: Transfer)
    requires Linked(s, d, Some(t))
    ensures s.pending != []
    ensures var (v, more) := Drain(s, s.pending[0], Some(t));
      && more
      && v == s.(tokens := s.tokens[1..], pending := s.pending[1..],
                 contents := s.contents[t.memory := Content(if t.status == FAILED then TYPE_ERROR else TYPE_DATA,
                                                            if t.status == SUCCEEDED then t.used else 0)])
      && Linked(v, d, None)
  {
    AbsorbStep(s, d, t);
    hide Absorb, Direct, Paired, Rising;
  }

  /** The data thread's last stretch: the front buffer completes, the next one is submitted. */
  lemma DeliverStep(s: Sink, d: Setup, t: Transfer)
    requires Suitable(d) && Linked(s, d, Some(t))
    ensures s.pending != []
    ensures var v := Deliver(s, d, s.pending[0], Some(t));
      && Linked(v, d, None) && Busy(v, d)
      && v.status == s.status && v.events == s.events && v.nextToken == s.nextToken
      && v.completed == s.completed + [s.pending[0].ticket] && v.completedCond == Notify(s.completedCond)
      && v.pending + v.queued == s.pending[1..] + s.queued
      && v.usb.waiting == s.usb.waiting && v.usb.flag == s.usb.flag && v.usb.completed == s.usb.completed
      && (v.pendingCond.Waiter? <==> s.pendingCond.Waiter?)
      && (v.pendingCond == Waiter(false) ==> s.pendingCond == Waiter(false) && v.pending == s.pending[1..])
  {
    AbsorbStep(s, d, t);
    var v := Absorb(s, s.pending[0], Some(t)).0.(pending := s.pending[1..]);
    SubmitIfActiveKeeps(v, d, None);
    hide Absorb, Direct, Paired, Rising, Suitable, SubmitIfActive;
  }

  // ---------------------------------------------------------------- what the client finds in its buffers

  ghost predicate OthersKept(was: map<nat, Content>, now: map<nat, Content>, memory: set<nat>) {
    && now.Keys == was.Keys + memory
    && forall m <- was :: m !in memory ==> now[m] == was[m]
  }

  /** An event leaves its kind in the oldest event buffer, empty if that was submitted empty, and touches no other;
      without an event buffer it is lost. */
  lemma EventInOldest(s: Sink, kind: int)
    ensures var v := StateEvent(s, kind);
      if s.events == [] then v == s
      else var m := s.events[0].memory;
           && OthersKept(s.contents, v.contents, {m})
           && v.contents[m].kind == kind && (m in s.contents ==> v.contents[m].used == s.contents[m].used)
           && v.events == s.events[1..] && v.completed == s.completed + [s.events[0].ticket]
           && v.completedCond != Waiter(false)
           && v.pending == s.pending && v.queued == s.queued && v.tokens == s.tokens && v.usb == s.usb
  {
  }

  function Memories(bs: seq<Buf>): set<nat> { set b <- bs :: b.memory }

  function Tickets(bs: seq<Buf>): seq<Ticket> {
    if bs == [] then [] else [bs[0].ticket] + Tickets(bs[1..])
  }

  /** Each of these buffers is of no type and empty, and no other has changed. */
  ghost predicate GivenBack(was: map<nat, Content>, now: map<nat, Content>, bs: seq<Buf>) {
    && OthersKept(was, now, Memories(bs))
    && forall b <- bs :: b.memory in now && now[b.memory] == Content(TYPE_NONE, 0)
  }

  lemma GivenFirst(was: map<nat, Content>, now: map<nat, Content>, bs: seq<Buf>)
    requires bs != [] && GivenBack(was[bs[0].memory := Content(TYPE_NONE, 0)], now, bs[1..])
    ensures GivenBack(was, now, bs)
  {
    var mid := was[bs[0].memory := Content(TYPE_NONE, 0)];
    assert Memories(bs) == {bs[0].memory} + Memories(bs[1..]) by { assert bs == [bs[0]] + bs[1..]; }
    forall b <- bs ensures b.memory in now && now[b.memory] == Content(TYPE_NONE, 0) {
      if b !in bs[1..] {
        assert b == bs[0];
        if b.memory in Memories(bs[1..]) {
          var c :| c in bs[1..] && c.memory == b.memory;
        } else {
          assert now[b.memory] == mid[b.memory];
        }
      }
    }
    forall m <- was | m !in Memories(bs) ensures now[m] == was[m] { assert now[m] == mid[m]; }
  }

  /** Stop gives every event buffer back, of no type and empty, in order, and touches no other buffer. */
  lemma {:induction false} EventsReturned(s: Sink)
    ensures var v := ReturnEvents(s);
      && v == s.(contents := v.contents, completed := s.completed + Tickets(s.events), events := [])
      && GivenBack(s.contents, v.contents, s.events)
    decreases |s.events|
  {
    if s.events == [] {
      assert s.completed + Tickets([]) == s.completed;
      assert Memories([]) == {};
    } else {
      var b := s.events[0];
      var v := s.(contents := s.contents[b.memory := Content(TYPE_NONE, 0)],
                  completed := s.completed + [b.ticket], events := s.events[1..]);
      hide GivenBack;
      EventsReturned(v);
      GivenFirst(s.contents, ReturnEvents(v).contents, s.events);
      assert s.completed + Tickets(s.events) == v.completed + Tickets(v.events);
    }
  }

  /** A buffer is refused while the sink is detached and nothing happens; otherwise it is emptied and a token is
      spent.  A good type puts it at the end of its queue under that token; a bad one is refused. */
  lemma BufferAccepted(s: Sink, d: Setup, kind: int, memory: nat)
    ensures var (v, r) := SubmitEvent(s, d, kind, memory);
      if s.status == DETACHED then v == s && r == Refused(SINK_NOT_ATTACHED)
      else
        var b := Buf(Ticket(s.nextToken, kind == TYPE_DATA), memory);
        && v.nextToken == s.nextToken + 1 && v.status == s.status && v.completed == s.completed
        && OthersKept(s.contents, v.contents, {memory}) && v.contents[memory] == Content(TYPE_NONE, 0)
        && v.pending + v.queued == s.pending + s.queued + (if kind == TYPE_DATA then [b] else [])
        && v.events == s.events + (if kind == TYPE_EVENT then [b] else [])
        && r == if kind == TYPE_DATA || kind == TYPE_EVENT then Token(s.nextToken) else Refused(TYPE_ERROR)
  {
    hide SubmitAll;
    var b := Buf(Ticket(s.nextToken, kind == TYPE_DATA), memory);
    var v := s.(nextToken := s.nextToken + 1, contents := s.contents[memory := Content(TYPE_NONE, 0)],
                queued := s.queued + [b]);
    SubmitAllMoves(v, d);
    assert s.pending + v.queued == s.pending + s.queued + [b];
    assert s.events + [] == s.events && s.pending + s.queued + [] == s.pending + s.queued;
  }

  /** submitBuffers moves buffers from the queue to the pending list, whatever the device does. */
  lemma {:induction false} SubmitAllMoves(s: Sink, d: Setup)
    ensures var v := SubmitAll(s, d);
      && v.pending + v.queued == s.pending + s.queued && s.pending <= v.pending
      && v.status == s.status && v.nextToken == s.nextToken && v.contents == s.contents
      && v.events == s.events && v.completed == s.completed && v.completedCond == s.completedCond
    decreases |s.queued|
  {
    hide Submit;
    if d.limit <= |s.pending| || s.queued == [] {
    } else {
      var v := SubmitOne(s, d);
      assert v.pending + v.queued == s.pending + s.queued;
      SubmitAllMoves(v, d);
    }
  }

  /** Start is refused exactly while detached, Stop exactly unless active, and nothing happens then; else the sink
      is active afterwards, or attached. */
  lemma StartedOrNot(s: Sink, d: Setup, accepted: bool)
    ensures var (v, r) := Start(s, d, accepted);
      && (r == Refused(SINK_NOT_ATTACHED) <==> s.status == DETACHED)
      && (s.status == DETACHED ==> v == s)
      && (s.status != DETACHED ==> v.status == ACTIVE && (r == Token(0) <==> accepted) && (r.Raised? <==> !accepted))
      && v.pending + v.queued == s.pending + s.queued && v.events == s.events && v.completed == s.completed
    ensures var (v, r) := Stop(s);
      && (r == Refused(SINK_NOT_STARTED) <==> s.status != ACTIVE)
      && (s.status != ACTIVE ==> v == s)
      && (s.status == ACTIVE ==> r == Token(0) && v.status == ATTACHED)
      && v.pending == s.pending && v.queued == s.queued
  {
    hide SubmitAll, ReturnEvents, Cancel, GivenBack;
    SubmitAllMoves(s.(status := ACTIVE), d);
    EventsReturned(s.(status := ATTACHED, usb := Cancel(s.usb)));
  }
}
