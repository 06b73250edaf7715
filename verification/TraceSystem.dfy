/**
  Client thread, data thread and device around one sink, interleaved at every point where m_lock is
  free.  A run is any sequence of actions; an action that is not possible where it stands does
  nothing, so every sequence is a run.
 */
module TraceSystem {
  import opened Wire
  import opened UsbDevice
  import opened TraceSink

  /** Where a thread is in waitForBuffer, which runs with m_lock released: about to call
      completeTransfer, inside its libusb loop, or back with the result and in want of the lock. */
  datatype Phase = Calling | Inside | Back(taken: Taken)

  /** The data thread; `buf` is what its reference to the front of pendingBuffers named when taken. */
  datatype Worker = Absent | Entering | Parked | Fetching(at: Phase, buf: Buf) | Exited

  /** The client thread: outside, in WaitForEvent's wait, or in Detach: joining, in the drain loop,
      in detachDevice. */
  datatype Client = Ready | Awaiting | Joining | Draining(at: Phase, buf: Buf) | Cleaning

  /** One attachment that is over: the tickets accepted in it that were completed, and those that Detach
      threw away. */
  datatype Epoch = Epoch(given: seq<Ticket>, lost: seq<Ticket>)

  /** What is kept over all attachments: the data and event tickets ever accepted, in order; the earlier
      attachments; and how many tickets they had completed when the present one began. */
  datatype History = History(accepted: seq<Ticket>, told: seq<Ticket>, past: seq<Epoch>, pastTold: seq<Epoch>,
                             carried: nat, carriedTold: nat)

  /** After the threads come histories: tickets WaitForEvent has returned; data and event tickets that were
      completed before the present attachment or accepted in it; those of them that Detach threw away;
      and the history of all attachments. */
  datatype World = World(sink: Sink, worker: Worker, client: Client, returned: seq<Ticket>,
                         data: seq<Ticket>, notices: seq<Ticket>, lost: seq<Ticket>, lostNotices: seq<Ticket>,
                         history: History)

  datatype Action =
    | Attach | Give(kind: int, memory: nat) | Begin | Halt | Ask | Rouse | Expire | Notice(kind: int)
    | Detach | Join | Finish                        // the client, and SendStateEvent
    | Guard | Wake                                  // the data thread
    | Enter | Leave | Resume                        // whichever thread is in waitForBuffer
    | Device(status: Status, used: nat, lucky: nat) // libusb completes the oldest transfer

  const START := World(Sink(DETACHED, [], [], [], [], 0, NoWaiter, NoWaiter, [], FRESH, map[]),
                       Absent, Ready, [], [], [], [], [], History([], [], [], [], 0, 0))

  // ---------------------------------------------------------------- the steps

  predicate Waiting(w: World) { w.worker.Fetching? || w.client.Draining? }

  function At(w: World): Phase
    requires Waiting(w)
  {
    if w.worker.Fetching? then w.worker.at else w.client.at
  }

  function Move(w: World, at: Phase): World {
    if w.worker.Fetching? then w.(worker := w.worker.(at := at))
    else if w.client.Draining? then w.(client := w.client.(at := at)) else w
  }

  predicate Enabled(w: World, d: Setup, a: Action) {
    match a
    case Attach => w.client.Ready? && w.worker.Absent?
    case Give(_, _) => w.client.Ready?
    case Begin => w.client.Ready?
    case Halt => w.client.Ready?
    case Ask => w.client.Ready?
    case Rouse => w.client.Awaiting?
    case Expire => w.client.Awaiting?
    case Notice(_) => true
    case Detach => w.client.Ready?
    case Join => w.client.Joining? && (w.worker.Exited? || w.worker.Absent?)
    case Finish => w.client.Cleaning? && Outstanding(w.sink.usb) <= 0
    case Guard => w.worker.Entering?
    case Wake => w.worker.Parked?
    case Enter => Waiting(w) && At(w).Calling?
    case Leave => Waiting(w) && At(w).Inside? && w.sink.usb.flag
    case Resume => Waiting(w) && At(w).Back?
    case Device(_, _, _) => Waiting(w) && At(w).Inside? && Flight(w.sink.usb.flights, d.endpoint) != []
  }

  /** The front completed token, if any, goes to the client. */
  function Return(w: World): World {
    var s := w.sink.(completedCond := NoWaiter);
    if s.completed == [] then w.(sink := s, client := Ready)
    else w.(sink := s.(completed := s.completed[1..]), client := Ready, returned := w.returned + [s.completed[0]])
  }

  /** The loop test of WaitForEvent. */
  function AwaitOrReturn(w: World): World {
    if w.sink.completed != [] then Return(w)
    else w.(sink := w.sink.(completedCond := Waiter(false)), client := Awaiting)
  }

  /** A new attachment: the one before is closed in the history. */
  function AttachSink(w: World): World {
    var data, notices := Select(w.returned + w.sink.completed, true), Select(w.returned + w.sink.completed, false);
    var h := w.history;
    w.(sink := w.sink.(status := ATTACHED), worker := Entering, data := data, lost := [],
       notices := notices, lostNotices := [],
       history := h.(past := h.past + [Epoch(After(data, h.carried), w.lost)], carried := |data|,
                     pastTold := h.pastTold + [Epoch(After(notices, h.carriedTold), w.lostNotices)],
                     carriedTold := |notices|))
  }

  function After(ts: seq<Ticket>, n: nat): seq<Ticket> {
    if n <= |ts| then ts[n..] else []
  }

  function Accept(w: World, d: Setup, kind: int, memory: nat): World {
    var (s, r) := SubmitEvent(w.sink, d, kind, memory);
    var t := Ticket(w.sink.nextToken, kind == TYPE_DATA);
    var h := w.history;
    if r.Refused? then w.(sink := s)
    else if t.data then w.(sink := s, data := w.data + [t], history := h.(accepted := h.accepted + [t]))
    else w.(sink := s, notices := w.notices + [t], history := h.(told := h.told + [t]))
  }

  /** The loop test of WaitForDataEvent and what follows while it has the lock. */
  function Test(w: World): World {
    var s := w.sink.(pendingCond := NoWaiter);
    if s.status == DETACHED then w.(sink := s, worker := Exited)
    else if s.pending == [] then w.(sink := s.(pendingCond := Waiter(false)), worker := Parked)
    else w.(sink := s, worker := Fetching(Calling, s.pending[0]))
  }

  function EnterUsb(w: World): World {
    var u := w.sink.usb;
    if MustWait(u) then Move(w.(sink := w.sink.(usb := u.(waiting := true))), Inside) else TakeUsb(w)
  }

  function TakeUsb(w: World): World {
    var (u, t) := TakeFront(w.sink.usb.(flag := false, waiting := false));
    Move(w.(sink := w.sink.(usb := u)), Back(t))
  }

  function DeviceUsb(w: World, d: Setup, status: Status, used: nat, lucky: nat): World
    requires Flight(w.sink.usb.flights, d.endpoint) != []
  {
    w.(sink := w.sink.(usb := Callback(w.sink.usb, Flight(w.sink.usb.flights, d.endpoint)[0].token, d.endpoint,
                                       status, used, lucky)))
  }

  function DrainOn(w: World): World {
    if w.sink.pending == [] then w.(client := Cleaning) else w.(client := Draining(Calling, w.sink.pending[0]))
  }

  function ResumeDrain(w: World): World
    requires w.client.Draining? && w.client.at.Back?
  {
    var (s, more) := Drain(w.sink, w.client.buf, w.client.at.taken);
    if more then DrainOn(w.(sink := s, lost := w.lost + [w.client.buf.ticket])) else w.(sink := s, client := Cleaning)
  }

  function Step(w: World, d: Setup, a: Action): World
    requires Enabled(w, d, a)
  {
    match a
    case Attach => AttachSink(w)
    case Give(kind, memory) => Accept(w, d, kind, memory)
    case Begin => w.(sink := Start(w.sink, d, true).0) // the same sink if the device refuses
    case Halt => w.(sink := Stop(w.sink).0)
    case Ask => AwaitOrReturn(w)
    case Rouse => AwaitOrReturn(w)
    case Expire => Return(w)
    case Notice(kind) => w.(sink := StateEvent(w.sink, kind))
    case Detach => w.(sink := w.sink.(status := DETACHED, pendingCond := Notify(w.sink.pendingCond)), client := Joining)
    case Join => DrainOn(w.(sink := w.sink.(usb := Cancel(w.sink.usb)), worker := Absent))
    case Finish => w.(sink := Close(w.sink), client := Ready,
                      lost := w.lost + Tickets(w.sink.pending + w.sink.queued),
                      lostNotices := w.lostNotices + Tickets(w.sink.events))
    case Guard => Test(w)
    case Wake => Test(w)
    case Enter => EnterUsb(w)
    case Leave => TakeUsb(w)
    case Resume =>
      if w.worker.Fetching? then w.(sink := Deliver(w.sink, d, w.worker.buf, w.worker.at.taken), worker := Entering)
      else ResumeDrain(w)
    case Device(status, used, lucky) => DeviceUsb(w, d, status, used, lucky)
  }

  function Run(w: World, d: Setup, actions: seq<Action>): World
    decreases |actions|
  {
    if actions == [] then w
    else Run(if Enabled(w, d, actions[0]) then Step(w, d, actions[0]) else w, d, actions[1..])
  }

  /** The tickets of one kind, in order. */
  function Select(ts: seq<Ticket>, data: bool): seq<Ticket> {
    if ts == [] then []
    else Select(ts[..|ts| - 1], data) + if ts[|ts| - 1].data == data then [ts[|ts| - 1]] else []
  }

  // ---------------------------------------------------------------- the invariant: threads

  function Hand(w: World): Taken {
    if Waiting(w) && At(w).Back? then At(w).taken else None
  }

  /** libusb has been told to cancel everything it still has. */
  ghost predicate AllAsked(u: Usb, d: Setup) {
    forall t <- Flight(u.flights, d.endpoint) :: t.token in u.asked
  }

  /** Each thread's control point against the fields. */
  ghost predicate Threads(w: World, d: Setup) {
    var s := w.sink;
    && (s.pendingCond.Waiter? <==> w.worker.Parked?)
    && (s.completedCond.Waiter? <==> w.client.Awaiting?)
    && (s.usb.waiting <==> Waiting(w) && At(w).Inside?)
    && (w.worker.Fetching? ==> s.pending != [] && s.pending[0] == w.worker.buf && !w.client.Draining?)
    && (w.client.Draining? ==> s.pending != [] && s.pending[0] == w.client.buf)
    && (Waiting(w) && At(w).Back? ==> At(w).taken.Some?)
    && (Waiting(w) && At(w).Inside? && !s.usb.flag ==> s.usb.completed == [])
    && (w.client.Draining? || w.client.Cleaning? ==> w.worker.Absent? && AllAsked(s.usb, d))
    && (w.client.Cleaning? ==> s.pending == [])
    && (w.worker.Absent? || w.worker.Exited? || w.client.Joining? ==> s.status == DETACHED)
    && (s.status == DETACHED ==> w.worker.Absent? || w.client.Joining?)
    && (w.worker.Absent? && (w.client.Ready? || w.client.Awaiting? || w.client.Joining?) ==>
          s.pending == [] && s.queued == [] && s.events == [])
  }

  ghost predicate Sound(w: World, d: Setup) {
    Linked(w.sink, d, Hand(w)) && Awake(w.sink) && Busy(w.sink, d) && Threads(w, d)
  }

  lemma SoundReturn(w: World, d: Setup)
    requires Sound(w, d) && (w.client.Ready? || w.client.Awaiting?)
    ensures Sound(Return(w), d) && Sound(AwaitOrReturn(w), d)
  {
    hide Linked;
    assert Linked(Return(w).sink, d, Hand(w)) && Linked(AwaitOrReturn(w).sink, d, Hand(w)) by {
      LinkedHere(w.sink, Return(w).sink, d, Hand(w));
      LinkedHere(w.sink, AwaitOrReturn(w).sink, d, Hand(w));
    }
  }

  lemma SoundReturned(w: World, d: Setup, a: Action)
    requires Sound(w, d) && Enabled(w, d, a) && (a.Ask? || a.Rouse? || a.Expire?)
    ensures Sound(Step(w, d, a), d)
  {
    SoundReturn(w, d);
    hide Sound, Return, AwaitOrReturn;
  }

  lemma SoundClient(w: World, d: Setup, a: Action)
    requires Sound(w, d) && Enabled(w, d, a) && (a.Attach? || a.Detach? || a.Finish?)
    ensures Sound(Step(w, d, a), d)
  {
    hide Linked;
    LinkedHere(w.sink, w.sink.(status := Step(w, d, a).sink.status, pendingCond := Step(w, d, a).sink.pendingCond),
               d, Hand(w));
    if a.Finish? {
      assert w.sink.pending == [];
      LinkedHere(w.sink, Close(w.sink), d, Hand(w));
    }
  }

  lemma LinkedHere(s: Sink, v: Sink, d: Setup, taken: Taken)
    requires Linked(s, d, taken) && v.usb == s.usb && v.pending == s.pending && v.tokens == s.tokens
    ensures Linked(v, d, taken)
  {}

  lemma SoundBegin(w: World, d: Setup)
    requires Suitable(d) && Sound(w, d) && Enabled(w, d, Begin)
    ensures Sound(Step(w, d, Begin), d)
  {
    hide Direct, Paired, Rising, Suitable, SubmitAll;
    SubmitAllKeeps(w.sink.(status := ACTIVE), d, Hand(w));
  }

  lemma SoundGive(w: World, d: Setup, kind: int, memory: nat)
    requires Suitable(d) && Sound(w, d) && Enabled(w, d, Give(kind, memory))
    ensures Sound(Step(w, d, Give(kind, memory)), d)
  {
    hide Direct, Paired, Rising, Suitable, SubmitIfActive;
    var b := Buf(Ticket(w.sink.nextToken, kind == TYPE_DATA), memory);
    var v := w.sink.(nextToken := w.sink.nextToken + 1, contents := w.sink.contents[memory := Content(TYPE_NONE, 0)]);
    SubmitIfActiveKeeps(v.(queued := v.queued + [b]), d, Hand(w));
  }

  lemma {:induction false} ReturnEventsAll(s: Sink)
    ensures var v := ReturnEvents(s);
      v == s.(completed := s.completed + Tickets(s.events), events := [], contents := v.contents)
    decreases |s.events|
  {
    if s.events == [] {
      assert s.completed + [] == s.completed;
    } else {
      ReturnEventsAll(s.(contents := s.contents[s.events[0].memory := Content(TYPE_NONE, 0)],
                         completed := s.completed + [s.events[0].ticket], events := s.events[1..]));
      assert s.completed + Tickets(s.events) == s.completed + [s.events[0].ticket] + Tickets(s.events[1..]);
    }
  }

  lemma SoundHalt(w: World, d: Setup)
    requires Suitable(d) && Sound(w, d) && Enabled(w, d, Halt)
    ensures Sound(Step(w, d, Halt), d)
  {
    hide Direct, Paired, Rising, Suitable, ReturnEvents, Cancel;
    CancelStep(w.sink, d, Hand(w));
    ReturnEventsAll(w.sink.(status := ATTACHED, usb := Cancel(w.sink.usb)));
  }

  lemma SoundNotice(w: World, d: Setup, kind: int)
    requires Suitable(d) && Sound(w, d)
    ensures Sound(Step(w, d, Notice(kind)), d)
  {
    hide Direct, Paired, Rising, Suitable;
  }

  lemma SoundJoin(w: World, d: Setup)
    requires Suitable(d) && Sound(w, d) && Enabled(w, d, Join)
    ensures Sound(Step(w, d, Join), d)
  {
    hide Direct, Paired, Rising, Suitable, Cancel;
    CancelStep(w.sink, d, Hand(w));
  }

  lemma SoundWorker(w: World, d: Setup, a: Action)
    requires Suitable(d) && Sound(w, d) && Enabled(w, d, a) && (a.Guard? || a.Wake?)
    ensures Sound(Step(w, d, a), d)
  {
    hide Direct, Paired, Rising, Suitable;
  }

  lemma SoundEnter(w: World, d: Setup)
    requires Suitable(d) && Sound(w, d) && Enabled(w, d, Enter)
    ensures Sound(Step(w, d, Enter), d)
  {
    hide Paired, Rising, Suitable;
    if MustWait(w.sink.usb) {
      assert Owed(w.sink.usb.(waiting := true), d.endpoint, None) == Owed(w.sink.usb, d.endpoint, None);
    } else {
      SoundTake(w, d);
    }
  }

  lemma SoundTake(w: World, d: Setup)
    requires Suitable(d) && Sound(w, d) && Waiting(w) && !At(w).Back?
    requires w.sink.usb.flag || (!MustWait(w.sink.usb) && !w.sink.usb.waiting)
    ensures Sound(TakeUsb(w), d)
  {
    var v := w.sink.(usb := w.sink.usb.(flag := false, waiting := false));
    assert Owed(v.usb, d.endpoint, None) == Owed(w.sink.usb, d.endpoint, None);
    assert w.sink.usb.completed == [] ==> Owed(w.sink.usb, d.endpoint, None) == [];
    TakeStep(v, d);
    hide Direct, Rising, Suitable, TakeFront;
  }

  lemma SoundDevice(w: World, d: Setup, status: Status, used: nat, lucky: nat)
    requires Suitable(d) && Sound(w, d) && Enabled(w, d, Device(status, used, lucky))
    ensures Sound(Step(w, d, Device(status, used, lucky)), d)
  {
    DeviceStep(w.sink, d, None, status, used, lucky);
    hide Direct, Paired, Rising, Suitable, Callback;
  }

  lemma SoundResume(w: World, d: Setup)
    requires Suitable(d) && Sound(w, d) && Enabled(w, d, Resume)
    ensures Sound(Step(w, d, Resume), d)
  {
    hide Direct, Paired, Rising, Suitable, Deliver, ResumeDrain;
    if w.worker.Fetching? { SoundDeliver(w, d); } else { SoundDrain(w, d); }
  }

  lemma SoundDeliver(w: World, d: Setup)
    requires Suitable(d) && Sound(w, d) && Enabled(w, d, Resume) && w.worker.Fetching?
    ensures Sound(Step(w, d, Resume), d)
  {
    DeliverStep(w.sink, d, w.worker.at.taken.transfer);
    hide Linked, Suitable, Busy, Deliver;
  }

  lemma SoundDrain(w: World, d: Setup)
    requires Suitable(d) && Sound(w, d) && Enabled(w, d, Resume) && w.client.Draining?
    ensures Sound(ResumeDrain(w), d)
  {
    DrainStep(w.sink, d, w.client.at.taken.transfer);
    var s := Drain(w.sink, w.client.buf, w.client.at.taken).0;
    hide Linked, Suitable, Drain;
    SoundDrained(w, d, s);
  }

  lemma SoundDrained(w: World, d: Setup, s: Sink)
    requires Sound(w, d) && w.client.Draining? && At(w).Back? && Linked(s, d, None)
    requires s == w.sink.(tokens := s.tokens, contents := s.contents, pending := w.sink.pending[1..])
    ensures Sound(DrainOn(w.(sink := s, lost := w.lost + [w.client.buf.ticket])), d)
  {
    hide Linked;
  }

  lemma SoundStep(w: World, d: Setup, a: Action)
    requires Suitable(d) && Sound(w, d) && Enabled(w, d, a)
    ensures Sound(Step(w, d, a), d)
  {
    hide Sound, Suitable, Enabled, Step;
    match a
    case Give(kind, memory) => SoundGive(w, d, kind, memory);
    case Ask => SoundReturned(w, d, a);
    case Rouse => SoundReturned(w, d, a);
    case Expire => SoundReturned(w, d, a);
    case Begin => SoundBegin(w, d);
    case Halt => SoundHalt(w, d);
    case Notice(kind) => SoundNotice(w, d, kind);
    case Join => SoundJoin(w, d);
    case Guard => SoundWorker(w, d, a);
    case Wake => SoundWorker(w, d, a);
    case Enter => SoundEnter(w, d);
    case Leave => SoundLeave(w, d);
    case Resume => SoundResume(w, d);
    case Device(status, used, lucky) => SoundDevice(w, d, status, used, lucky);
    case _ => SoundClient(w, d, a);
  }

  lemma SoundLeave(w: World, d: Setup)
    requires Suitable(d) && Sound(w, d) && Enabled(w, d, Leave)
    ensures Sound(Step(w, d, Leave), d)
  {
    SoundTake(w, d);
  }

  // ---------------------------------------------------------------- the invariant: tickets

  ghost predicate Ascending(ts: seq<Ticket>, next: nat) {
    && (forall i, j :: 0 <= i < j < |ts| ==> ts[i].token < ts[j].token)
    && (forall t <- ts :: t.token < next)
  }

  /** All data tickets by where they are: returned or completed, thrown away, pending or queued. */
  function DataLine(w: World): seq<Ticket> {
    Select(w.returned + w.sink.completed, true) + w.lost + Tickets(w.sink.pending + w.sink.queued)
  }

  function NoticeLine(w: World): seq<Ticket> {
    Select(w.returned + w.sink.completed, false) + w.lostNotices + Tickets(w.sink.events)
  }

  ghost predicate Labelled(s: Sink) {
    (forall b <- s.pending + s.queued :: b.ticket.data) && (forall b <- s.events :: !b.ticket.data)
  }

  ghost predicate LossesAtEnd(w: World) {
    (w.lost != [] ==> w.worker.Absent?) && (w.lostNotices != [] ==> w.worker.Absent? && w.sink.events == [])
  }

  /** Every ticket accepted is in exactly one place, and the places are in order. */
  ghost predicate Ledger(w: World) {
    && w.data == DataLine(w) && w.notices == NoticeLine(w)
    && Labelled(w.sink) && LossesAtEnd(w)
    && Ascending(w.data, w.sink.nextToken) && Ascending(w.notices, w.sink.nextToken)
  }

  lemma {:induction false} SelectJoin(p: seq<Ticket>, q: seq<Ticket>, data: bool)
    ensures Select(p + q, data) == Select(p, data) + Select(q, data)
  {
    if q == [] { assert p + q == p; }
    else { assert (p + q)[..|p + q| - 1] == p + q[..|q| - 1]; SelectJoin(p, q[..|q| - 1], data); }
  }

  lemma SelectSnoc(p: seq<Ticket>, t: Ticket, data: bool)
    ensures Select(p + [t], data) == Select(p, data) + if t.data == data then [t] else []
  {
    assert (p + [t])[..|p|] == p;
  }

  lemma {:induction false} TicketsJoin(p: seq<Buf>, q: seq<Buf>)
    ensures Tickets(p + q) == Tickets(p) + Tickets(q)
  {
    if p == [] { assert p + q == q; }
    else { assert (p + q)[1..] == p[1..] + q; TicketsJoin(p[1..], q); }
  }

  lemma {:induction false} SelectTickets(bs: seq<Buf>, kind: bool, data: bool)
    requires forall b <- bs :: b.ticket.data == kind
    ensures Select(Tickets(bs), data) == if kind == data then Tickets(bs) else []
  {
    if bs == [] {
    } else {
      SelectTickets(bs[1..], kind, data);
      SelectJoin([bs[0].ticket], Tickets(bs[1..]), data);
      SelectSnoc([], bs[0].ticket, data);
    }
  }

  /** Steps that move tickets along, without losing or making any. */
  lemma LedgerMoved(w: World, v: World)
    requires Ledger(w) && DataLine(v) == DataLine(w) && NoticeLine(v) == NoticeLine(w)
    requires Labelled(v.sink) && LossesAtEnd(v)
    requires v.data == w.data && v.notices == w.notices && v.sink.nextToken == w.sink.nextToken
    ensures Ledger(v)
  {}

  /** Steps that touch no list of tickets. */
  lemma LedgerSame(w: World, v: World)
    requires Ledger(w) && v.returned + v.sink.completed == w.returned + w.sink.completed
    requires v.sink.pending + v.sink.queued == w.sink.pending + w.sink.queued && v.sink.events == w.sink.events
    requires v.data == w.data && v.notices == w.notices && v.lost == w.lost && v.lostNotices == w.lostNotices
    requires v.sink.nextToken == w.sink.nextToken && (w.worker.Absent? ==> v.worker.Absent?)
    ensures Ledger(v)
  {}

  /** One more ticket of its kind completed. */
  lemma SelectCompleted(returned: seq<Ticket>, completed: seq<Ticket>, t: Ticket)
    ensures Select(returned + (completed + [t]), t.data) == Select(returned + completed, t.data) + [t]
    ensures Select(returned + (completed + [t]), !t.data) == Select(returned + completed, !t.data)
  {
    assert returned + (completed + [t]) == (returned + completed) + [t];
    SelectSnoc(returned + completed, t, t.data);
    SelectSnoc(returned + completed, t, !t.data);
    assert Select(returned + completed, !t.data) + [] == Select(returned + completed, !t.data);
  }

  lemma TicketsFront(b: Buf, pending: seq<Buf>, queued: seq<Buf>)
    ensures Tickets(([b] + pending) + queued) == [b.ticket] + Tickets(pending + queued)
  {
    assert ([b] + pending) + queued == [b] + (pending + queued);
  }

  /** Handing over the front of a line. */
  lemma Shift(p: seq<Ticket>, t: Ticket, q: seq<Ticket>)
    ensures (p + [t]) + q == p + ([t] + q)
  {}

  lemma LedgerGive(w: World, d: Setup, kind: int, memory: nat)
    requires Suitable(d) && Sound(w, d) && Ledger(w) && Enabled(w, d, Give(kind, memory))
    ensures Ledger(Step(w, d, Give(kind, memory)))
  {
    var s, after := w.sink, Step(w, d, Give(kind, memory));
    if s.status != DETACHED {
      assert w.lost == [] && w.lostNotices == [];
      hide Suitable, SubmitIfActive, Linked, Awake, Busy, Ledger;
      var b := Buf(Ticket(s.nextToken, kind == TYPE_DATA), memory);
      if kind == TYPE_DATA {
        var v := s.(nextToken := s.nextToken + 1, contents := s.contents[memory := Content(TYPE_NONE, 0)],
                    queued := s.queued + [b]);
        assert Linked(v, d, Hand(w)) by { LinkedHere(s, v, d, Hand(w)); }
        SubmitIfActiveKeeps(v, d, Hand(w));
        LedgerData(w, b, after);
      } else if kind == TYPE_EVENT {
        LedgerEvent(w, b, after);
      } else {
        LedgerSpent(w, after);
      }
    }
  }

  /** A token spent on a bad type. */
  lemma LedgerSpent(w: World, v: World)
    requires Ledger(w) && v == w.(sink := v.sink) && v.sink.nextToken == w.sink.nextToken + 1
    requires v.sink.completed == w.sink.completed && v.sink.pending == w.sink.pending
    requires v.sink.queued == w.sink.queued && v.sink.events == w.sink.events
    ensures Ledger(v)
  {
    hide Select, Tickets;
  }

  lemma LedgerData(w: World, b: Buf, v: World)
    requires Ledger(w) && v.returned + v.sink.completed == w.returned + w.sink.completed && w.lost == []
    requires b.ticket == Ticket(w.sink.nextToken, true) && v.sink.nextToken == w.sink.nextToken + 1
    requires v.sink.pending + v.sink.queued == w.sink.pending + (w.sink.queued + [b])
    requires v == w.(sink := v.sink, data := w.data + [b.ticket], history := v.history) && v.sink.events
      == w.sink.events
    ensures Ledger(v)
  {
    var before := w.sink.pending + w.sink.queued;
    assert v.sink.pending + v.sink.queued == before + [b];
    TicketsJoin(before, [b]);
    assert Tickets([b]) == [b.ticket];
    AscendingSnoc(w.data, w.sink.nextToken, b.ticket);
    assert Ascending(v.notices, v.sink.nextToken);
    hide Select, Tickets, Ascending;
    assert DataLine(v) == DataLine(w) + [b.ticket];
    assert NoticeLine(v) == NoticeLine(w);
  }

  lemma AscendingSnoc(ts: seq<Ticket>, next: nat, t: Ticket)
    requires Ascending(ts, next) && t.token == next
    ensures Ascending(ts + [t], next + 1)
  {}

  lemma LedgerEvent(w: World, b: Buf, v: World)
    requires Ledger(w) && v.returned + v.sink.completed == w.returned + w.sink.completed && w.lostNotices == []
    requires b.ticket == Ticket(w.sink.nextToken, false) && v.sink.nextToken == w.sink.nextToken + 1
    requires v.sink.pending + v.sink.queued == w.sink.pending + w.sink.queued
    requires v == w.(sink := v.sink, notices := w.notices + [b.ticket], history := v.history) && v.sink.events
      == w.sink.events + [b]
    ensures Ledger(v)
  {
    hide Select, Tickets;
    NoticeSnoc(w, b, v);
    assert DataLine(v) == DataLine(w);
    hide DataLine, NoticeLine;
    AscendingSnoc(w.notices, w.sink.nextToken, b.ticket);
  }

  lemma NoticeSnoc(w: World, b: Buf, v: World)
    requires v.returned + v.sink.completed == w.returned + w.sink.completed
    requires w.lostNotices == v.lostNotices == [] && v.sink.events == w.sink.events + [b]
    ensures NoticeLine(v) == NoticeLine(w) + [b.ticket]
  {
    TicketsJoin(w.sink.events, [b]);
    assert Tickets([b]) == [b.ticket];
    hide Select, Tickets;
  }

  lemma LedgerBegin(w: World, d: Setup)
    requires Suitable(d) && Sound(w, d) && Ledger(w) && Enabled(w, d, Begin)
    ensures Ledger(Step(w, d, Begin))
  {
    hide Suitable, SubmitAll, Direct, Paired, Rising, Ledger;
    SubmitAllKeeps(w.sink.(status := ACTIVE), d, Hand(w));
    LedgerSame(w, Step(w, d, Begin));
  }

  lemma LedgerHalt(w: World, d: Setup)
    requires Ledger(w) && Enabled(w, d, Halt)
    ensures Ledger(Step(w, d, Halt))
  {
    var s := w.sink;
    hide Ledger, ReturnEvents, Cancel;
    ReturnEventsAll(s.(status := ATTACHED, usb := Cancel(s.usb)));
    if s.status == ACTIVE { LedgerAllTold(w, Step(w, d, Halt)); }
  }

  /** Every event buffer completes. */
  lemma LedgerAllTold(w: World, v: World)
    requires Ledger(w) && v == w.(sink := v.sink) && v.sink.nextToken == w.sink.nextToken
    requires v.sink.completed == w.sink.completed + Tickets(w.sink.events) && v.sink.events == []
    requires v.sink.pending == w.sink.pending && v.sink.queued == w.sink.queued
    ensures Ledger(v)
  {
    var ts := Tickets(w.sink.events);
    AllTold(w.returned, w.sink.completed, w.sink.events);
    NoTickets(w.sink.events);
    NoTickets(v.sink.events);
    Past(Select(w.returned + w.sink.completed, false), w.lostNotices, ts);
    hide Select, Tickets, Ascending;
    LedgerMoved(w, v);
  }

  lemma AllTold(returned: seq<Ticket>, completed: seq<Ticket>, events: seq<Buf>)
    requires forall b <- events :: !b.ticket.data
    ensures var ts := Tickets(events);
      && Select(returned + (completed + ts), true) == Select(returned + completed, true)
      && Select(returned + (completed + ts), false) == Select(returned + completed, false) + ts
  {
    var before, ts := returned + completed, Tickets(events);
    assert returned + (completed + ts) == before + ts;
    SelectJoin(before, ts, true);
    SelectJoin(before, ts, false);
    SelectTickets(events, false, true);
    SelectTickets(events, false, false);
    hide Select, Tickets;
    assert Select(before, true) + [] == Select(before, true);
  }

  lemma Past(p: seq<Ticket>, lost: seq<Ticket>, q: seq<Ticket>)
    requires lost == [] || q == []
    ensures (p + q) + lost + [] == p + lost + q
  {
    if lost == [] { assert (p + q) + lost + [] == p + q && p + lost == p; }
    else { assert p + q == p && (p + lost) + q == p + lost; }
  }

  lemma LedgerNotice(w: World, kind: int)
    requires Ledger(w)
    ensures Ledger(w.(sink := StateEvent(w.sink, kind)))
  {
    var s := w.sink;
    if s.events != [] {
      assert s.events == [s.events[0]] + s.events[1..];
      hide Ledger;
      LedgerTold(w, s.events[0], s.events[1..], w.(sink := StateEvent(s, kind)));
    }
  }

  /** The front event buffer completes. */
  lemma LedgerTold(w: World, b: Buf, rest: seq<Buf>, v: World)
    requires Ledger(w) && w.sink.events == [b] + rest && v.sink.events == rest
    requires v.sink.pending == w.sink.pending && v.sink.queued == w.sink.queued
    requires v.sink.completed == w.sink.completed + [b.ticket] && v.sink.nextToken == w.sink.nextToken
    requires v == w.(sink := v.sink)
    ensures Ledger(v)
  {
    var before := Select(w.returned + w.sink.completed, false);
    assert b in w.sink.events;
    SelectCompleted(w.returned, w.sink.completed, b.ticket);
    TicketsFront(b, rest, []);
    assert ([b] + rest) + [] == w.sink.events && rest + [] == rest;
    Shift(before, b.ticket, Tickets(rest));
    hide Select, Tickets, Ascending;
    assert before + [] == before && (before + [b.ticket]) + [] == before + [b.ticket];
    assert NoticeLine(v) == NoticeLine(w);
    LedgerMoved(w, v);
  }

  lemma LedgerReturn(w: World)
    requires Ledger(w)
    ensures Ledger(Return(w)) && Ledger(AwaitOrReturn(w))
  {
    hide Ledger;
    if w.sink.completed != [] {
      assert (w.returned + [w.sink.completed[0]]) + w.sink.completed[1..] == w.returned + w.sink.completed;
    }
    LedgerSame(w, Return(w));
    LedgerSame(w, AwaitOrReturn(w));
  }

  lemma AscendingPrefix(p: seq<Ticket>, q: seq<Ticket>, next: nat)
    requires Ascending(p + q, next)
    ensures Ascending(p, next)
  {
    assert forall i :: 0 <= i < |p| ==> p[i] == (p + q)[i];
  }

  lemma LedgerAttach(w: World, d: Setup)
    requires Sound(w, d) && Ledger(w) && Enabled(w, d, Attach)
    ensures Ledger(Step(w, d, Attach))
  {
    hide Select, Linked, Awake, Busy, Ascending;
    var s, ts := w.sink, w.returned + w.sink.completed;
    assert s.pending + s.queued == [];
    assert w.data == Select(ts, true) + w.lost;
    assert w.notices == Select(ts, false) + w.lostNotices;
    AscendingPrefix(Select(ts, true), w.lost, s.nextToken);
    AscendingPrefix(Select(ts, false), w.lostNotices, s.nextToken);
    var v := Step(w, d, Attach);
    assert DataLine(v) == Select(ts, true) && NoticeLine(v) == Select(ts, false);
  }

  lemma LedgerFinish(w: World, d: Setup)
    requires Sound(w, d) && Ledger(w) && Enabled(w, d, Finish)
    ensures Ledger(Step(w, d, Finish))
  {
    hide Ledger, Linked, Awake, Busy, Select;
    LedgerClosed(w, Step(w, d, Finish));
  }

  /** Everything not yet completed is thrown away. */
  lemma LedgerClosed(w: World, v: World)
    requires Ledger(w) && w.worker.Absent? && v.worker.Absent?
    requires v.sink == Close(w.sink) && v.returned == w.returned && v.data == w.data && v.notices == w.notices
    requires v.lost == w.lost + Tickets(w.sink.pending + w.sink.queued)
    requires v.lostNotices == w.lostNotices + Tickets(w.sink.events)
    ensures Ledger(v)
  {
    var ts := w.returned + w.sink.completed;
    var rest := Tickets(w.sink.pending + w.sink.queued);
    NoTickets(v.sink.pending + v.sink.queued);
    NoTickets(v.sink.events);
    hide Select, Tickets, Ascending;
    assert Select(ts, true) + (w.lost + rest) + [] == Select(ts, true) + w.lost + rest;
    assert DataLine(v) == DataLine(w);
    var told := Tickets(w.sink.events);
    assert Select(ts, false) + (w.lostNotices + told) + [] == Select(ts, false) + w.lostNotices + told;
    assert NoticeLine(v) == NoticeLine(w);
    LedgerMoved(w, v);
  }

  lemma NoTickets(bs: seq<Buf>)
    ensures bs == [] ==> Tickets(bs) == []
  {}

  lemma LedgerDeliver(w: World, d: Setup)
    requires Suitable(d) && Sound(w, d) && Ledger(w) && Enabled(w, d, Resume) && w.worker.Fetching?
    ensures Ledger(Step(w, d, Resume))
  {
    var s, b := w.sink, w.sink.pending[0];
    DeliverStep(s, d, w.worker.at.taken.transfer);
    assert s.pending == [b] + s.pending[1..];
    hide Linked, Awake, Busy, Suitable, Deliver, Ledger;
    LedgerFirst(w, b, s.pending[1..], Step(w, d, Resume));
  }

  /** The front pending buffer completes. */
  lemma LedgerFirst(w: World, b: Buf, rest: seq<Buf>, v: World)
    requires Ledger(w) && !w.worker.Absent? && !v.worker.Absent? && w.sink.pending == [b] + rest
    requires v.sink.pending + v.sink.queued == rest + w.sink.queued && v.sink.events == w.sink.events
    requires v.sink.completed == w.sink.completed + [b.ticket] && v.sink.nextToken == w.sink.nextToken
    requires v == w.(sink := v.sink, worker := v.worker)
    ensures Ledger(v)
  {
    var before := Select(w.returned + w.sink.completed, true);
    assert b in w.sink.pending + w.sink.queued;
    SelectCompleted(w.returned, w.sink.completed, b.ticket);
    TicketsFront(b, rest, w.sink.queued);
    Shift(before, b.ticket, Tickets(rest + w.sink.queued));
    hide Select, Tickets;
    assert before + [] == before && (before + [b.ticket]) + [] == before + [b.ticket];
    assert DataLine(v) == DataLine(w);
    assert Labelled(v.sink);
    LedgerMoved(w, v);
  }

  lemma LedgerDrain(w: World, d: Setup)
    requires Suitable(d) && Sound(w, d) && Ledger(w) && Enabled(w, d, Resume) && w.client.Draining?
    ensures Ledger(Step(w, d, Resume))
  {
    var s, b := w.sink, w.sink.pending[0];
    assert s.pending == [b] + s.pending[1..];
    assert w.client.buf == b && w.worker.Absent?;
    DrainStep(s, d, w.client.at.taken.transfer);
    hide Linked, Awake, Busy, Suitable, Drain, Ledger, Threads;
    LedgerLost(w, b, s.pending[1..], ResumeDrain(w));
  }

  /** The front pending buffer is thrown away. */
  lemma LedgerLost(w: World, b: Buf, rest: seq<Buf>, v: World)
    requires Ledger(w) && w.worker.Absent? && v.worker.Absent? && w.sink.pending == [b] + rest
    requires v.sink.pending == rest && v.sink.queued == w.sink.queued && v.sink.events == w.sink.events
    requires v.sink.completed == w.sink.completed && v.sink.nextToken == w.sink.nextToken
    requires v == w.(sink := v.sink, client := v.client, lost := w.lost + [b.ticket])
    ensures Ledger(v)
  {
    var before := Select(w.returned + w.sink.completed, true);
    TicketsFront(b, rest, w.sink.queued);
    hide Select, Tickets;
    assert before + (w.lost + [b.ticket]) == (before + w.lost) + [b.ticket];
    Shift(before + w.lost, b.ticket, Tickets(rest + w.sink.queued));
    assert DataLine(v) == DataLine(w);
    assert Labelled(v.sink);
    LedgerMoved(w, v);
  }

  lemma LedgerOther(w: World, d: Setup, a: Action)
    requires Ledger(w) && Enabled(w, d, a)
    requires a.Detach? || a.Join? || a.Guard? || a.Wake? || a.Enter? || a.Leave? || a.Device?
    ensures Ledger(Step(w, d, a))
  {
    hide Ledger, Callback, Cancel;
    LedgerSame(w, Step(w, d, a));
  }

  lemma LedgerStep(w: World, d: Setup, a: Action)
    requires Suitable(d) && Sound(w, d) && Ledger(w) && Enabled(w, d, a)
    ensures Ledger(Step(w, d, a))
  {
    match a
    case Attach => LedgerAttach(w, d);
    case Give(kind, memory) => LedgerGive(w, d, kind, memory);
    case Begin => LedgerBegin(w, d);
    case Halt => LedgerHalt(w, d);
    case Ask => LedgerReturn(w);
    case Rouse => LedgerReturn(w);
    case Expire => LedgerReturn(w);
    case Notice(kind) => LedgerNotice(w, kind);
    case Finish => LedgerFinish(w, d);
    case Resume => if w.worker.Fetching? { LedgerDeliver(w, d); } else { LedgerDrain(w, d); }
    case _ => LedgerOther(w, d, a);
  }

  // ---------------------------------------------------------------- all attachments

  function Given(es: seq<Epoch>): seq<Ticket> {
    if es == [] then [] else Given(es[..|es| - 1]) + es[|es| - 1].given
  }

  function Account(es: seq<Epoch>): seq<Ticket> {
    if es == [] then [] else Account(es[..|es| - 1]) + (es[|es| - 1].given + es[|es| - 1].lost)
  }

  lemma EpochSnoc(es: seq<Epoch>, e: Epoch)
    ensures Given(es + [e]) == Given(es) + e.given && Account(es + [e]) == Account(es) + (e.given + e.lost)
  {
    assert (es + [e])[..|es|] == es;
  }

  /** `done` are the completed tickets of one kind, `line` those and what else is about in the present
      attachment, `all` the tickets ever accepted. */
  ghost predicate Recorded(all: seq<Ticket>, past: seq<Epoch>, carried: nat, done: seq<Ticket>, line: seq<Ticket>) {
    carried <= |done| && carried <= |line| && Given(past) == done[..carried] && all == Account(past) + line[carried..]
  }

  ghost predicate Chronicle(w: World) {
    var h, ts := w.history, w.returned + w.sink.completed;
    && Recorded(h.accepted, h.past, h.carried, Select(ts, true), w.data)
    && Recorded(h.told, h.pastTold, h.carriedTold, Select(ts, false), w.notices)
    && Ascending(h.accepted, w.sink.nextToken) && Ascending(h.told, w.sink.nextToken)
  }

  /** Nothing that was completed is ever taken back. */
  lemma CompletedGrows(w: World, d: Setup, a: Action)
    requires Suitable(d) && Sound(w, d) && Enabled(w, d, a)
    ensures var v := Step(w, d, a); w.returned + w.sink.completed <= v.returned + v.sink.completed
  {
    if a.Begin? || a.Give? || a.Resume? {
      CompletedBySink(w, d, a);
    } else {
      CompletedByClient(w, d, a);
    }
    hide Sound, Enabled, Step;
  }

  lemma CompletedBySink(w: World, d: Setup, a: Action)
    requires Suitable(d) && Sound(w, d) && Enabled(w, d, a) && (a.Begin? || a.Give? || a.Resume?)
    ensures var v := Step(w, d, a); v.returned == w.returned && w.sink.completed <= v.sink.completed
  {
    hide Direct, Paired, Rising, Suitable, Select, Callback, Cancel, SubmitAll, SubmitIfActive, Awake, Busy;
    var s := w.sink;
    if a.Begin? {
      SubmitAllMoves(s.(status := ACTIVE), d);
    } else if a.Give? {
      BufferAccepted(s, d, a.kind, a.memory);
      hide SubmitEvent;
    } else if w.worker.Fetching? {
      DeliverStep(s, d, w.worker.at.taken.transfer);
      hide Deliver;
    } else {
      DrainStep(s, d, w.client.at.taken.transfer);
      hide Drain;
    }
  }

  lemma CompletedByClient(w: World, d: Setup, a: Action)
    requires Sound(w, d) && Enabled(w, d, a) && !a.Begin? && !a.Give? && !a.Resume?
    ensures var v := Step(w, d, a); w.returned + w.sink.completed <= v.returned + v.sink.completed
  {
    hide Sound, Select, Callback, Cancel, ReturnEvents;
    var s := w.sink;
    if a.Halt? { ReturnEventsAll(s.(status := ATTACHED, usb := Cancel(s.usb))); }
    if s.completed != [] { assert (w.returned + [s.completed[0]]) + s.completed[1..] == w.returned + s.completed; }
  }

  lemma SelectPrefix(p: seq<Ticket>, q: seq<Ticket>, data: bool)
    requires p <= q
    ensures Select(p, data) <= Select(q, data)
  {
    assert q == p + q[|p|..];
    SelectJoin(p, q[|p|..], data);
  }

  lemma RecordedOn(all: seq<Ticket>, past: seq<Epoch>, carried: nat, done: seq<Ticket>, line: seq<Ticket>,
                   now: seq<Ticket>, more: seq<Ticket>)
    requires Recorded(all, past, carried, done, line) && done <= now
    ensures Recorded(all + more, past, carried, now, line + more)
  {
    assert now[..carried] == done[..carried];
    assert (line + more)[carried..] == line[carried..] + more;
  }

  /** Closing an attachment whose every ticket is completed or thrown away. */
  lemma RecordedClosed(all: seq<Ticket>, past: seq<Epoch>, carried: nat, done: seq<Ticket>, lost: seq<Ticket>)
    requires Recorded(all, past, carried, done, done + lost)
    ensures Recorded(all, past + [Epoch(After(done, carried), lost)], |done|, done, done)
  {
    EpochSnoc(past, Epoch(done[carried..], lost));
    assert done[..carried] + done[carried..] == done == done[..|done|];
    assert (done + lost)[carried..] == done[carried..] + lost;
    assert done[|done|..] == [];
    assert all == Account(past + [Epoch(done[carried..], lost)]) + [];
  }

  lemma ChronicleAttach(w: World, d: Setup)
    requires Sound(w, d) && Ledger(w) && Chronicle(w) && Enabled(w, d, Attach)
    ensures Chronicle(Step(w, d, Attach))
  {
    hide Select, Linked, Awake, Busy, Ascending;
    var h, ts := w.history, w.returned + w.sink.completed;
    assert w.sink.pending + w.sink.queued == [];
    assert w.data == Select(ts, true) + w.lost;
    assert w.notices == Select(ts, false) + w.lostNotices;
    RecordedClosed(h.accepted, h.past, h.carried, Select(ts, true), w.lost);
    RecordedClosed(h.told, h.pastTold, h.carriedTold, Select(ts, false), w.lostNotices);
    hide Recorded;
  }

  /** A step within one attachment: at most one ticket more, and it is new. */
  lemma ChronicleOn(w: World, v: World, data: seq<Ticket>, notices: seq<Ticket>)
    requires Chronicle(w) && w.returned + w.sink.completed <= v.returned + v.sink.completed
    requires v.data == w.data + data && v.notices == w.notices + notices
    requires v.history == w.history.(accepted := w.history.accepted + data, told := w.history.told + notices)
    requires w.sink.nextToken <= v.sink.nextToken && |data| + |notices| <= 1
    requires data + notices != [] ==> (data + notices)[0].token == w.sink.nextToken < v.sink.nextToken
    ensures Chronicle(v)
  {
    var h, ts, us := w.history, w.returned + w.sink.completed, v.returned + v.sink.completed;
    SelectPrefix(ts, us, true);
    SelectPrefix(ts, us, false);
    RecordedOn(h.accepted, h.past, h.carried, Select(ts, true), w.data, Select(us, true), data);
    RecordedOn(h.told, h.pastTold, h.carriedTold, Select(ts, false), w.notices, Select(us, false), notices);
    AscendingMore(h.accepted, w.sink.nextToken, data, v.sink.nextToken);
    AscendingMore(h.told, w.sink.nextToken, notices, v.sink.nextToken);
    hide Select, Recorded, Ascending;
  }

  lemma AscendingMore(ts: seq<Ticket>, next: nat, more: seq<Ticket>, after: nat)
    requires Ascending(ts, next) && next <= after && |more| <= 1 && (more != [] ==> more[0].token == next < after)
    ensures Ascending(ts + more, after)
  {}

  lemma ChronicleStep(w: World, d: Setup, a: Action)
    requires Suitable(d) && Sound(w, d) && Ledger(w) && Chronicle(w) && Enabled(w, d, a)
    ensures Chronicle(Step(w, d, a))
  {
    if a.Attach? {
      ChronicleAttach(w, d);
    } else {
      CompletedGrows(w, d, a);
      NextTokens(w, d, a);
      var v := Step(w, d, a);
      hide Step, Suitable, Sound, Ledger, Chronicle, Enabled;
      ChronicleOn(w, v, After(v.data, |w.data|), After(v.notices, |w.notices|));
    }
  }

  /** What a step does to the histories, other than Attach. */
  lemma NextTokens(w: World, d: Setup, a: Action)
    requires Suitable(d) && Sound(w, d) && Enabled(w, d, a) && !a.Attach?
    ensures var v := Step(w, d, a);
      var data, notices := After(v.data, |w.data|), After(v.notices, |w.notices|);
      && v.data == w.data + data && v.notices == w.notices + notices
      && v.history == w.history.(accepted := w.history.accepted + data, told := w.history.told + notices)
      && w.sink.nextToken <= v.sink.nextToken && |data| + |notices| <= 1
      && (data + notices != [] ==> (data + notices)[0].token == w.sink.nextToken < v.sink.nextToken)
  {
    if a.Give? {
      GiveTokens(w, d, a);
      hide Sound, Enabled, Step;
    } else {
      OtherTokens(w, d, a);
      assert w.history.accepted + [] == w.history.accepted && w.history.told + [] == w.history.told;
      assert w.data + [] == w.data && w.notices + [] == w.notices;
      hide Sound, Enabled, Step;
    }
  }

  lemma GiveTokens(w: World, d: Setup, a: Action)
    requires Suitable(d) && Sound(w, d) && Enabled(w, d, a) && a.Give?
    ensures var v := Step(w, d, a);
      var data, notices := After(v.data, |w.data|), After(v.notices, |w.notices|);
      && v.data == w.data + data && v.notices == w.notices + notices
      && v.history == w.history.(accepted := w.history.accepted + data, told := w.history.told + notices)
      && w.sink.nextToken <= v.sink.nextToken && |data| + |notices| <= 1
      && (data + notices != [] ==> (data + notices)[0].token == w.sink.nextToken < v.sink.nextToken)
  {
    hide Direct, Paired, Rising, Suitable, Select, Callback, Cancel, SubmitAll, SubmitIfActive, Awake, Busy;
    var s, h := w.sink, w.history;
    assert h.accepted + [] == h.accepted && h.told + [] == h.told && w.data + [] == w.data && w.notices + []
      == w.notices;
    var b := Buf(Ticket(s.nextToken, a.kind == TYPE_DATA), a.memory);
    var v := s.(nextToken := s.nextToken + 1, contents := s.contents[a.memory := Content(TYPE_NONE, 0)],
                queued := s.queued + [b]);
    LinkedHere(s, v, d, Hand(w));
    SubmitIfActiveKeeps(v, d, Hand(w));
  }

  lemma OtherTokens(w: World, d: Setup, a: Action)
    requires Suitable(d) && Sound(w, d) && Enabled(w, d, a) && !a.Attach? && !a.Give?
    ensures var v := Step(w, d, a);
      v.data == w.data && v.notices == w.notices && v.history == w.history && v.sink.nextToken == w.sink.nextToken
  {
    hide Direct, Paired, Rising, Suitable, Select, Callback, Cancel, SubmitAll, SubmitIfActive, Awake, Busy;
    var s := w.sink;
    if a.Begin? {
      SubmitAllKeeps(s.(status := ACTIVE), d, Hand(w));
    } else if a.Halt? {
      ReturnEventsAll(s.(status := ATTACHED, usb := Cancel(s.usb)));
    } else if a.Resume? && w.worker.Fetching? {
      DeliverStep(s, d, w.worker.at.taken.transfer);
      hide Deliver;
    } else if a.Resume? {
      DrainStep(s, d, w.client.at.taken.transfer);
      hide Drain;
    }
  }

  // ---------------------------------------------------------------- all runs

  lemma {:induction false} SafeRun(w: World, d: Setup, actions: seq<Action>)
    requires Suitable(d) && Sound(w, d) && Ledger(w) && Chronicle(w)
    ensures var v := Run(w, d, actions); Sound(v, d) && Ledger(v) && Chronicle(v)
    decreases |actions|
  {
    if actions == [] {
    } else {
      hide Suitable, Sound, Ledger, Chronicle, Step, Enabled;
      var a := actions[0];
      if Enabled(w, d, a) {
        SoundStep(w, d, a);
        LedgerStep(w, d, a);
        ChronicleStep(w, d, a);
        SafeRun(Step(w, d, a), d, actions[1..]);
      } else {
        SafeRun(w, d, actions[1..]);
      }
    }
  }

  lemma Safe(d: Setup, actions: seq<Action>)
    requires Suitable(d)
    ensures var w := Run(START, d, actions); Sound(w, d) && Ledger(w) && Chronicle(w)
  {
    SafeRun(START, d, actions);
  }

  /** Exactly once, in order, over all attachments: at every point of every run the data tickets ever
      accepted are, for each earlier attachment, those completed and those Detach threw away, and then those
      completed in this one, thrown away, pending and queued; those completed, attachment after attachment,
      are the data tickets that WaitForEvent has returned or will return next.  The numbers ascend, so no
      ticket is there twice.  Event tickets likewise. */
  lemma ExactlyOnceInOrder(d: Setup, actions: seq<Action>) returns (given: seq<Ticket>, told: seq<Ticket>)
    requires Suitable(d)
    ensures var w := Run(START, d, actions);
      var h := w.history;
      && h.accepted == Account(h.past) + (given + w.lost + Tickets(w.sink.pending) + Tickets(w.sink.queued))
      && Select(w.returned, true) + Select(w.sink.completed, true) == Given(h.past) + given
      && h.told == Account(h.pastTold) + (told + w.lostNotices + Tickets(w.sink.events))
      && Select(w.returned, false) + Select(w.sink.completed, false) == Given(h.pastTold) + told
      && Ascending(h.accepted, w.sink.nextToken) && Ascending(h.told, w.sink.nextToken)
  {
    Safe(d, actions);
    hide Sound, Run;
    var w := Run(START, d, actions);
    given := DataSpelled(w);
    told := ToldSpelled(w);
  }

  lemma DataSpelled(w: World) returns (given: seq<Ticket>)
    requires Chronicle(w) && Ledger(w)
    ensures var h := w.history;
      && h.accepted == Account(h.past) + (given + w.lost + Tickets(w.sink.pending) + Tickets(w.sink.queued))
      && Select(w.returned, true) + Select(w.sink.completed, true) == Given(h.past) + given
  {
    var h, ts := w.history, Select(w.returned + w.sink.completed, true);
    var others := w.lost + Tickets(w.sink.pending + w.sink.queued);
    assert w.data == ts + w.lost + Tickets(w.sink.pending + w.sink.queued);
    SelectJoin(w.returned, w.sink.completed, true);
    TicketsJoin(w.sink.pending, w.sink.queued);
    hide Select, Tickets, Ledger;
    assert w.data == ts + others;
    Spelled(h.accepted, h.past, h.carried, ts, others);
    hide Chronicle, Recorded, Account, Given;
    given := ts[h.carried..];
    Regroup(given, w.lost, Tickets(w.sink.pending), Tickets(w.sink.queued));
  }

  lemma ToldSpelled(w: World) returns (told: seq<Ticket>)
    requires Chronicle(w) && Ledger(w)
    ensures var h := w.history;
      && h.told == Account(h.pastTold) + (told + w.lostNotices + Tickets(w.sink.events))
      && Select(w.returned, false) + Select(w.sink.completed, false) == Given(h.pastTold) + told
  {
    var h, ts := w.history, Select(w.returned + w.sink.completed, false);
    var others := w.lostNotices + Tickets(w.sink.events);
    assert w.notices == ts + w.lostNotices + Tickets(w.sink.events);
    SelectJoin(w.returned, w.sink.completed, false);
    hide Select, Tickets, Ledger;
    assert w.notices == ts + others;
    Spelled(h.told, h.pastTold, h.carriedTold, ts, others);
    hide Chronicle, Recorded, Account, Given;
    told := ts[h.carriedTold..];
    Regroup(told, w.lostNotices, Tickets(w.sink.events), []);
    assert told + w.lostNotices + Tickets(w.sink.events) + [] == told + w.lostNotices + Tickets(w.sink.events);
    assert Tickets(w.sink.events) + [] == Tickets(w.sink.events);
  }

  lemma Regroup(a: seq<Ticket>, b: seq<Ticket>, c: seq<Ticket>, d: seq<Ticket>)
    ensures a + b + c + d == a + (b + (c + d))
  {}

  lemma Spelled(all: seq<Ticket>, past: seq<Epoch>, carried: nat, done: seq<Ticket>, others: seq<Ticket>)
    ensures Recorded(all, past, carried, done, done + others) ==>
      carried <= |done| && done == Given(past) + done[carried..] && all == Account(past) + (done[carried..] + others)
  {
    if Recorded(all, past, carried, done, done + others) {
      assert (done + others)[carried..] == done[carried..] + others;
    }
  }

  /** Lock-step of the two layers whenever m_lock is free: one USB token for each pending buffer, in
      order, each for a transfer into that buffer's memory. */
  lemma LockStep(d: Setup, actions: seq<Action>, i: nat)
    requires Suitable(d)
    requires i < |Run(START, d, actions).sink.pending|
    ensures var w := Run(START, d, actions);
      var owed := Owed(w.sink.usb, d.endpoint, Hand(w));
      && |w.sink.tokens| == |w.sink.pending| == |owed|
      && w.sink.tokens[i] == owed[i].token && w.sink.pending[i].memory == owed[i].memory
  {
    Safe(d, actions);
    hide Run;
  }

  /** When a thread has its transfer and takes the lock back, the transfer is the one the front token
      waits for, and its result is written to the buffer whose memory it filled, to no other: its length if it
      succeeded and else nothing, as an error if it failed and else as data. */
  lemma RightBuffer(d: Setup, actions: seq<Action>)
    requires Suitable(d)
    requires Enabled(Run(START, d, actions), d, Resume)
    ensures var w := Run(START, d, actions);
      && At(w).taken.Some? && w.sink.tokens != []
      && var t := At(w).taken.transfer;
      && t.token == w.sink.tokens[0]
      && w.sink.tokens[1..] <= Step(w, d, Resume).sink.tokens
      && Step(w, d, Resume).sink.contents
        == w.sink.contents[t.memory := Content(if t.status == FAILED then TYPE_ERROR else TYPE_DATA,
                                               if t.status == SUCCEEDED then t.used else 0)]
  {
    Safe(d, actions);
    var w := Run(START, d, actions);
    hide Run, Step, Ledger;
    if w.worker.Fetching? { DeliverRight(w, d); } else { DrainRight(w, d); }
  }

  lemma DrainRight(w: World, d: Setup)
    requires Suitable(d) && Sound(w, d) && Enabled(w, d, Resume) && !w.worker.Fetching?
    ensures var t := At(w).taken.transfer; var v := Step(w, d, Resume).sink;
      && w.sink.tokens != [] && t.token == w.sink.tokens[0] && w.sink.tokens[1..] <= v.tokens
      && v.contents == w.sink.contents[t.memory := Content(if t.status == FAILED then TYPE_ERROR else TYPE_DATA,
                                                           if t.status == SUCCEEDED then t.used else 0)]
  {
    DrainStep(w.sink, d, w.client.at.taken.transfer);
    AbsorbStep(w.sink, d, w.client.at.taken.transfer);
    hide Drain, Absorb, Direct, Paired, Rising, Awake, Busy;
  }

  lemma DeliverRight(w: World, d: Setup)
    requires Suitable(d) && Sound(w, d) && Enabled(w, d, Resume) && w.worker.Fetching?
    ensures var t := At(w).taken.transfer; var v := Step(w, d, Resume).sink;
      && w.sink.tokens != [] && t.token == w.sink.tokens[0] && w.sink.tokens[1..] <= v.tokens
      && v.contents == w.sink.contents[t.memory := Content(if t.status == FAILED then TYPE_ERROR else TYPE_DATA,
                                                           if t.status == SUCCEEDED then t.used else 0)]
  {
    AbsorbStep(w.sink, d, w.worker.at.taken.transfer);
    var v := Absorb(w.sink, w.sink.pending[0], At(w).taken).0.(pending := w.sink.pending[1..]);
    hide Absorb, Linked, Awake, Busy, SubmitIfActive;
    SubmitIfActiveKeeps(v, d, None);
    TokensGrow(v, d);
  }

  lemma {:induction false} TokensGrow(s: Sink, d: Setup)
    ensures s.tokens <= SubmitAll(s, d).tokens && s.tokens <= SubmitIfActive(s, d).tokens
    decreases |s.queued|
  {
    if d.limit <= |s.pending| || s.queued == [] {
    } else {
      TokensGrow(SubmitOne(s, d), d);
    }
  }

  /** The cap above makes the queue below unreachable: every transfer goes straight in flight, and
      cancelling reorders nothing. */
  lemma NothingQueuedBelow(d: Setup, actions: seq<Action>)
    requires Suitable(d)
    ensures var u := Run(START, d, actions).sink.usb;
      && u.queued == [] && |Flight(u.flights, d.endpoint)| <= d.limit
      && Order(Cancel(u), d.endpoint) == Order(u, d.endpoint)
  {
    Safe(d, actions);
    var w := Run(START, d, actions);
    hide Run;
    assert |Owed(w.sink.usb, d.endpoint, Hand(w))| <= d.limit;
    CancelOrder(w.sink.usb, d.endpoint);
  }

  /** No lost wake-up, work conservation and the cap, in every reachable state. */
  lemma NoLostWakeup(d: Setup, actions: seq<Action>)
    requires Suitable(d)
    ensures var w := Run(START, d, actions);
      && (w.worker.Parked? && w.sink.pendingCond != Waiter(true) ==> w.sink.pending == [] && w.sink.status != DETACHED)
      && (w.client.Awaiting? && w.sink.completedCond != Waiter(true) ==> w.sink.completed == [])
      && (w.sink.status == ACTIVE ==> |w.sink.pending| == d.limit || w.sink.queued == [])
      && |w.sink.pending| <= d.limit
  {
    Safe(d, actions);
    hide Run;
  }

  // ---------------------------------------------------------------- Stop

  /** Stop leaves the sink attached, tells libusb to cancel all it has, and completes every event
      buffer in order. */
  lemma HaltCancels(w: World, d: Setup)
    requires Suitable(d) && Sound(w, d) && Enabled(w, d, Halt) && w.sink.status == ACTIVE
    ensures var s := Step(w, d, Halt).sink;
      && s.status == ATTACHED && AllAsked(s.usb, d)
      && s.events == [] && s.completed == w.sink.completed + Tickets(w.sink.events)
      && s.pending == w.sink.pending && s.queued == w.sink.queued
  {
    hide ReturnEvents, Cancel, Direct, Paired, Rising;
    CancelStep(w.sink, d, Hand(w));
    ReturnEventsAll(w.sink.(status := ATTACHED, usb := Cancel(w.sink.usb)));
  }

  /** A move of the data thread or the device. */
  predicate Downstream(a: Action) {
    a.Guard? || a.Wake? || a.Enter? || a.Leave? || a.Resume? || a.Device?
  }

  /** How far a stopped sink is from having nothing pending. */
  function Backlog(w: World, d: Setup): nat {
    15 * |w.sink.pending| + |Flight(w.sink.usb.flights, d.endpoint)|
    + match w.worker {
        case Parked => 6
        case Entering => 5
        case Fetching(Calling, _) => 4
        case Fetching(Inside, _) => 3
        case Fetching(Back(_), _) => 2
        case _ => 0
      }
  }

  /** What the client has or will have of the data buffers handed to the device, in order. */
  function Returning(w: World): seq<Ticket> {
    Select(w.returned + w.sink.completed, true) + Tickets(w.sink.pending)
  }

  lemma StoppedMove(w: World, d: Setup, a: Action)
    requires Suitable(d) && Sound(w, d) && Ledger(w) && w.sink.status == ATTACHED && w.sink.pending != []
    requires Enabled(w, d, a) && Downstream(a)
    ensures var v := Step(w, d, a);
      && Backlog(v, d) < Backlog(w, d) && v.sink.status == ATTACHED && Returning(v) == Returning(w)
      && (AllAsked(w.sink.usb, d) ==> AllAsked(v.sink.usb, d))
  {
    hide Suitable, Awake, Busy, Select, Tickets, Callback, Ledger;
    match a {
      case Device(status, used, lucky) =>
        DeviceStep(w.sink, d, None, status, used, lucky);
      case Resume =>
        StoppedResume(w, d);
      case _ =>
    }
  }

  lemma StoppedResume(w: World, d: Setup)
    requires Suitable(d) && Sound(w, d) && Ledger(w) && w.sink.status == ATTACHED && Enabled(w, d, Resume)
    ensures var v := Step(w, d, Resume);
      && |v.sink.pending| == |w.sink.pending| - 1 && v.worker == Entering && v.sink.usb == w.sink.usb
      && v.sink.status == ATTACHED && Returning(v) == Returning(w)
  {
    var s, b := w.sink, w.sink.pending[0];
    assert b in s.pending + s.queued;
    AbsorbStep(s, d, w.worker.at.taken.transfer);
    assert s.pending == [b] + s.pending[1..];
    hide Absorb, Linked, Awake, Busy, Suitable, Ledger, Returning;
    ReturningFirst(w, b, s.pending[1..], Step(w, d, Resume));
  }

  lemma ReturningFirst(w: World, b: Buf, rest: seq<Buf>, v: World)
    requires w.sink.pending == [b] + rest && v.sink.pending == rest && b.ticket.data
    requires v.returned == w.returned && v.sink.completed == w.sink.completed + [b.ticket]
    ensures Returning(v) == Returning(w)
  {
    SelectCompleted(w.returned, w.sink.completed, b.ticket);
    TicketsFront(b, rest, []);
    assert ([b] + rest) + [] == [b] + rest && rest + [] == rest;
    Shift(Select(w.returned + w.sink.completed, true), b.ticket, Tickets(rest));
    hide Select, Tickets;
  }

  /** The client's moves, short of Start and Detach, leave that alone. */
  lemma StoppedClient(w: World, d: Setup, a: Action)
    requires Sound(w, d) && Ledger(w) && w.sink.status == ATTACHED
    requires Enabled(w, d, a) && !Downstream(a) && !a.Begin? && !a.Detach?
    ensures var v := Step(w, d, a);
      && v.sink.status == ATTACHED && v.sink.pending == w.sink.pending && v.sink.usb == w.sink.usb
      && v.worker == w.worker && Returning(v) == Returning(w)
  {
    hide Linked, Awake, Busy, Returning, Ledger, Select;
    var v := Step(w, d, a);
    if a.Notice? { StoppedNotice(w, a.kind); }
    else if a.Ask? || a.Rouse? || a.Expire? { StoppedReturn(w); }
    else { ReturningSame(w, v); }
  }

  lemma ReturningSame(w: World, v: World)
    requires v.returned + v.sink.completed == w.returned + w.sink.completed && v.sink.pending == w.sink.pending
    ensures Returning(v) == Returning(w)
  {}

  lemma StoppedNotice(w: World, kind: int)
    requires Ledger(w)
    ensures Returning(w.(sink := StateEvent(w.sink, kind))) == Returning(w)
  {
    var s := w.sink;
    if s.events != [] {
      assert s.events[0] in s.events;
      SelectCompleted(w.returned, s.completed, s.events[0].ticket);
    }
    hide Select, Tickets, Ascending, DataLine, NoticeLine;
  }

  lemma StoppedReturn(w: World)
    ensures Returning(Return(w)) == Returning(w) && Returning(AwaitOrReturn(w)) == Returning(w)
  {
    var c := w.sink.completed;
    if c != [] { assert (w.returned + [c[0]]) + c[1..] == w.returned + c; }
    hide Returning;
    ReturningSame(w, Return(w));
    ReturningSame(w, AwaitOrReturn(w));
  }

  /** While buffers are pending some downstream move is possible, and when libusb has been told to
      cancel everything, the device's is one it was told to make. */
  lemma StoppedMoves(w: World, d: Setup, status: Status) returns (a: Action)
    requires Suitable(d) && Sound(w, d) && w.sink.status == ATTACHED && w.sink.pending != []
    ensures Enabled(w, d, a) && Downstream(a) && (a.Device? ==> a.status == status)
    ensures a.Device? && AllAsked(w.sink.usb, d) ==> Flight(w.sink.usb.flights, d.endpoint)[0].token in w.sink.usb.asked
    ensures a.Wake? ==> w.sink.pendingCond == Waiter(true)
  {
    if w.worker.Entering? { return Guard; }
    if w.worker.Parked? { return Wake; }
    if At(w).Calling? { return Enter; }
    if At(w).Back? { return Resume; }
    if w.sink.usb.flag { return Leave; }
    var q := Flight(w.sink.usb.flights, d.endpoint);
    assert |Owed(w.sink.usb, d.endpoint, Hand(w))| == |w.sink.pending| > 0;
    assert q[0] in q;
    a := Device(status, 0, 0);
  }

  /** A stretch of a run after Stop, without Start or Detach, while buffers are still pending. */
  predicate Stopping(w: World, d: Setup, actions: seq<Action>)
    decreases |actions|
  {
    actions == []
    || (w.sink.pending != [] && Enabled(w, d, actions[0]) && !actions[0].Begin? && !actions[0].Detach?
        && Stopping(Step(w, d, actions[0]), d, actions[1..]))
  }

  function DownstreamMoves(actions: seq<Action>): nat {
    if actions == [] then 0 else (if Downstream(actions[0]) then 1 else 0) + DownstreamMoves(actions[1..])
  }

  /** A stopped sink gives everything back: in any interleaving with the client the data thread and
      the device make no more than `Backlog` moves while buffers are pending, and when none is, the
      client has, or finds completed, exactly the data buffers that were pending, in order. */
  lemma {:induction false} StopReturns(w: World, d: Setup, actions: seq<Action>)
    requires Suitable(d) && Sound(w, d) && Ledger(w) && w.sink.status == ATTACHED && Stopping(w, d, actions)
    ensures DownstreamMoves(actions) <= Backlog(w, d)
    ensures var v := Run(w, d, actions);
      v.sink.pending == [] ==> Select(v.returned + v.sink.completed, true) == Returning(w)
    decreases |actions|
  {
    if actions == [] {
      NoTickets(w.sink.pending);
    } else {
      var a := actions[0];
      SoundStep(w, d, a);
      LedgerStep(w, d, a);
      if Downstream(a) { StoppedMove(w, d, a); } else { StoppedClient(w, d, a); }
      hide Enabled, Step, Sound, Ledger, Suitable, Select, Tickets;
      StopReturns(Step(w, d, a), d, actions[1..]);
    }
  }

  // ---------------------------------------------------------------- Detach

  predicate InDetach(w: World) { w.client.Joining? || w.client.Draining? || w.client.Cleaning? }

  /** How far Detach is from its end. */
  function Distance(w: World, d: Setup): nat {
    15 * |w.sink.pending| + |Flight(w.sink.usb.flights, d.endpoint)|
    + match w.client {
        case Joining => (
          match w.worker
          case Fetching(Calling, _) => 14
          case Fetching(Inside, _) => 13
          case Fetching(Back(_), _) => 12
          case Entering => 11
          case Parked => 11
          case _ => 10)
        case Draining(Calling, _) => 4
        case Draining(Inside, _) => 3
        case Draining(Back(_), _) => 2
        case Cleaning => 1
        case _ => 0
      }
  }

  lemma NoticeDistance(w: World, d: Setup, kind: int)
    ensures var v := Step(w, d, Notice(kind)); Distance(v, d) == Distance(w, d) && v.client == w.client
  {}

  /** Whatever thread or device moves while Detach runs brings it closer to its end. */
  lemma DetachDescends(w: World, d: Setup, a: Action)
    requires Suitable(d) && Sound(w, d) && InDetach(w) && Enabled(w, d, a) && !a.Notice?
    ensures Distance(Step(w, d, a), d) < Distance(w, d)
    ensures InDetach(Step(w, d, a)) || a.Finish?
  {
    hide Suitable, Awake, Busy, Direct, Paired, Rising, Callback;
    match a {
      case Device(status, used, lucky) => DeviceStep(w.sink, d, None, status, used, lucky);
      case Resume =>
        if w.worker.Fetching? {
          AbsorbStep(w.sink, d, At(w).taken.transfer);
          hide Absorb;
        } else {
          DrainStep(w.sink, d, At(w).taken.transfer);
          hide Drain;
        }
      case Join => CancelStep(w.sink, d, Hand(w)); hide Cancel;
      case _ =>
    }
  }

  /** Detach is never stuck for good: some thread can move, or libusb holds a transfer of this sink,
      and in the drain loop one that it has been told to cancel. */
  lemma DetachMoves(w: World, d: Setup, status: Status) returns (a: Action)
    requires Suitable(d) && Sound(w, d) && InDetach(w)
    ensures Enabled(w, d, a) && !a.Notice? && (a.Device? ==> a.status == status)
    ensures a.Device? && w.client.Draining? ==> Flight(w.sink.usb.flights, d.endpoint)[0].token in w.sink.usb.asked
    ensures a.Wake? ==> w.sink.pendingCond == Waiter(true)
  {
    if w.client.Cleaning? { return Finish; }
    if w.client.Joining? {
      if w.worker.Exited? || w.worker.Absent? { return Join; }
      if w.worker.Entering? { return Guard; }
      if w.worker.Parked? { return Wake; }
    }
    if At(w).Calling? { return Enter; }
    if At(w).Back? { return Resume; }
    if w.sink.usb.flag { return Leave; }
    var q := Flight(w.sink.usb.flights, d.endpoint);
    assert |Owed(w.sink.usb, d.endpoint, Hand(w))| == |w.sink.pending| > 0;
    assert q[0] in q;
    a := Device(status, 0, 0);
  }

  /** A stretch of a run that stays inside one Detach up to its last action. */
  predicate Detaching(w: World, d: Setup, actions: seq<Action>)
    decreases |actions|
  {
    actions == []
    || (InDetach(w) && Enabled(w, d, actions[0]) && Detaching(Step(w, d, actions[0]), d, actions[1..]))
  }

  function Moves(actions: seq<Action>): nat {
    if actions == [] then 0 else (if actions[0].Notice? then 0 else 1) + Moves(actions[1..])
  }

  ghost predicate AllGone(w: World, d: Setup) {
    && w.sink.queued == [] && w.sink.pending == [] && w.sink.events == [] && w.sink.tokens == []
    && Outstanding(w.sink.usb) == 0 && Flight(w.sink.usb.flights, d.endpoint) == []
    && w.worker.Absent? && w.sink.status == DETACHED
  }

  /** Detach drains: it takes no more than `Distance` moves in any interleaving, and when it returns
      every list of the sink, the USB token queue and the device's own lists are empty. */
  lemma {:induction false} DetachDrains(w: World, d: Setup, actions: seq<Action>)
    requires Suitable(d) && Sound(w, d) && InDetach(w) && Detaching(w, d, actions)
    ensures Moves(actions) <= Distance(w, d)
    ensures var v := Run(w, d, actions); !InDetach(v) ==> v.client.Ready? && AllGone(v, d)
    decreases |actions|
  {
    if actions == [] {
    } else {
      var a, rest := actions[0], actions[1..];
      var v := Step(w, d, a);
      SoundStep(w, d, a);
      if a.Notice? { NoticeDistance(w, d, a.kind); } else { DetachDescends(w, d, a); }
      hide Enabled, Distance, Step;
      if InDetach(v) {
        DetachDrains(v, d, rest);
      } else {
        assert rest == [];
        FinishEmpties(w, d);
      }
    }
  }

  lemma FinishEmpties(w: World, d: Setup)
    requires Suitable(d) && Sound(w, d) && Enabled(w, d, Finish)
    ensures var v := Step(w, d, Finish); v.client.Ready? && AllGone(v, d)
  {
    assert Owed(w.sink.usb, d.endpoint, Hand(w)) == [];
  }

  /** While Detach waits in join, only the device can move things on exactly when the data thread sits
      in libusb with nothing completed: Detach asks for cancellation only after the join. */
  lemma JoinNeedsDevice(w: World, d: Setup)
    requires Suitable(d) && Sound(w, d) && w.client.Joining?
    ensures (forall a :: Enabled(w, d, a) ==> a.Device? || a.Notice?)
      <==> w.worker.Fetching? && w.worker.at.Inside? && !w.sink.usb.flag
  {
    var a := DetachMoves(w, d, CANCELLED);
    assert Enabled(w, d, a);
    if w.worker.Fetching? && w.worker.at.Inside? && w.sink.usb.flag { assert Enabled(w, d, Leave); }
    if w.worker.Fetching? && !w.worker.at.Inside? { assert !a.Device?; }
  }

  /** Such a state with nothing cancelled is a few steps from the start: submit, start, let the data
      thread go in, detach. */
  lemma DetachCanHang(d: Setup)
    requires Suitable(d) && d.limit > 0
    ensures var w := Run(START, d, [Attach, Give(TYPE_DATA, 0)] + ([Begin, Guard, Enter] + [Detach]));
      && w.client.Joining? && w.sink.usb.asked == {}
      && forall a :: Enabled(w, d, a) ==> a.Device? || a.Notice?
  {
    var first := [Attach, Give(TYPE_DATA, 0)];
    var w2 := Run(START, d, first);
    Submitted(d, w2);
    Safe(d, first);
    Started(d, w2);
    hide Run, Step, Enabled, Suitable, Sound, Ledger, MustWait;
    var w5 := GoneIn(d, Step(w2, d, Begin));
    RunSplit(START, d, first, [Begin, Guard, Enter] + [Detach]);
    RunThree(w2, d, Begin, Guard, Enter, [Detach]);
    RunOne(w5, d, Detach);
  }

  lemma Started(d: Setup, w: World)
    requires Suitable(d) && d.limit > 0 && Sound(w, d) && w.worker.Entering? && w.client.Ready?
    requires w.sink.pending == [] && |w.sink.queued| == 1 && w.sink.usb == FRESH
    ensures Enabled(w, d, Begin)
    ensures var v := Step(w, d, Begin);
      && v.worker.Entering? && v.client.Ready? && v.sink.status == ACTIVE && |v.sink.pending| == 1
      && v.sink.usb.asked == {} && MustWait(v.sink.usb) && !v.sink.usb.flag
  {
    var s := w.sink.(status := ACTIVE);
    SubmitAllKeeps(s, d, None);
    hide SubmitAll;
    var v := SubmitAll(s, d);
    assert |v.pending| + |v.queued| == |v.pending + v.queued| == 1;
    assert |Owed(v.usb, d.endpoint, None)| == 1;
  }

  lemma GoneIn(d: Setup, w: World) returns (v: World)
    requires w.worker.Entering? && w.client.Ready? && w.sink.status == ACTIVE && |w.sink.pending| == 1
    requires w.sink.usb.asked == {} && MustWait(w.sink.usb) && !w.sink.usb.flag
    ensures Enabled(w, d, Guard) && Enabled(Step(w, d, Guard), d, Enter) && v == Step(Step(w, d, Guard), d, Enter)
    ensures Enabled(v, d, Detach)
    ensures var x := Step(v, d, Detach);
      x.client.Joining? && x.sink.usb.asked == {} && forall a :: Enabled(x, d, a) ==> a.Device? || a.Notice?
  {
    v := Step(Step(w, d, Guard), d, Enter);
  }

  lemma Submitted(d: Setup, w: World)
    requires w == Run(START, d, [Attach, Give(TYPE_DATA, 0)])
    ensures w.sink == START.sink.(status := ATTACHED, nextToken := 1, queued := [Buf(Ticket(0, true), 0)],
                                  contents := map[0 := Content(TYPE_NONE, 0)])
    ensures w.worker == Entering && w.client == Ready
  {
    var all := [Attach, Give(TYPE_DATA, 0)];
    assert all[0] == Attach && all[1..] == [Give(TYPE_DATA, 0)] && all[1..][1..] == [];
    var w1 := Step(START, d, Attach);
    assert Run(START, d, all) == Run(w1, d, all[1..]);
    assert Run(w1, d, all[1..]) == Step(w1, d, Give(TYPE_DATA, 0));
  }

  lemma {:induction false} RunSplit(w: World, d: Setup, p: seq<Action>, q: seq<Action>)
    ensures Run(w, d, p + q) == Run(Run(w, d, p), d, q)
    decreases |p|
  {
    hide Enabled, Step;
    if p == [] { assert p + q == q; }
    else {
      assert (p + q)[0] == p[0] && (p + q)[1..] == p[1..] + q;
      RunSplit(if Enabled(w, d, p[0]) then Step(w, d, p[0]) else w, d, p[1..], q);
    }
  }

  lemma RunOne(w: World, d: Setup, a: Action)
    requires Enabled(w, d, a)
    ensures Run(w, d, [a]) == Step(w, d, a)
  {
    hide Enabled, Step;
    assert [a][1..] == [];
  }

  lemma RunThree(w: World, d: Setup, a: Action, b: Action, c: Action, rest: seq<Action>)
    requires Enabled(w, d, a) && Enabled(Step(w, d, a), d, b) && Enabled(Step(Step(w, d, a), d, b), d, c)
    ensures Run(w, d, [a, b, c] + rest) == Run(Step(Step(Step(w, d, a), d, b), d, c), d, rest)
  {
    hide Enabled, Step;
    RunSplit(w, d, [a], [b, c] + rest);
    RunOne(w, d, a);
    RunSplit(Step(w, d, a), d, [b], [c] + rest);
    RunOne(Step(w, d, a), d, b);
    RunSplit(Step(Step(w, d, a), d, b), d, [c], rest);
    RunOne(Step(Step(w, d, a), d, b), d, c);
    assert [a, b, c] + rest == [a] + ([b, c] + rest) && [b, c] + rest == [b] + ([c] + rest);
  }
}
