/**
  What becomes of a sink whose Detach left USB tokens behind.  m_dataTransferTokens is never cleared, so
  in every later attachment the front token waits for a transfer that will not come.
 */
module Reattach {
  import opened Wire
  import opened UsbDevice
  import opened TraceSink
  import opened TraceSystem
  import StreamingTrace

  /** No transfer with this token is anywhere in the device. */
  ghost predicate Nowhere(u: Usb, k: nat) {
    && k < u.nextToken
    && (forall x <- u.queued :: x.token != k)
    && (forall a <- u.flights, x <- u.flights[a] :: x.token != k)
    && (forall x <- u.completed :: x.token != k)
  }

  /** The front token is that of a transfer long gone. */
  ghost predicate Stale(s: Sink, k: nat) {
    && s.tokens != [] && s.tokens[0] == k && Nowhere(s.usb, k)
    && (forall b <- s.events :: !b.ticket.data)
  }

  predicate EmptyHanded(at: Phase, k: nat) {
    at.Back? && at.taken.Some? ==> at.taken.transfer.token != k
  }

  /** Nor does any thread have it in hand. */
  ghost predicate Blocked(w: World, k: nat) {
    && Stale(w.sink, k)
    && (w.worker.Fetching? ==> EmptyHanded(w.worker.at, k))
    && (w.client.Draining? ==> EmptyHanded(w.client.at, k))
  }

  lemma NowhereSubmit(u: Usb, eps: seq<Endpoint>, memory: nat, size: nat, address: byte, k: nat)
    requires Nowhere(u, k)
    ensures Nowhere(Submit(u, eps, address, 128, memory, size, true), k)
  {
    hide Usable;
  }

  lemma {:induction false} StaleSubmitAll(s: Sink, d: Setup, k: nat)
    requires Stale(s, k)
    ensures var v := SubmitAll(s, d); Stale(v, k) && v.completed == s.completed
    decreases |s.queued|
  {
    if |s.pending| < d.limit && s.queued != [] {
      NowhereSubmit(s.usb, d.endpoints, s.queued[0].memory, d.size, d.endpoint, k);
      hide Submit, Nowhere;
      StaleSubmitAll(SubmitOne(s, d), d, k);
    } else {
    }
  }

  lemma NowhereLand(u: Usb, token: nat, address: byte, status: Status, used: nat, k: nat)
    requires Nowhere(u, k)
    ensures Nowhere(Land(u, token, address, status, used), k)
  {
    var q := Flight(u.flights, address);
    var i := LastAt(q, token);
    hide LastAt;
    if i >= 0 {
      Without(q, i);
      assert q[i] in q;
    }
  }

  lemma {:induction false} NowhereRefill(u: Usb, address: byte, lucky: nat, k: nat)
    requires Nowhere(u, k)
    ensures Nowhere(Refill(u, address, lucky), k)
    decreases |u.queued|
  {
    if MAX_IN_FLIGHT <= |Flight(u.flights, address)| || u.queued == [] || lucky == 0 {
    } else {
      assert u.queued[0] in u.queued;
      NowhereRefill(Launched(u, address), address, lucky - 1, k);
    }
  }

  lemma {:induction false} NowhereCancelled(q: seq<Transfer>, k: nat)
    requires forall x <- q :: x.token != k
    ensures forall x <- AllCancelled(q) :: x.token != k
  {
    if q == [] {
    } else {
      assert q[0] in q;
      NowhereCancelled(q[1..], k);
    }
  }

  /** A completion that is not for the front token changes nothing, in the data thread as in Detach. */
  lemma NothingAbsorbed(s: Sink, d: Setup, b: Buf, taken: Taken, k: nat)
    requires Stale(s, k) && (taken.Some? ==> taken.transfer.token != k)
    ensures Deliver(s, d, b, taken) == s && Drain(s, b, taken) == (s, false)
  {
    hide Nowhere;
  }

  /** The data tickets that have been completed, returned or not. */
  function DataDone(w: World): seq<Ticket> { Select(w.returned + w.sink.completed, true) }

  lemma BlockedUsb(w: World, d: Setup, a: Action, k: nat)
    requires Blocked(w, k) && Enabled(w, d, a) && (a.Enter? || a.Leave? || a.Device?)
    ensures Blocked(TraceSystem.Step(w, d, a), k) && DataDone(TraceSystem.Step(w, d, a)) == DataDone(w)
  {
    if a.Device? { BlockedDevice(w, d, a, k); }
    else if a.Enter? { BlockedEnter(w, d, a, k); }
    else { BlockedLeave(w, d, a, k); }
    hide Blocked, DataDone, TraceSystem.Step, Enabled;
  }

  lemma BlockedEnter(w: World, d: Setup, a: Action, k: nat)
    requires Blocked(w, k) && Enabled(w, d, a) && a.Enter?
    ensures Blocked(TraceSystem.Step(w, d, a), k) && DataDone(TraceSystem.Step(w, d, a)) == DataDone(w)
  {
    hide Select;
  }

  lemma BlockedLeave(w: World, d: Setup, a: Action, k: nat)
    requires Blocked(w, k) && Enabled(w, d, a) && a.Leave?
    ensures Blocked(TraceSystem.Step(w, d, a), k) && DataDone(TraceSystem.Step(w, d, a)) == DataDone(w)
  {
    hide Select;
  }

  lemma BlockedDevice(w: World, d: Setup, a: Action, k: nat)
    requires Blocked(w, k) && Enabled(w, d, a) && a.Device?
    ensures Blocked(TraceSystem.Step(w, d, a), k) && DataDone(TraceSystem.Step(w, d, a)) == DataDone(w)
  {
    hide Select, Callback, Nowhere, Flight;
    NowhereCallback(w, d, a, k);
  }

  lemma NowhereCallback(w: World, d: Setup, a: Action, k: nat)
    requires Blocked(w, k) && Enabled(w, d, a) && a.Device?
    ensures var t := Flight(w.sink.usb.flights, d.endpoint)[0];
      Nowhere(Callback(w.sink.usb, t.token, d.endpoint, a.status, a.used, a.lucky), k)
    ensures var t := Flight(w.sink.usb.flights, d.endpoint)[0];
      k < Callback(w.sink.usb, t.token, d.endpoint, a.status, a.used, a.lucky).nextToken
  {
    var t := Flight(w.sink.usb.flights, d.endpoint)[0];
    NowhereLand(w.sink.usb, t.token, d.endpoint, a.status, a.used, k);
    NowhereRefill(Land(w.sink.usb, t.token, d.endpoint, a.status, a.used), d.endpoint, a.lucky, k);
    hide Land, Refill, Nowhere;
  }

  lemma BlockedClient(w: World, d: Setup, a: Action, k: nat)
    requires Blocked(w, k) && Enabled(w, d, a)
    requires a.Attach? || a.Ask? || a.Rouse? || a.Expire? || a.Detach? || a.Finish? || a.Guard? || a.Wake?
    ensures Blocked(TraceSystem.Step(w, d, a), k) && DataDone(TraceSystem.Step(w, d, a)) == DataDone(w)
  {
    var c := w.sink.completed;
    if c != [] { assert (w.returned + [c[0]]) + c[1..] == w.returned + c; }
    hide Select, Nowhere, Tickets;
  }

  lemma BlockedSubmit(w: World, d: Setup, a: Action, k: nat)
    requires Blocked(w, k) && Enabled(w, d, a) && (a.Begin? || a.Give?)
    ensures Blocked(TraceSystem.Step(w, d, a), k) && DataDone(TraceSystem.Step(w, d, a)) == DataDone(w)
  {
    hide Select, Nowhere, SubmitAll;
    var s := w.sink;
    if a.Begin? {
      StaleSubmitAll(s.(status := ACTIVE), d, k);
    } else {
      var b := Buf(Ticket(s.nextToken, a.kind == TYPE_DATA), a.memory);
      var v := s.(nextToken := s.nextToken + 1, contents := s.contents[a.memory := Content(TYPE_NONE, 0)]);
      StaleSubmitAll(v.(queued := v.queued + [b]), d, k);
    }
  }

  lemma BlockedEvents(w: World, d: Setup, a: Action, k: nat)
    requires Blocked(w, k) && Enabled(w, d, a) && (a.Halt? || a.Notice? || a.Join?)
    ensures Blocked(TraceSystem.Step(w, d, a), k) && DataDone(TraceSystem.Step(w, d, a)) == DataDone(w)
  {
    if a.Halt? { BlockedHalt(w, d, a, k); }
    else if a.Notice? { BlockedNotice(w, d, a, k); }
    else { BlockedJoin(w, d, a, k); }
    hide Blocked, DataDone, TraceSystem.Step, Enabled;
  }

  lemma NowhereCancel(u: Usb, k: nat)
    requires Nowhere(u, k)
    ensures Nowhere(Cancel(u), k)
  {
    NowhereCancelled(u.queued, k);
    hide AllCancelled;
  }

  lemma BlockedHalt(w: World, d: Setup, a: Action, k: nat)
    requires Blocked(w, k) && Enabled(w, d, a) && a.Halt?
    ensures Blocked(TraceSystem.Step(w, d, a), k) && DataDone(TraceSystem.Step(w, d, a)) == DataDone(w)
  {
    var s := w.sink;
    NowhereCancel(s.usb, k);
    ReturnEventsAll(s.(status := ATTACHED, usb := Cancel(s.usb)));
    AllTold(w.returned, s.completed, s.events);
    assert Cancel(s.usb).nextToken == s.usb.nextToken;
    hide Select, Tickets, Nowhere, Cancel, ReturnEvents;
  }

  lemma BlockedNotice(w: World, d: Setup, a: Action, k: nat)
    requires Blocked(w, k) && Enabled(w, d, a) && a.Notice?
    ensures Blocked(TraceSystem.Step(w, d, a), k) && DataDone(TraceSystem.Step(w, d, a)) == DataDone(w)
  {
    hide Select, Nowhere;
    var s := w.sink;
    if s.events != [] {
      assert s.events[0] in s.events;
      SelectCompleted(w.returned, s.completed, s.events[0].ticket);
    }
  }

  lemma BlockedJoin(w: World, d: Setup, a: Action, k: nat)
    requires Blocked(w, k) && Enabled(w, d, a) && a.Join?
    ensures Blocked(TraceSystem.Step(w, d, a), k) && DataDone(TraceSystem.Step(w, d, a)) == DataDone(w)
  {
    NowhereCancel(w.sink.usb, k);
    assert Cancel(w.sink.usb).nextToken == w.sink.usb.nextToken;
    hide Select, Nowhere, Cancel;
  }

  lemma BlockedStep(w: World, d: Setup, a: Action, k: nat)
    requires Blocked(w, k) && Enabled(w, d, a)
    ensures Blocked(TraceSystem.Step(w, d, a), k) && DataDone(TraceSystem.Step(w, d, a)) == DataDone(w)
  {
    if a.Resume? {
      if w.worker.Fetching? { NothingAbsorbed(w.sink, d, w.worker.buf, w.worker.at.taken, k); }
      else { NothingAbsorbed(w.sink, d, w.client.buf, w.client.at.taken, k); }
      hide Deliver, Drain, Nowhere, Select;
    } else {
      hide Blocked, TraceSystem.Step, Enabled, DataDone;
      if a.Enter? || a.Leave? || a.Device? { BlockedUsb(w, d, a, k); }
      else if a.Begin? || a.Give? { BlockedSubmit(w, d, a, k); }
      else if a.Halt? || a.Notice? || a.Join? { BlockedEvents(w, d, a, k); }
      else { BlockedClient(w, d, a, k); }
    }
  }

  /** With a stale token in front no data buffer is ever delivered: over every run, through any number of
      attachments, what WaitForEvent has returned and can return of data stays what it was. */
  lemma {:induction false} NothingDelivered(w: World, d: Setup, actions: seq<Action>, k: nat)
    requires Blocked(w, k)
    ensures var v := TraceSystem.Run(w, d, actions); Blocked(v, k) && DataDone(v) == DataDone(w)
    decreases |actions|
  {
    hide Blocked, TraceSystem.Step, Enabled, DataDone;
    if actions == [] {
    } else if Enabled(w, d, actions[0]) {
      BlockedStep(w, d, actions[0], k);
      NothingDelivered(TraceSystem.Step(w, d, actions[0]), d, actions[1..], k);
    } else {
      NothingDelivered(w, d, actions[1..], k);
    }
  }

  lemma {:induction false} NoneFlying(eps: seq<Endpoint>, fs: Flights, address: byte)
    requires Flying(eps, fs) == 0 && Listed(eps, address)
    ensures Flight(fs, address) == []
  {
    if eps[0].address == address {
    } else {
      assert eps == [eps[0]] + eps[1..];
      NoneFlying(eps[1..], fs, address);
    }
  }

  /** After a Detach that emptied the device but not the tokens, the sink is in that state. */
  lemma LeftBehind(s: Sink, d: Setup)
    requires Books(s.usb, d.endpoints) && Outstanding(s.usb) == 0
    requires s.tokens != [] && s.tokens[0] < s.usb.nextToken && s.events == []
    ensures Stale(s, s.tokens[0])
  {
    forall a | a in s.usb.flights ensures s.usb.flights[a] == [] {
      NoneFlying(d.endpoints, s.usb.flights, a);
    }
    hide Places, Flying, Listed;
  }

  /** So a Detach that leaves tokens behind ends the delivery of data for good. */
  lemma NeverAgain(w: World, d: Setup, actions: seq<Action>)
    requires w.client.Ready? && w.worker.Absent?
    requires Books(w.sink.usb, d.endpoints) && Outstanding(w.sink.usb) == 0
    requires w.sink.tokens != [] && w.sink.tokens[0] < w.sink.usb.nextToken && w.sink.events == []
    ensures DataDone(TraceSystem.Run(w, d, actions)) == DataDone(w)
  {
    LeftBehind(w.sink, d);
    hide Stale, Books, TraceSystem.Run, DataDone;
    NothingDelivered(w, d, actions, w.sink.tokens[0]);
  }

  // ---------------------------------------------------------------- how it comes about

  /** Two transfers in flight, the first on another endpoint. */
  function Two(control: byte, endpoint: byte, memory: nat, asked: set<nat>): Usb {
    FRESH.(nextToken := 2, count := 2, asked := asked,
           flights := map[control := [Transfer(0, control, 0, SUCCEEDED, 0)],
                          endpoint := [Transfer(1, endpoint, memory, SUCCEEDED, 0)]])
  }

  lemma BothCancelled(control: byte, endpoint: byte, memory: nat)
    requires control != endpoint
    ensures var calls := [Call(0, control, CANCELLED, 0, 0), Call(1, endpoint, CANCELLED, 0, 0)];
      var u := Two(control, endpoint, memory, {0, 1}).(waiting := true);
      var v := Calls(u, calls);
      && v == u.(completed := [Transfer(0, control, 0, CANCELLED, 0), Transfer(1, endpoint, memory, CANCELLED, 0)],
                 flights := map[control := [], endpoint := []], count := 0, flag := true)
  {
    hide Callback, LastAt;
    var calls := [Call(0, control, CANCELLED, 0, 0), Call(1, endpoint, CANCELLED, 0, 0)];
    var u := Two(control, endpoint, memory, {0, 1}).(waiting := true);
    var t0, t1 := Transfer(0, control, 0, SUCCEEDED, 0), Transfer(1, endpoint, memory, SUCCEEDED, 0);
    assert calls[1..] == [Call(1, endpoint, CANCELLED, 0, 0)] && calls[1..][1..] == [];
    LastAtFront([t0]);
    LastAtFront([t1]);
    assert [t0][1..] == [] && [t1][1..] == [];
    CallbackFront(u, control, CANCELLED, 0, 0);
    var w := Callback(u, 0, control, CANCELLED, 0, 0);
    assert w == u.(completed := [t0.(status := CANCELLED)], flights := map[control := [], endpoint := [t1]],
                   count := 1, flag := true);
    CallbackFront(w, endpoint, CANCELLED, 0, 0);
    var v := Callback(w, 1, endpoint, CANCELLED, 0, 0);
    assert w.completed + [t1.(status := CANCELLED)] == [t0.(status := CANCELLED), t1.(status := CANCELLED)];
    assert w.flights[endpoint := []] == map[control := [], endpoint := []];
    assert Calls(w, calls[1..]) == Calls(v, []);
    assert Calls(u, calls) == Calls(w, calls[1..]);
  }

  /** The same device with everything completed, and the first transfer handed over. */
  function OneLeft(control: byte, endpoint: byte, memory: nat): Usb {
    Two(control, endpoint, memory, {0, 1}).(completed := [Transfer(1, endpoint, memory, CANCELLED, 0)], count := 0,
                                            flights := map[control := [], endpoint := []], returned := [0])
  }

  lemma BothAsked(control: byte, endpoint: byte, memory: nat)
    requires control != endpoint
    ensures Cancel(Two(control, endpoint, memory, {})) == Two(control, endpoint, memory, {0, 1})
  {
    var fs: Flights := Two(control, endpoint, memory, {}).flights;
    assert fs[control][0] in fs[control] && fs[endpoint][0] in fs[endpoint];
    assert fs[control][0].token in AllTokens(fs) && fs[endpoint][0].token in AllTokens(fs);
    assert AllTokens(fs) == {0, 1};
  }

  lemma ControlFirst(control: byte, endpoint: byte, memory: nat)
    requires control != endpoint
    ensures Complete(Two(control, endpoint, memory, {0, 1}),
                     [[Call(0, control, CANCELLED, 0, 0), Call(1, endpoint, CANCELLED, 0, 0)]])
      == Ended(OneLeft(control, endpoint, memory), Some(Transfer(0, control, 0, CANCELLED, 0)))
  {
    var calls := [Call(0, control, CANCELLED, 0, 0), Call(1, endpoint, CANCELLED, 0, 0)];
    var u := Two(control, endpoint, memory, {0, 1});
    var t0, t1 := Transfer(0, control, 0, CANCELLED, 0), Transfer(1, endpoint, memory, CANCELLED, 0);
    BothCancelled(control, endpoint, memory);
    var done := Calls(u.(waiting := true), calls);
    assert [calls][1..] == [] && [calls][0] == calls;
    hide Calls;
    assert Pump(u.(waiting := true), [calls]) == Pump(done, []) == done;
    assert done.completed == [t0] + [t1] && done.completed[1..] == [t1] && [] + [0] == [0];
  }

  lemma DataNext(control: byte, endpoint: byte, memory: nat)
    ensures var u := OneLeft(control, endpoint, memory);
      var c := Complete(u, []);
      && c.Ended? && c.taken.Some? && c.usb == u.(completed := [], returned := [0, 1])
  {
    assert [0] + [1] == [0, 1];
  }

  /** The request on the control channel that attaching a sink submits, and one buffer; both cancelled by
      Detach, and completed in that order.  Detach comes to its end with the buffer's token left behind. */
  lemma ControlTransferLeavesToken(s: Sink, d: Setup, control: byte, b: Buf)
    requires control != d.endpoint && s.tokens == [1] && s.pending == [b]
    requires s.usb == Two(control, d.endpoint, b.memory, {})
    ensures var o := [[[Call(0, control, CANCELLED, 0, 0), Call(1, d.endpoint, CANCELLED, 0, 0)]], []];
      var (v, stuck) := StreamingTrace.CloseDown(s, o);
      && !stuck && v.tokens == [1] && v.pending == [] && Outstanding(v.usb) == 0 && Stale(v, 1)
  {
    var batches := [[Call(0, control, CANCELLED, 0, 0), Call(1, d.endpoint, CANCELLED, 0, 0)]];
    var o := [batches, []];
    var u := OneLeft(control, d.endpoint, b.memory);
    BothAsked(control, d.endpoint, b.memory);
    ControlFirst(control, d.endpoint, b.memory);
    LastCleaned(control, d.endpoint, b.memory);
    hide Complete, Cancel, AllTokens;
    assert o[1..] == [[]];
    StoppedAtOnce(s.(usb := Cancel(s.usb)), o, u);
    hide StreamingTrace.DrainLoop, StreamingTrace.CleanLoop;
  }

  /** A drain loop whose first transfer is not the one waited for. */
  lemma StoppedAtOnce(s: Sink, o: StreamingTrace.Oracle, u: Usb)
    requires s.pending != [] && o != [] && Complete(s.usb, o[0]).Ended?
    requires var c := Complete(s.usb, o[0]);
      c.usb == u && c.taken.Some? && s.tokens != [] && c.taken.transfer.token != s.tokens[0]
    ensures StreamingTrace.DrainLoop(s, o) == StreamingTrace.Drained(s.(usb := u), 1, false)
  {
    hide Complete;
  }

  lemma LastCleaned(control: byte, endpoint: byte, memory: nat)
    ensures var u := OneLeft(control, endpoint, memory);
      StreamingTrace.CleanLoop(u, [[]]) == StreamingTrace.Cleaned(u.(completed := [], returned := [0, 1]), false)
  {
    var u := OneLeft(control, endpoint, memory);
    var last := u.(completed := [], returned := [0, 1]);
    DataNext(control, endpoint, memory);
    hide Complete;
    assert Outstanding(u) == 1 && Outstanding(last) == 0;
    var o: StreamingTrace.Oracle := [[]];
    assert o[1..] == [];
    assert StreamingTrace.CleanLoop(last, []) == StreamingTrace.Cleaned(last, false);
  }

  /** And those two transfers are what the submissions lead to. */
  lemma TwoSubmitted(d: Setup, control: byte, memory: nat)
    requires Usable(d.endpoints, control, 128, 0) && Usable(d.endpoints, d.endpoint, 128, d.size)
    requires control != d.endpoint
    ensures var one := Submit(FRESH, d.endpoints, control, 128, 0, 0, true);
      Submit(one, d.endpoints, d.endpoint, 128, memory, d.size, true) == Two(control, d.endpoint, memory, {})
  {
    hide Usable;
    var t0, t1 := Transfer(0, control, 0, SUCCEEDED, 0), Transfer(1, d.endpoint, memory, SUCCEEDED, 0);
    assert [] + [t0] == [t0] && [] + [t1] == [t1];
    assert Submit(FRESH, d.endpoints, control, 128, 0, 0, true).flights == map[control := [t0]];
  }

  /** The callbacks of such a Detach: the control request's first. */
  function ControlBeforeData(control: byte, d: Setup): StreamingTrace.Oracle {
    [[[Call(0, control, CANCELLED, 0, 0), Call(1, d.endpoint, CANCELLED, 0, 0)]], []]
  }

  /** A sink attached on a fresh device, which submits the control request; one data buffer given; started. */
  function StartedSink(d: Setup, control: byte, memory: nat): Sink {
    var attached := START.sink.(status := ATTACHED, usb := Submit(FRESH, d.endpoints, control, 128, 0, 0, true));
    Start(SubmitEvent(attached, d, TYPE_DATA, memory).0, d, true).0
  }

  lemma OneStarted(d: Setup, control: byte, memory: nat)
    requires Suitable(d) && d.limit > 0 && Usable(d.endpoints, control, 128, 0) && control != d.endpoint
    ensures var s := StartedSink(d, control, memory);
      && s.tokens == [1] && s.pending == [Buf(Ticket(0, true), memory)] && s.usb == Two(control, d.endpoint, memory, {})
  {
    TwoSubmitted(d, control, memory);
    hide Usable, Submit;
    var one := Submit(FRESH, d.endpoints, control, 128, 0, 0, true);
    assert one.nextToken == 1 by { SubmitCounts(FRESH, d.endpoints, control, 0, 0); }
    var b := Buf(Ticket(0, true), memory);
    var given := SubmitEvent(START.sink.(status := ATTACHED, usb := one), d, TYPE_DATA, memory).0.(status := ACTIVE);
    assert given.queued == [] + [b] == [b];
    var after := SubmitOne(given, d);
    assert after.queued == [] && after.pending == [] + [b] == [b] && after.tokens == [] + [1] == [1];
    assert SubmitAll(after, d) == after;
    assert SubmitAll(given, d) == after;
  }

  lemma SubmitCounts(u: Usb, eps: seq<Endpoint>, address: byte, memory: nat, size: nat)
    ensures Submit(u, eps, address, 128, memory, size, true).nextToken == u.nextToken + 1
  {
    hide Usable;
  }

  /** From a fresh device: attach, give a buffer, start, detach with the control request completed first,
      and attach again.  No data is delivered in any run from there on. */
  lemma FreshToNever(d: Setup, control: byte, memory: nat, w: World, actions: seq<Action>)
    requires Suitable(d) && d.limit > 0 && Usable(d.endpoints, control, 128, 0) && control != d.endpoint
    requires var s := StartedSink(d, control, memory).(status := DETACHED);
      w.sink == StreamingTrace.CloseDown(s, ControlBeforeData(control, d)).0
    requires w.client.Ready? && w.worker.Absent?
    ensures var s := StartedSink(d, control, memory).(status := DETACHED);
      !StreamingTrace.CloseDown(s, ControlBeforeData(control, d)).1
    ensures Enabled(w, d, Attach) && DataDone(TraceSystem.Run(w, d, [Attach] + actions)) == DataDone(w)
  {
    OneStarted(d, control, memory);
    var s := StartedSink(d, control, memory).(status := DETACHED);
    hide StartedSink, StreamingTrace.CloseDown, TraceSystem.Run, DataDone, Usable, Stale;
    ControlTransferLeavesToken(s, d, control, Buf(Ticket(0, true), memory));
    NothingDelivered(w, d, [Attach] + actions, 1);
  }
}
