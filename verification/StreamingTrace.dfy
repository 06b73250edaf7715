/**
  The object behind one trace sink, its methods as the source has them, each shown to do to the
  fields what `TraceSink` says.  Where a method drops m_lock in the middle it is cut there.
 */
module StreamingTrace {
  import opened Wire
  import opened UsbDevice
  import opened TraceSink

  const TIMEOUT := 0x0204

  /** What completeTransfer meets on its successive calls: the libusb callbacks of each. */
  type Oracle = seq<seq<seq<Call>>>

  datatype Drained = Drained(sink: Sink, used: nat, stuck: bool)

  /** Detach's drain loop, with the count of completeTransfer calls it made. */
  function DrainLoop(s: Sink, o: Oracle): (r: Drained)
    ensures r.used <= |o|
    decreases |o|
  {
    if s.pending == [] then Drained(s, 0, false)
    else if o == [] then Drained(s, 0, true)
    else
      var c := Complete(s.usb, o[0]);
      if c.Stuck? then Drained(s.(usb := c.usb), 1, true)
      else
        var (v, more) := Drain(s.(usb := c.usb), s.pending[0], c.taken);
        if more then var r := DrainLoop(v, o[1..]); r.(used := r.used + 1)
        else Drained(v, 1, false)
  }

  datatype Cleaned = Cleaned(usb: Usb, stuck: bool)

  /** detachDevice's loop. */
  function CleanLoop(u: Usb, o: Oracle): Cleaned
    decreases |o|
  {
    if Outstanding(u) <= 0 then Cleaned(u, false)
    else if o == [] then Cleaned(u, true)
    else
      var c := Complete(u, o[0]);
      if c.Stuck? then Cleaned(c.usb, true)
      else if c.taken.None? then Cleaned(c.usb, false)
      else CleanLoop(c.usb, o[1..])
  }

  /** Detach from the point where the data thread has gone. */
  function CloseDown(s: Sink, o: Oracle): (Sink, bool) {
    var r := DrainLoop(s.(usb := Cancel(s.usb)), o);
    if r.stuck then (r.sink, true)
    else
      var c := CleanLoop(r.sink.usb, o[r.used..]);
      if c.stuck then (r.sink.(usb := c.usb), true) else (Close(r.sink.(usb := c.usb)), false)
  }

  class StreamingTrace {
    const setup: Setup
    const usb: UsbDeviceLinux
    var status: SinkStatus
    var queuedBuffers: seq<Buf>
    var pendingBuffers: seq<Buf>
    var eventBuffers: seq<Buf>
    var completedEventTokens: seq<Ticket>
    var nextToken: nat
    var pendingBuffersCond: Cond
    var completedEventCond: Cond
    var dataTransferTokens: seq<nat>
    var contents: map<nat, Content>

    ghost function State(): Sink
      reads this, usb
    {
      Sink(status, queuedBuffers, pendingBuffers, eventBuffers, completedEventTokens, nextToken,
           pendingBuffersCond, completedEventCond, dataTransferTokens, usb.State(), contents)
    }

    ghost predicate Valid()
      reads this, usb
    {
      usb.endpoints == setup.endpoints && Usable(setup.endpoints, setup.endpoint, 128, setup.size)
    }

    constructor (setup: Setup, usb: UsbDeviceLinux)
      requires usb.endpoints == setup.endpoints && Usable(setup.endpoints, setup.endpoint, 128, setup.size)
      ensures Valid() && this.setup == setup && this.usb == usb
      ensures State() == Sink(DETACHED, [], [], [], [], 0, NoWaiter, NoWaiter, [], usb.State(), map[])
    {
      this.setup, this.usb := setup, usb;
      status, nextToken := DETACHED, 0;
      queuedBuffers, pendingBuffers, eventBuffers, completedEventTokens := [], [], [], [];
      pendingBuffersCond, completedEventCond := NoWaiter, NoWaiter;
      dataTransferTokens, contents := [], map[];
    }

    /** submitBuffer of the USB layer, when the device accepts. */
    method SubmitBuffer(b: Buf)
      requires Valid()
      modifies this`dataTransferTokens, usb
      ensures Valid()
      ensures usb.State() == Submit(old(usb.State()), setup.endpoints, setup.endpoint, 128, b.memory, setup.size, true)
      ensures dataTransferTokens == old(dataTransferTokens) + [old(usb.nextToken)]
    {
      var token := usb.SubmitTransfer(setup.endpoint, 128, b.memory, setup.size, true);
      dataTransferTokens := dataTransferTokens + [token];
    }

    method SubmitBuffers()
      requires Valid()
      modifies this, usb
      ensures Valid() && State() == SubmitAll(old(State()), setup)
    {
      while |pendingBuffers| < setup.limit && queuedBuffers != []
        invariant Valid()
        invariant SubmitAll(State(), setup) == SubmitAll(old(State()), setup)
        decreases |queuedBuffers|
      {
        hide Submit, Usable;
        ghost var before := State();
        var b := queuedBuffers[0];
        SubmitBuffer(b);
        queuedBuffers := queuedBuffers[1..];
        pendingBuffers := pendingBuffers + [b];
        pendingBuffersCond := Notify(pendingBuffersCond);
        assert State() == SubmitOne(before, setup);
      }
    }

    method SubmitEventBuffer(kind: int, memory: nat) returns (r: Reply)
      requires Valid()
      modifies this, usb
      ensures Valid() && (State(), r) == SubmitEvent(old(State()), setup, kind, memory)
    {
      hide SubmitAll;
      if status == DETACHED { return Refused(SINK_NOT_ATTACHED); }
      var token := nextToken;
      nextToken := nextToken + 1;
      contents := contents[memory := Content(TYPE_NONE, 0)];
      var buf := Buf(Ticket(token, kind == TYPE_DATA), memory);
      if kind == TYPE_DATA {
        queuedBuffers := queuedBuffers + [buf];
        if status == ACTIVE { SubmitBuffers(); }
      } else if kind == TYPE_EVENT {
        eventBuffers := eventBuffers + [buf];
      } else {
        return Refused(TYPE_ERROR);
      }
      r := Token(token);
    }

    method StartSink(accepted: bool) returns (r: Reply)
      requires Valid()
      modifies this, usb
      ensures Valid() && (State(), r) == Start(old(State()), setup, accepted)
    {
      hide SubmitAll;
      if status == DETACHED { return Refused(SINK_NOT_ATTACHED); }
      status := ACTIVE;
      SubmitBuffers();
      r := if accepted then Token(0) else Raised;
    }

    method StopSink() returns (r: Reply)
      requires Valid()
      modifies this, usb
      ensures Valid() && (State(), r) == Stop(old(State()))
    {
      hide Cancel, Usable;
      if status != ACTIVE { return Refused(SINK_NOT_STARTED); }
      status := ATTACHED;
      usb.CancelTransfers();
      ghost var begun := State();
      while eventBuffers != []
        invariant Valid() && ReturnEvents(State()) == ReturnEvents(begun)
        decreases |eventBuffers|
      {
        var buf := eventBuffers[0];
        contents := contents[buf.memory := Content(TYPE_NONE, 0)];
        eventBuffers := eventBuffers[1..];
        completedEventTokens := completedEventTokens + [buf.ticket];
      }
      if completedEventTokens != [] { completedEventCond := Notify(completedEventCond); }
      r := Token(0);
    }

    method SendStateEvent(kind: int)
      requires Valid()
      modifies this
      ensures Valid() && State() == StateEvent(old(State()), kind)
    {
      if eventBuffers != [] {
        var buf := eventBuffers[0];
        contents := contents[buf.memory := Content(kind, UsedOf(contents, buf.memory))];
        eventBuffers := eventBuffers[1..];
        completedEventTokens := completedEventTokens + [buf.ticket];
        completedEventCond := Notify(completedEventCond);
      }
    }

    /** waitForBuffer from where it has the lock again. */
    method AbsorbTransfer(buf: Buf, taken: Taken) returns (got: bool)
      requires Valid()
      modifies this
      ensures Valid() && (State(), got) == Absorb(old(State()), buf, taken)
      ensures got <==>
          taken.Some? && old(dataTransferTokens) != [] && taken.transfer.token == old(dataTransferTokens)[0]
      ensures contents == if !got then old(contents) else
          var t := taken.transfer;
          old(contents)[buf.memory := Content(if t.status == FAILED then TYPE_ERROR else TYPE_DATA,
                                              if t.status == SUCCEEDED then t.used else 0)]
    {
      if taken.None? || dataTransferTokens == [] { return false; }
      if taken.transfer.token != dataTransferTokens[0] { return false; }
      dataTransferTokens := dataTransferTokens[1..];
      if taken.transfer.status == SUCCEEDED {
        contents := contents[buf.memory := Content(TYPE_DATA, taken.transfer.used)];
      } else if taken.transfer.status == CANCELLED {
        contents := contents[buf.memory := Content(TYPE_DATA, 0)];
      } else {
        contents := contents[buf.memory := Content(TYPE_ERROR, 0)];
      }
      got := true;
    }

    /** WaitForDataEvent from the same point. */
    method DeliverBuffer(buf: Buf, taken: Taken)
      requires Valid()
      modifies this, usb
      ensures Valid() && State() == Deliver(old(State()), setup, buf, taken)
    {
      hide SubmitAll, Absorb;
      var got := AbsorbTransfer(buf, taken);
      if got && pendingBuffers != [] {
        pendingBuffers := pendingBuffers[1..];
        if status == ACTIVE { SubmitBuffers(); }
        completedEventTokens := completedEventTokens + [buf.ticket];
        completedEventCond := Notify(completedEventCond);
      }
    }

    /** The end of WaitForEvent, woken or timed out. */
    method TakeEvent() returns (r: Reply)
      requires Valid()
      modifies this`completedEventTokens
      ensures Valid()
      ensures var was := old(completedEventTokens);
        r == if was == [] then Refused(TIMEOUT) else Token(was[0].token)
      ensures completedEventTokens == if old(completedEventTokens) == [] then [] else old(completedEventTokens)[1..]
    {
      if completedEventTokens == [] { return Refused(TIMEOUT); }
      r := Token(completedEventTokens[0].token);
      completedEventTokens := completedEventTokens[1..];
    }

    /** Detach's drain loop. */
    method DrainPending(o: Oracle) returns (used: nat, stuck: bool)
      requires Valid() && !usb.completedFlag && !usb.waiting
      modifies this, usb
      ensures Valid() && used <= |o| && DrainLoop(old(State()), o) == Drained(State(), used, stuck)
      ensures !stuck ==> !usb.completedFlag && !usb.waiting
    {
      used, stuck := 0, false;
      hide Usable, Absorb, Complete;
      while pendingBuffers != []
        invariant used <= |o| && !stuck && Valid() && !usb.completedFlag && !usb.waiting
        invariant var r := DrainLoop(State(), o[used..]);
          DrainLoop(old(State()), o) == r.(used := r.used + used)
        decreases |o| - used
      {
        if used == |o| { return used, true; }
        var buf := pendingBuffers[0];
        CompleteSettles(usb.State(), o[used]);
        var blocked, taken := usb.CompleteTransfer(o[used]);
        used := used + 1;
        if blocked { return used, true; }
        var got := AbsorbTransfer(buf, taken);
        if !got || pendingBuffers == [] { return; }
        pendingBuffers := pendingBuffers[1..];
      }
    }

    /** detachDevice's loop. */
    method CleanUp(o: Oracle) returns (stuck: bool)
      requires Valid() && !usb.completedFlag && !usb.waiting
      modifies usb
      ensures Valid() && CleanLoop(old(usb.State()), o) == Cleaned(usb.State(), stuck)
    {
      hide Usable, Complete;
      stuck := false;
      var i := 0;
      var left := usb.PendingTransfers();
      while left > 0
        invariant i <= |o| && Valid() && !usb.completedFlag && !usb.waiting && left == Outstanding(usb.State())
        invariant CleanLoop(usb.State(), o[i..]) == CleanLoop(old(usb.State()), o)
        decreases |o| - i
      {
        if i == |o| { return true; }
        CompleteSettles(usb.State(), o[i]);
        var blocked, taken := usb.CompleteTransfer(o[i]);
        if blocked { return true; }
        if taken.None? { return false; }
        i := i + 1;
        left := usb.PendingTransfers();
      }
    }

    /** Detach once the data thread has been joined. */
    method FinishDetach(o: Oracle) returns (stuck: bool)
      requires Valid() && !usb.completedFlag && !usb.waiting
      modifies this, usb
      ensures Valid() && (State(), stuck) == CloseDown(old(State()), o)
    {
      hide DrainLoop, CleanLoop, Usable, Cancel;
      CancelSettles(usb.State());
      usb.CancelTransfers();
      var used, s := DrainPending(o);
      if s { return true; }
      stuck := CleanUp(o[used..]);
      if stuck { return; }
      queuedBuffers, pendingBuffers, eventBuffers := [], [], [];
    }
  }

  lemma CompleteSettles(u: Usb, batches: seq<seq<Call>>)
    requires !u.flag && !u.waiting
    ensures var c := Complete(u, batches); c.Ended? ==> !c.usb.flag && !c.usb.waiting
  {}

  lemma CancelSettles(u: Usb)
    ensures Cancel(u).flag == u.flag && Cancel(u).waiting == u.waiting
  {}

  // ---------------------------------------------------------------- what a foreign completion does

  /** The tokens that successive calls of completeTransfer hand over, up to the first that does not. */
  function Handed(u: Usb, o: Oracle): seq<nat>
    decreases |o|
  {
    if o == [] then []
    else
      var c := Complete(u, o[0]);
      if c.Ended? && c.taken.Some? then [c.taken.transfer.token] + Handed(c.usb, o[1..]) else []
  }

  /** In any state of the device, the drain loop pops exactly the tokens that completeTransfer hands over
      in their order, and empties the pending list exactly when it hands over all of them: one transfer of
      another kind in between (the control channel's) ends the loop early and leaves the rest. */
  lemma {:induction false} DrainExact(s: Sink, o: Oracle, n: nat)
    requires |s.pending| == |s.tokens|
    requires n <= |s.tokens| && n <= |Handed(s.usb, o)| && Handed(s.usb, o)[..n] == s.tokens[..n]
    requires n == |s.tokens| || n == |Handed(s.usb, o)| || Handed(s.usb, o)[n] != s.tokens[n]
    ensures var r := DrainLoop(s, o);
      && r.sink.tokens == s.tokens[n..] && |r.sink.pending| == |s.pending| - n
      && (r.stuck ==> n == |Handed(s.usb, o)| < |s.tokens|)
    decreases n
  {
    hide Complete;
    if n == 0 {
    } else {
      var h := Handed(s.usb, o);
      var c := Complete(s.usb, o[0]);
      assert h[..n][0] == s.tokens[..n][0];
      var w := Drain(s.(usb := c.usb), s.pending[0], c.taken).0;
      assert w.tokens == s.tokens[1..];
      assert Handed(c.usb, o[1..]) == h[1..];
      assert h[1..][..n - 1] == h[..n][1..] && w.tokens[..n - 1] == s.tokens[..n][1..];
      DrainExact(w, o[1..], n - 1);
      assert w.tokens[n - 1..] == s.tokens[n..];
    }
  }

  // ---------------------------------------------------------------- what a misfiled transfer does

  /** With a misfiled transfer outstanding detachDevice never gets to the end of its loop, whatever libusb
      completes: the counter does not reach zero, and completeTransfer does not give up. */
  lemma {:induction false} CleanUpNeverEnds(u: Usb, eps: seq<Endpoint>, o: Oracle, t: Transfer, where: byte)
    requires Distinct(eps) && Books(u, eps) && !u.waiting && Misfiled(u, t, where)
    requires forall batches <- o, calls <- batches :: Known(eps, calls) && Own(t, calls)
    ensures CleanLoop(u, o).stuck
    decreases |o|
  {
    FlightCounted(eps, u.flights, where, t);
    if o == [] {
    } else {
      CompleteBooks(u, eps, o[0]);
      MisfiledComplete(u, t, where, o[0]);
      hide Books, Misfiled, Complete, Known, Own;
      var c := Complete(u, o[0]);
      if c.Ended? && c.taken.Some? { CleanUpNeverEnds(c.usb, eps, o[1..], t, where); }
    }
  }
}
