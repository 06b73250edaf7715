/**
  What running a command asks of the target's implementation, and what it makes of the answers
  (cswp/server/cswp_server_cmdint.c, cswp_server_impl.c).
 */
module Handlers {
  import opened Wire
  import opened Commands
  import opened Server
  import opened Replies
  import opened Dispatch

  /** The commands that are one call of the implementation, and that call. */
  function CallFor(c: Cmd): Option<Call> {
    match c
    case Open(dev) => Some(CallOpen(dev))
    case Close(dev) => Some(CallClose(dev))
    case SetConfig(dev, name, value) => Some(CallSetConfig(dev, name, value))
    case GetConfig(dev, name) => Some(CallGetConfig(dev, name))
    case GetCapabilities(dev) => Some(CallCapabilities(dev))
    case MemRead(dev, addr, size, access, flags) => Some(CallMemRead(dev, addr, size, access, flags))
    case MemWrite(dev, addr, access, flags, data) => Some(CallMemWrite(dev, addr, access, flags, data))
    case MemPoll(dev, addr, access, flags, tries, interval, mask, wanted) =>
      Some(CallMemPoll(dev, addr, access, flags, tries, interval, mask, wanted))
    case _ => None
  }

  /** `t` is as much of `whole` as fits an array of `size` bytes with its terminator. */
  predicate CutAt(t: CString, whole: CString, size: nat) {
    t <= whole && |t| < size && (|t| == |whole| || |t| + 1 == size)
  }

  /** `data` is `size` bytes: those of the answer, and zeros behind them. */
  predicate Padded(data: seq<byte>, answer: seq<byte>, size: nat) {
    |data| == size && forall i :: 0 <= i < size ==> data[i] == if i < |answer| then answer[i] else 0
  }

  /** The reply carries what the implementation answered. */
  predicate Carries(impl: Impl, c: Cmd, a: Answer, r: Resp) {
    if c.Open? then r.RText? && CutAt(r.text, impl.deviceText(c.dev), 256)
    else if c.GetConfig? then r.RText? && CutAt(r.text, a.text, 256)
    else if c.GetCapabilities? then r.RCapabilities? && r.first == a.first && r.second == a.second
    else if c.MemRead? then r.RData? && Padded(r.data, a.data, c.size)
    else if c.MemPoll? then r.RData? && Padded(r.data, a.data, |c.mask|)
    else r.RNone?
  }

  /** The table with the register list of one row forgotten. */
  predicate OnlyRegs(was: seq<Entry>, now: seq<Entry>, dev: nat) {
    && |now| == |was|
    && (forall i :: 0 <= i < |was| && i != dev ==> now[i] == was[i])
    && (dev < |was| ==> now[dev] == Entry(was[dev].name, was[dev].kind, []))
  }

  /** A device command other than those on registers makes its one call, with its own arguments, if the
      implementation offers it, and no other.  It succeeds exactly if the call does; what is not offered
      succeeds for the opening and closing hooks and is unsupported for the rest.  A refusal carries
      the call's own code, and a reply what the call answered. */
  lemma OneCall(impl: Impl, s: State, c: Cmd)
    requires CallFor(c).Some? && c.dev < |s.devices|
    ensures var (s', r) := Exec(impl, s, c);
      var call := CallFor(c).value;
      var a := impl.answer(s.calls + [call]);
      var code := if impl.offers(call) then a.code else if c.Open? || c.Close? then SUCCESS else UNSUPPORTED;
      && s'.calls == s.calls + (if impl.offers(call) then [call] else [])
      && s'.description == s.description
      && (if c.Open? || c.Close? then OnlyRegs(s.devices, s'.devices, c.dev) else s'.devices == s.devices)
      && (code == SUCCESS ==> r.Ok? && Carries(impl, c, a, r.resp))
      && (code != SUCCESS ==> r == Refused(TypeOf(c), code))
  {
  }

  /** A device that does not exist: nothing is asked, nothing changes. */
  lemma NoDevice(impl: Impl, s: State, c: Cmd)
    requires Addressed(c).Some? && Addressed(c).value.0 >= |s.devices|
    ensures var (s', r) := Exec(impl, s, c);
      s' == s && r.Refused? && r.code == INVALID_DEVICE && c.dev >= |s.devices|
  {
  }

  /** Of some calls, those the implementation offers. */
  function Offered(impl: Impl, calls: seq<Call>): seq<Call> {
    if calls == [] then []
    else (if impl.offers(calls[0]) then [calls[0]] else []) + Offered(impl, calls[1..])
  }

  /** The commands that ask about no device: a session opens and closes with an empty table. */
  lemma SessionCalls(impl: Impl, s: State, c: Cmd)
    requires c.Init? || c.Term? || c.ClientInfo? || c.GetDescription?
    ensures var (s', r) := Exec(impl, s, c);
      && s'.description == s.description
      && s'.calls == (if c.Init? then s.calls + Offered(impl, [CallInit])
                      else if c.Term? then s.calls + Offered(impl, [CallTerm, CallClearDevices]) else s.calls)
      && s'.devices == (if c.Init? || c.Term? then [] else s.devices)
      && (c.Init? ==> r == Ok(RInit(1, SERVER_ID, 0x100)))
      && (c.Term? || c.ClientInfo? ==> r == Ok(RNone))
      && (c.GetDescription? ==>
            r == if s.description.Some? then Ok(RDescription(s.description.value))
                 else Refused(GET_DESCRIPTION, UNSUPPORTED))
  {
    TellTwo(impl, s, CallTerm, CallClearDevices);
    OfferedTwo(impl, CallInit, CallInit);
    hide Offered;
  }

  /** The device list is the names and types of the rows, in order; one that was never filled in has none. */
  lemma ListsRows(impl: Impl, s: State)
    ensures var (s', r) := Exec(impl, s, GetDevices);
      && s' == s
      && if exists e <- s.devices :: e.name.None? || e.kind.None? then r == Crash
         else && r.Ok? && r.resp.RDevices? && |r.resp.list| == |s.devices|
              && forall i :: 0 <= i < |s.devices| ==>
                   && s.devices[i].name == Some(r.resp.list[i].name)
                   && s.devices[i].kind == Some(r.resp.list[i].kind)
  {
  }

  lemma TellTwo(impl: Impl, s: State, a: Call, b: Call)
    ensures Tell(impl, Tell(impl, s, a).0, b).0.calls == s.calls + Offered(impl, [a, b])
  {
    OfferedTwo(impl, a, b);
    var one, two := Offered(impl, [a]), Offered(impl, [b]);
    assert Tell(impl, s, a).0.calls == s.calls + one;
    assert Tell(impl, Tell(impl, s, a).0, b).0.calls == s.calls + one + two;
  }

  lemma OfferedTwo(impl: Impl, a: Call, b: Call)
    ensures Offered(impl, []) == []
    ensures Offered(impl, [a]) == if impl.offers(a) then [a] else []
    ensures Offered(impl, [a, b]) == Offered(impl, [a]) + Offered(impl, [b])
  {
    assert [a][1..] == [] && [b][1..] == [] && [a, b][1..] == [b];
  }

  /** The list of registers is built anew if the implementation can do so, whatever code that returns, and what
      the row then holds is the reply. */
  lemma RegListCall(impl: Impl, s: State, dev: nat)
    requires dev < |s.devices|
    ensures var (s', r) := Exec(impl, s, RegList(dev));
      var call := CallRegListBuild(dev);
      var regs := if impl.offers(call) then impl.answer(s.calls + [call]).regs else s.devices[dev].regs;
      && s'.calls == s.calls + (if impl.offers(call) then [call] else [])
      && s'.description == s.description && |s'.devices| == |s.devices|
      && (forall i :: 0 <= i < |s.devices| && i != dev ==> s'.devices[i] == s.devices[i])
      && s'.devices[dev] == Entry(s.devices[dev].name, s.devices[dev].kind, regs)
      && r == Ok(RRegs(regs))
  {
  }

  // ------------------------------------------- one call for each register

  function ReadCalls(dev: nat, ids: seq<nat>): seq<Call> {
    seq(|ids|, i requires 0 <= i < |ids| => CallRegRead(dev, ids[i] % 0x1_0000_0000))
  }

  function WriteCalls(dev: nat, rs: seq<RegValue>): seq<Call> {
    seq(|rs|, i requires 0 <= i < |rs| => CallRegWrite(dev, rs[i].id % 0x1_0000_0000, rs[i].value))
  }

  /** Calls made one after the other behind `before`: the first n succeed, and if that is not all of them
      the next is not offered or fails; it is the last one made. */
  predicate Series(impl: Impl, before: seq<Call>, calls: seq<Call>, n: nat, after: seq<Call>, code: int) {
    && n <= |calls|
    && (forall i :: 0 <= i < n ==> impl.offers(calls[i]) && impl.answer(before + calls[..i + 1]).code == SUCCESS)
    && if n == |calls| then after == before + calls && code == SUCCESS
       else if !impl.offers(calls[n]) then after == before + calls[..n] && code == UNSUPPORTED
       else after == before + calls[..n + 1] && code == impl.answer(after).code && code != SUCCESS
  }

  /** A call that succeeds in front of a series. */
  lemma SeriesFirst(impl: Impl, before: seq<Call>, calls: seq<Call>, n: nat, after: seq<Call>, code: int)
    requires calls != [] && impl.offers(calls[0]) && impl.answer(before + [calls[0]]).code == SUCCESS
    requires Series(impl, before + [calls[0]], calls[1..], n, after, code)
    ensures Series(impl, before, calls, n + 1, after, code)
  {
    forall i | 0 <= i < |calls| ensures before + [calls[0]] + calls[1..][..i] == before + calls[..i + 1] {
      FirstOfSome(before, calls, i);
    }
    assert calls[1..][..|calls| - 1] == calls[1..] && calls[..|calls|] == calls;
    assert n < |calls| - 1 ==> calls[1..][n] == calls[n + 1];
    forall i | 0 <= i < n + 1
      ensures impl.offers(calls[i]) && impl.answer(before + calls[..i + 1]).code == SUCCESS
    {
      if i == 0 {
        assert calls[..1] == [calls[0]];
      } else {
        assert calls[1..][i - 1] == calls[i];
        assert impl.answer(before + [calls[0]] + calls[1..][..i]).code == SUCCESS;
      }
    }
  }

  lemma FirstOfSome(before: seq<Call>, calls: seq<Call>, i: nat)
    requires i < |calls|
    ensures before + [calls[0]] + calls[1..][..i] == before + calls[..i + 1]
  {
    assert [calls[0]] + calls[1..][..i] == calls[..i + 1];
  }

  /** The words answered to such calls. */
  function Words(impl: Impl, before: seq<Call>, calls: seq<Call>): seq<u32> {
    seq<u32>(|calls|, i requires 0 <= i < |calls| => impl.answer(before + calls[..i + 1]).word)
  }

  lemma WordsFirst(impl: Impl, before: seq<Call>, calls: seq<Call>)
    requires calls != []
    ensures Words(impl, before, calls)
      == [impl.answer(before + [calls[0]]).word] + Words(impl, before + [calls[0]], calls[1..])
  {
    assert calls[..1] == [calls[0]];
    forall i | 0 < i < |calls|
      ensures before + [calls[0]] + calls[1..][..i] == before + calls[..i + 1]
    {
      assert [calls[0]] + calls[1..][..i] == calls[..i + 1];
    }
  }

  /** Reading registers: one call for each in order, up to the first that is refused, whose code is
      the reply's; else the words answered. */
  lemma {:induction false} RegReadCalls(impl: Impl, s: State, dev: nat, ids: seq<nat>, values: seq<u32>)
      returns (n: nat)
    ensures var (s', r) := ReadRegs(impl, s, dev, ids, values);
      var calls := ReadCalls(dev, ids);
      && s'.devices == s.devices && s'.description == s.description
      && Series(impl, s.calls, calls, n, s'.calls, if r.Refused? then r.code else SUCCESS)
      && (n < |ids| ==> r.Refused? && r.t == REG_READ)
      && (n == |ids| ==> r == Ok(RValues(values + Words(impl, s.calls, calls))))
    decreases |ids|
  {
    var calls := ReadCalls(dev, ids);
    if ids == [] {
      n := 0;
      assert values + Words(impl, s.calls, calls) == values;
    } else {
      var (s', a) := Demand(impl, s, calls[0]);
      if a.code != SUCCESS {
        n := 0;
        assert calls[..1] == [calls[0]] && s.calls + calls[..0] == s.calls;
      } else {
        var n' := RegReadCalls(impl, s', dev, ids[1..], values + [a.word]);
        n := n' + 1;
        assert ReadCalls(dev, ids[1..]) == calls[1..];
        var (s2, r) := ReadRegs(impl, s, dev, ids, values);
        assert (s2, r) == ReadRegs(impl, s', dev, ids[1..], values + [a.word]);
        SeriesFirst(impl, s.calls, calls, n', s2.calls, if r.Refused? then r.code else SUCCESS);
        WordsFirst(impl, s.calls, calls);
        assert values + [a.word] + Words(impl, s'.calls, calls[1..]) == values + Words(impl, s.calls, calls);
      }
    }
  }

  /** Writing registers likewise. */
  lemma {:induction false} RegWriteCalls(impl: Impl, s: State, dev: nat, rs: seq<RegValue>) returns (n: nat)
    ensures var (s', r) := WriteRegs(impl, s, dev, rs);
      && s'.devices == s.devices && s'.description == s.description
      && Series(impl, s.calls, WriteCalls(dev, rs), n, s'.calls, if r.Refused? then r.code else SUCCESS)
      && (n < |rs| ==> r.Refused? && r.t == REG_WRITE) && (n == |rs| ==> r == Ok(RNone))
    decreases |rs|
  {
    var calls := WriteCalls(dev, rs);
    if rs == [] {
      n := 0;
    } else {
      var (s', a) := Demand(impl, s, calls[0]);
      if a.code != SUCCESS {
        n := 0;
        assert calls[..1] == [calls[0]] && s.calls + calls[..0] == s.calls;
      } else {
        var n' := RegWriteCalls(impl, s', dev, rs[1..]);
        n := n' + 1;
        assert WriteCalls(dev, rs[1..]) == calls[1..];
        var (s2, r) := WriteRegs(impl, s, dev, rs);
        assert (s2, r) == WriteRegs(impl, s', dev, rs[1..]);
        SeriesFirst(impl, s.calls, calls, n', s2.calls, if r.Refused? then r.code else SUCCESS);
      }
    }
  }

  /** The commands on registers are those series. */
  lemma RegisterCalls(impl: Impl, s: State, c: Cmd) returns (n: nat)
    requires (c.RegRead? || c.RegWrite?) && c.dev < |s.devices|
    ensures var (s', r) := Exec(impl, s, c);
      var calls := if c.RegRead? then ReadCalls(c.dev, c.ids) else WriteCalls(c.dev, c.regs);
      && s'.devices == s.devices && s'.description == s.description
      && Series(impl, s.calls, calls, n, s'.calls, if r.Refused? then r.code else SUCCESS)
      && (n < |calls| ==> r.Refused? && r.t == TypeOf(c))
      && (n == |calls| && c.RegWrite? ==> r == Ok(RNone))
      && (n == |calls| && c.RegRead? ==> r == Ok(RValues(Words(impl, s.calls, calls))))
  {
    hide Series;
    if c.RegRead? {
      n := RegReadCalls(impl, s, c.dev, c.ids, []);
      assert [] + Words(impl, s.calls, ReadCalls(c.dev, c.ids)) == Words(impl, s.calls, ReadCalls(c.dev, c.ids));
    } else {
      n := RegWriteCalls(impl, s, c.dev, c.regs);
    }
  }

  // ------------------------------------------------- renewing the table

  function AddCalls(i: nat, ds: seq<Device>): seq<Call> {
    seq(|ds|, k requires 0 <= k < |ds| => CallAdd(i + k, ds[k].kind))
  }

  lemma {:induction false} OfferedAll(impl: Impl, a: seq<Call>, b: seq<Call>)
    ensures Offered(impl, a + b) == Offered(impl, a) + Offered(impl, b)
  {
    if a == [] {
      assert a + b == b;
    } else {
      assert (a + b)[1..] == a[1..] + b;
      OfferedAll(impl, a[1..], b);
    }
  }

  /** The rows from i on hold the first n devices; the others are as they were. */
  predicate Rows(was: seq<Entry>, now: seq<Entry>, i: nat, ds: seq<Device>, n: nat) {
    && |now| == |was| && n <= |ds|
    && (forall k :: 0 <= k < |was| && !(i <= k < i + n) ==> now[k] == was[k])
    && (forall k :: 0 <= k < n && i + k < |was| ==>
          now[i + k] == Entry(Some(ds[k].name), Some(ds[k].kind), was[i + k].regs))
  }

  /** The first n have a row, and the hook, where there is one, does not refuse them. */
  predicate Accepted(impl: Impl, s: State, i: nat, ds: seq<Device>, n: nat)
    requires n <= |ds|
  {
    forall k :: 0 <= k < n ==> TakenAt(impl, s, i, ds, k)
  }

  predicate TakenAt(impl: Impl, s: State, i: nat, ds: seq<Device>, k: nat)
    requires k < |ds|
  {
    && i + k < |s.devices|
    && (impl.offers(CallAdd(i + k, ds[k].kind)) ==>
          impl.answer(s.calls + Offered(impl, AddCalls(i, ds[..k + 1]))).code == SUCCESS)
  }

  /** With n accepted, how many have been stored and told to the hook: a refused one is. */
  function Tried(s: State, i: nat, ds: seq<Device>, n: nat): nat {
    if n < |ds| && i + n < |s.devices| then n + 1 else n
  }

  /** Adding devices stopped after n: at the end, or at one without a row, or at one that the hook refused. */
  predicate Added(impl: Impl, s: State, i: nat, ds: seq<Device>, n: nat, s': State, r: Result) {
    && n <= |ds| && s'.description == s.description
    && Accepted(impl, s, i, ds, n)
    && s'.calls == s.calls + Offered(impl, AddCalls(i, ds[..Tried(s, i, ds, n)]))
    && Rows(s.devices, s'.devices, i, ds, Tried(s, i, ds, n))
    && (if n == |ds| then r == Ok(RNone)
        else if i + n >= |s.devices| then r == Refused(SET_DEVICES, INVALID_DEVICE)
        else && impl.offers(CallAdd(i + n, ds[n].kind))
             && r == Refused(SET_DEVICES, impl.answer(s'.calls).code) && r.code != SUCCESS)
  }

  lemma AddOne(impl: Impl, i: nat, d: Device, ds: seq<Device>)
    ensures AddCalls(i, [d] + ds) == [CallAdd(i, d.kind)] + AddCalls(i + 1, ds)
    ensures Offered(impl, AddCalls(i, [d] + ds))
      == (if impl.offers(CallAdd(i, d.kind)) then [CallAdd(i, d.kind)] else []) + Offered(impl, AddCalls(i + 1, ds))
  {
    assert AddCalls(i, [d] + ds) == [CallAdd(i, d.kind)] + AddCalls(i + 1, ds);
    OfferedAll(impl, [CallAdd(i, d.kind)], AddCalls(i + 1, ds));
    OfferedTwo(impl, CallAdd(i, d.kind), CallInit);
  }

  /** Where adding devices stops, and how. */
  lemma {:induction false} AddDevicesCalls(impl: Impl, s: State, i: nat, ds: seq<Device>) returns (n: nat)
    ensures var (s', r) := AddDevices(impl, s, i, ds); Added(impl, s, i, ds, n, s', r)
    decreases |ds|
  {
    hide SetDevice, Added;
    if ds == [] {
      n := 0;
      AddedNone(impl, s, i);
    } else {
      var (s', code) := SetDevice(impl, s, i, ds[0]);
      if code != SUCCESS {
        n := 0;
        AddedStop(impl, s, i, ds);
      } else {
        n := AddDevicesCalls(impl, s', i + 1, ds[1..]);
        AddedFirst(impl, s, i, ds, n);
        n := n + 1;
      }
    }
  }

  lemma AddedNone(impl: Impl, s: State, i: nat)
    ensures Added(impl, s, i, [], 0, s, Ok(RNone))
  {
    NoneOffered(impl, i, []);
    assert s.calls + [] == s.calls;
  }

  lemma AddedStop(impl: Impl, s: State, i: nat, ds: seq<Device>)
    requires ds != [] && SetDevice(impl, s, i, ds[0]).1 != SUCCESS
    ensures var (s', code) := SetDevice(impl, s, i, ds[0]);
      Added(impl, s, i, ds, 0, s', Refused(SET_DEVICES, code))
  {
    AddOne(impl, i, ds[0], []);
    NoneOffered(impl, i + 1, []);
    NoneOffered(impl, i, ds);
    assert ds[..1] == [ds[0]] + [];
    hide Offered, AddCalls;
  }

  /** One more in front of those accepted. */
  lemma AddedFirst(impl: Impl, s: State, i: nat, ds: seq<Device>, n: nat)
    requires ds != []
    requires var (s', code) := SetDevice(impl, s, i, ds[0]);
      var (s2, r) := AddDevices(impl, s', i + 1, ds[1..]);
      code == SUCCESS && Added(impl, s', i + 1, ds[1..], n, s2, r)
    ensures var (s2, r) := AddDevices(impl, s, i, ds); Added(impl, s, i, ds, n + 1, s2, r)
  {
    hide Rows, Accepted, Offered, AddCalls;
    var (s', code) := SetDevice(impl, s, i, ds[0]);
    var (s2, r) := AddDevices(impl, s', i + 1, ds[1..]);
    assert AddDevices(impl, s, i, ds) == (s2, r);
    StoredFirst(impl, s, i, ds[0]);
    hide SetDevice, AddDevices;
    AcceptedFirst(impl, s, s', i, ds, n);
    RowsFirst(s.devices, s'.devices, s2.devices, i, ds, Tried(s', i + 1, ds[1..], n));
    CallsFirst(impl, s, s', i, ds, Tried(s', i + 1, ds[1..], n));
  }

  lemma StoredFirst(impl: Impl, s: State, i: nat, d: Device)
    requires SetDevice(impl, s, i, d).1 == SUCCESS
    ensures var s' := SetDevice(impl, s, i, d).0;
      var call := CallAdd(i, d.kind);
      && i < |s.devices| && s'.description == s.description
      && s'.devices == s.devices[i := Entry(Some(d.name), Some(d.kind), s.devices[i].regs)]
      && s'.calls == s.calls + (if impl.offers(call) then [call] else [])
      && (impl.offers(call) ==> impl.answer(s'.calls).code == SUCCESS)
  {}

  lemma RowsFirst(was: seq<Entry>, mid: seq<Entry>, now: seq<Entry>, i: nat, ds: seq<Device>, n: nat)
    requires ds != [] && i < |was| && mid == was[i := Entry(Some(ds[0].name), Some(ds[0].kind), was[i].regs)]
    requires Rows(mid, now, i + 1, ds[1..], n)
    ensures Rows(was, now, i, ds, n + 1)
  {
    forall k | 0 <= k < n + 1 && i + k < |was|
      ensures now[i + k] == Entry(Some(ds[k].name), Some(ds[k].kind), was[i + k].regs)
    {
      if k > 0 { assert ds[1..][k - 1] == ds[k] && now[i + 1 + (k - 1)].name == Some(ds[k].name); }
    }
  }

  /** The calls made for k more devices behind the first. */
  lemma CallsFirst(impl: Impl, s: State, s': State, i: nat, ds: seq<Device>, k: nat)
    requires k < |ds|
    requires var call := CallAdd(i, ds[0].kind); s'.calls == s.calls + if impl.offers(call) then [call] else []
    ensures s.calls + Offered(impl, AddCalls(i, ds[..k + 1])) == s'.calls + Offered(impl, AddCalls(i + 1, ds[1..][..k]))
  {
    hide Offered, AddCalls;
    assert ds[..k + 1] == [ds[0]] + ds[1..][..k];
    AddOne(impl, i, ds[0], ds[1..][..k]);
  }

  lemma AcceptedFirst(impl: Impl, s: State, s': State, i: nat, ds: seq<Device>, n: nat)
    requires n < |ds| && i < |s.devices| && |s'.devices| == |s.devices|
    requires var call := CallAdd(i, ds[0].kind);
      && s'.calls == s.calls + (if impl.offers(call) then [call] else [])
      && (impl.offers(call) ==> impl.answer(s'.calls).code == SUCCESS)
    requires Accepted(impl, s', i + 1, ds[1..], n)
    ensures Accepted(impl, s, i, ds, n + 1)
  {
    hide Offered, AddCalls;
    forall k | 0 <= k < n + 1
      ensures TakenAt(impl, s, i, ds, k)
    {
      CallsFirst(impl, s, s', i, ds, k);
      if k == 0 {
        NoneOffered(impl, i + 1, ds[1..]);
        assert s'.calls + [] == s'.calls;
      } else {
        assert TakenAt(impl, s', i + 1, ds[1..], k - 1);
      }
    }
  }

  lemma NoneOffered(impl: Impl, i: nat, ds: seq<Device>)
    ensures Offered(impl, AddCalls(i, ds[..0])) == []
  {}

  /** The table when SET_DEVICES starts to fill it: one empty row for each device, counted in 32 bits, with
      both hooks told where they exist. */
  function Renewed(impl: Impl, s: State, count: nat): State {
    var rows := count % 0x1_0000_0000;
    State(seq(rows, _ => Entry(None, None, [])), s.description,
          s.calls + Offered(impl, [CallClearDevices, CallInitDevices(rows)]))
  }

  lemma RenewedIs(impl: Impl, s: State, count: nat)
    ensures InitDevices(impl, ClearDevices(impl, s), count) == Renewed(impl, s, count)
  {
    OfferedTwo(impl, CallClearDevices, CallInitDevices(Low32(count)));
    hide Offered;
    assert Blank(Low32(count)) == seq(Low32(count), _ => Entry(None, None, []));
  }

  /** SET_DEVICES: the table is renewed, and filled up to the first device that is refused. */
  lemma SetDevicesCalls(impl: Impl, s: State, ds: seq<Device>) returns (n: nat)
    ensures var (s', r) := Exec(impl, s, SetDevices(ds));
      Added(impl, Renewed(impl, s, |ds|), 0, ds, n, s', r)
  {
    RenewedIs(impl, s, |ds|);
    hide Renewed, InitDevices, ClearDevices, AddDevices, Added;
    n := AddDevicesCalls(impl, Renewed(impl, s, |ds|), 0, ds);
  }

  /** An error response: the type, the code, and the text formatted for them, as much as the server's array holds. */
  lemma RefusalReads(impl: Impl, t: nat, code: int, more: seq<byte>)
    requires t < VARINT_LIMIT && PlainCode(code)
    ensures var h := ParseHeader(Message(ErrorFields(impl, t, code), more));
      && h.Got? && h.value == (t, code)
      && var text := ParseString(h.rest, 1024);
         text.Got? && text.rest == more && CutAt(text.value, impl.errorText(t, code), 1024)
  {
    var text := Fit(impl.errorText(t, code), 1024);
    TakeV(t, Put(V(code), Put(Str(text), Done)), more);
    TakeV(code, Put(Str(text), Done), more);
    TakeStr(text, 1024, Done, more);
    hide ParseVarint, ParseString, Message;
  }
}
