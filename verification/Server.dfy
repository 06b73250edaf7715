/**
  The command handlers of the server (cswp/server/cswp_server_cmdint.c) and the
  device table below them (cswp_server_impl.c), as functions of the server
  state and the bytes not yet read.  The target implementation behind the
  function table is an arbitrary function of all calls made to it so far.
 */
module Server {
  import opened Wire
  import opened Buffer
  import opened Commands

  datatype Option<+T> = None | Some(value: T)

  datatype RegInfo = RegInfo(id: nat, name: CString, size: nat, display: CString, description: CString)

  /** One row of deviceNames, deviceTypes and deviceInfo; a name or type is absent until it is set. */
  datatype Entry = Entry(name: Option<CString>, kind: Option<CString>, regs: seq<RegInfo>)

  datatype Description = Description(format: nat, data: seq<byte>)

  /** A call into the implementation's function table. */
  datatype Call =
    | CallInit
    | CallTerm
    | CallInitDevices(count: nat)
    | CallClearDevices
    | CallAdd(dev: nat, kind: CString)
    | CallOpen(dev: nat)
    | CallClose(dev: nat)
    | CallSetConfig(dev: nat, name: CString, text: CString)
    | CallGetConfig(dev: nat, name: CString)
    | CallCapabilities(dev: nat)
    | CallRegListBuild(dev: nat)
    | CallRegRead(dev: nat, id: nat)
    | CallRegWrite(dev: nat, id: nat, word: u32)
    | CallMemRead(dev: nat, addr: u64, size: nat, access: nat, flags: nat)
    | CallMemWrite(dev: nat, addr: u64, access: nat, flags: nat, data: seq<byte>)
    | CallMemPoll(dev: nat, addr: u64, access: nat, flags: nat, tries: nat, interval: nat,
                  mask: seq<byte>, wanted: seq<byte>)

  datatype Answer = Answer(code: int, text: CString, first: nat, second: nat, word: u32, data: seq<byte>,
      regs: seq<RegInfo>)

  /** The implementation: which calls it offers, its answer after any history of calls, and the texts the
      server formats. */
  datatype Impl = Impl(offers: Call -> bool, answer: seq<Call> -> Answer,
                       errorText: (nat, int) -> CString, deviceText: nat -> CString)

  datatype State = State(devices: seq<Entry>, description: Option<Description>, calls: seq<Call>)

  datatype Resp =
    | RInit(protocol: nat, serverId: CString, version: nat)
    | RNone
    | RDevices(list: seq<Device>)
    | RDescription(desc: Description)
    | RText(text: CString)
    | RCapabilities(first: nat, second: nat)
    | RRegs(regs: seq<RegInfo>)
    | RValues(values: seq<u32>)
    | RData(data: seq<byte>)

  /** What a handler decided: a reply, an error reply of type `t`, no reply at all, or no defined behaviour. */
  datatype Result = Ok(resp: Resp) | Refused(t: nat, code: int) | Silent | Crash

  // ------------------------------------------------------ the implementation

  function Ask(impl: Impl, s: State, c: Call): (State, Answer) {
    var calls := s.calls + [c];
    (s.(calls := calls), impl.answer(calls))
  }

  /** A hook that may be absent; its absence is a success. */
  function Tell(impl: Impl, s: State, c: Call): (State, int) {
    if impl.offers(c) then var (s, a) := Ask(impl, s, c); (s, a.code) else (s, SUCCESS)
  }

  /** A function that must be present. */
  function Demand(impl: Impl, s: State, c: Call): (State, Answer) {
    if impl.offers(c) then Ask(impl, s, c)
    else (s, Answer(UNSUPPORTED, [], 0, 0, 0, [], []))
  }

  /** Text that snprintf cuts to an array of `size` bytes. */
  function Fit(t: CString, size: nat): CString
    requires size > 0
  {
    if |t| < size then t else t[..size - 1]
  }

  /** The implementation fills a buffer of exactly `size` bytes. */
  function Filled(data: seq<byte>, size: nat): seq<byte> {
    if |data| >= size then data[..size] else data + seq(size - |data|, _ => 0)
  }

  function Blank(count: nat): seq<Entry> {
    seq(count, _ => Entry(None, None, []))
  }

  // ------------------------------------------------------- the device table

  function ClearDevices(impl: Impl, s: State): State {
    Tell(impl, s, CallClearDevices).0.(devices := [])
  }

  /** The count arrives as an `unsigned`. */
  function InitDevices(impl: Impl, s: State, count: nat): State {
    Tell(impl, s.(devices := Blank(Low32(count))), CallInitDevices(Low32(count))).0
  }

  function SetDevice(impl: Impl, s: State, i: nat, d: Device): (State, int) {
    if i >= |s.devices| then (s, INVALID_DEVICE)
    else
      var e := s.devices[i].(name := Some(d.name), kind := Some(d.kind));
      Tell(impl, s.(devices := s.devices[i := e]), CallAdd(i, d.kind))
  }

  function SetRegs(s: State, dev: nat, regs: seq<RegInfo>): State
    requires dev < |s.devices|
  {
    s.(devices := s.devices[dev := s.devices[dev].(regs := regs)])
  }

  predicate Named(e: Entry) {
    e.name.Some? && e.kind.Some?
  }

  function DeviceOf(e: Entry): Device
    requires Named(e)
  {
    Device(e.name.value, e.kind.value)
  }

  function DeviceList(es: seq<Entry>): seq<Device>
    requires forall e :: e in es ==> Named(e)
  {
    seq(|es|, i requires 0 <= i < |es| => DeviceOf(es[i]))
  }

  // ------------------------------------------- running a command directly

  /** The device a command addresses, and the type its "invalid device" reply carries. */
  function Addressed(c: Cmd): Option<(nat, nat)> {
    match c
    case Open(dev) => Some((dev, DEVICE_OPEN))
    case Close(dev) => Some((dev, DEVICE_OPEN))
    case SetConfig(dev, _, _) => Some((dev, SET_CONFIG))
    case GetConfig(dev, _) => Some((dev, GET_CONFIG))
    case GetCapabilities(dev) => Some((dev, GET_CAPABILITIES))
    case RegList(dev) => Some((dev, DEVICE_OPEN))
    case RegRead(dev, _) => Some((dev, REG_READ))
    case RegWrite(dev, _) => Some((dev, DEVICE_OPEN))
    case MemRead(dev, _, _, _, _) => Some((dev, DEVICE_OPEN))
    case MemWrite(dev, _, _, _, _) => Some((dev, DEVICE_OPEN))
    case MemPoll(dev, _, _, _, _, _, _, _) => Some((dev, DEVICE_OPEN))
    case _ => None
  }

  function AddDevices(impl: Impl, s: State, i: nat, ds: seq<Device>): (State, Result)
    decreases |ds|
  {
    if ds == [] then (s, Ok(RNone))
    else
      var (s, code) := SetDevice(impl, s, i, ds[0]);
      if code != SUCCESS then (s, Refused(SET_DEVICES, code)) else AddDevices(impl, s, i + 1, ds[1..])
  }

  function ReadRegs(impl: Impl, s: State, dev: nat, ids: seq<nat>, values: seq<u32>): (State, Result)
    decreases |ids|
  {
    if ids == [] then (s, Ok(RValues(values)))
    else
      var (s, a) := Demand(impl, s, CallRegRead(dev, Low32(ids[0])));
      if a.code != SUCCESS then (s, Refused(REG_READ, a.code))
      else ReadRegs(impl, s, dev, ids[1..], values + [a.word])
  }

  function WriteRegs(impl: Impl, s: State, dev: nat, rs: seq<RegValue>): (State, Result)
    decreases |rs|
  {
    if rs == [] then (s, Ok(RNone))
    else
      var (s, a) := Demand(impl, s, CallRegWrite(dev, Low32(rs[0].id), rs[0].value));
      if a.code != SUCCESS then (s, Refused(REG_WRITE, a.code)) else WriteRegs(impl, s, dev, rs[1..])
  }

  /** A reply from an implementation function, or its error under the command's own type. */
  function OrRefused(t: nat, s: State, a: Answer, resp: Resp): (State, Result) {
    (s, if a.code != SUCCESS then Refused(t, a.code) else Ok(resp))
  }

  function OnDevice(impl: Impl, s: State, c: Cmd): (State, Result)
    requires Addressed(c).Some? && Addressed(c).value.0 < |s.devices|
  {
    match c
    case Open(dev) =>
      var (s, code) := Tell(impl, SetRegs(s, dev, []), CallOpen(dev));
      (s, if code != SUCCESS then Refused(DEVICE_OPEN, code) else Ok(RText(Fit(impl.deviceText(dev), 256))))
    case Close(dev) =>
      var (s, code) := Tell(impl, s, CallClose(dev));
      (SetRegs(s, dev, []), if code != SUCCESS then Refused(DEVICE_CLOSE, code) else Ok(RNone))
    case SetConfig(dev, name, value) =>
      var (s, a) := Demand(impl, s, CallSetConfig(dev, name, value));
      OrRefused(SET_CONFIG, s, a, RNone)
    case GetConfig(dev, name) =>
      var (s, a) := Demand(impl, s, CallGetConfig(dev, name));
      OrRefused(GET_CONFIG, s, a, RText(Fit(a.text, 256)))
    case GetCapabilities(dev) =>
      var (s, a) := Demand(impl, s, CallCapabilities(dev));
      OrRefused(GET_CAPABILITIES, s, a, RCapabilities(a.first, a.second))
    case RegList(dev) =>
      // the code returned by the build is overwritten by the encoding that follows
      var s := if impl.offers(CallRegListBuild(dev))
               then var (s, a) := Ask(impl, s, CallRegListBuild(dev)); SetRegs(s, dev, a.regs)
               else s;
      (s, Ok(RRegs(s.devices[dev].regs)))
    case RegRead(dev, ids) => ReadRegs(impl, s, dev, ids, [])
    case RegWrite(dev, rs) => WriteRegs(impl, s, dev, rs)
    case MemRead(dev, addr, size, access, flags) =>
      var (s, a) := Demand(impl, s, CallMemRead(dev, addr, size, access, flags));
      OrRefused(MEM_READ, s, a, RData(Filled(a.data, size)))
    case MemWrite(dev, addr, access, flags, data) =>
      var (s, a) := Demand(impl, s, CallMemWrite(dev, addr, access, flags, data));
      OrRefused(MEM_WRITE, s, a, RNone)
    case MemPoll(dev, addr, access, flags, tries, interval, mask, wanted) =>
      var (s, a) := Demand(impl, s, CallMemPoll(dev, addr, access, flags, tries, interval, mask, wanted));
      OrRefused(MEM_POLL, s, a, RData(Filled(a.data, |mask|)))
  }

  // "AMIS PoC CSWP Server"
  const SERVER_ID: CString :=
    [65, 77, 73, 83, 32, 80, 111, 67, 32, 67, 83, 87, 80, 32, 83, 101, 114, 118, 101, 114]

  /** Running a command that has already been decoded. */
  function Exec(impl: Impl, s: State, c: Cmd): (State, Result) {
    match c
    case Init(_, _) =>
      (Tell(impl, s.(devices := []), CallInit).0, Ok(RInit(1, SERVER_ID, 0x100)))
    case Term =>
      (ClearDevices(impl, Tell(impl, s, CallTerm).0), Ok(RNone))
    case ClientInfo(_) => (s, Ok(RNone))
    case SetDevices(ds) =>
      AddDevices(impl, InitDevices(impl, ClearDevices(impl, s), |ds|), 0, ds)
    case GetDevices =>
      // an entry that was never filled in is a null string
      (s, if forall e :: e in s.devices ==> Named(e) then Ok(RDevices(DeviceList(s.devices))) else Crash)
    case GetDescription =>
      (s, if s.description.None? then Refused(GET_DESCRIPTION, UNSUPPORTED) else Ok(RDescription(s.description.value)))
    case _ =>
      var a := Addressed(c).value;
      if a.0 >= |s.devices| then (s, Refused(a.1, INVALID_DEVICE)) else OnDevice(impl, s, c)
  }

  // ------------------------------------------------ decoding and dispatching

  datatype Decision = Decision(state: State, rest: seq<byte>, result: Result)

  function AddDevicesWire(impl: Impl, s: State, i: nat, left: nat, b: seq<byte>): Decision
    decreases left
  {
    if left == 0 then Decision(s, b, Ok(RNone))
    else
      var name := ParseString(b, 256);
      if name.Bad? then Decision(s, name.rest, Refused(SET_DEVICES, name.code))
      else
        var kind := ParseString(name.rest, 256);
        if kind.Bad? then Decision(s, kind.rest, Refused(SET_DEVICES, kind.code))
        else
          var (s, code) := SetDevice(impl, s, i, Device(name.value, kind.value));
          if code != SUCCESS then Decision(s, kind.rest, Refused(SET_DEVICES, code))
          else AddDevicesWire(impl, s, i + 1, left - 1, kind.rest)
  }

  function ReadRegsWire(impl: Impl, s: State, dev: nat, left: nat, values: seq<u32>, b: seq<byte>): Decision
    decreases left
  {
    if left == 0 then Decision(s, b, Ok(RValues(values)))
    else
      var id := ParseVarint(b);
      if id.Bad? then Decision(s, id.rest, Refused(REG_READ, id.code))
      else
        var (s, a) := Demand(impl, s, CallRegRead(dev, Low32(id.value)));
        if a.code != SUCCESS then Decision(s, id.rest, Refused(REG_READ, a.code))
        else ReadRegsWire(impl, s, dev, left - 1, values + [a.word], id.rest)
  }

  function WriteRegsWire(impl: Impl, s: State, dev: nat, left: nat, b: seq<byte>): Decision
    decreases left
  {
    if left == 0 then Decision(s, b, Ok(RNone))
    else
      var id := ParseVarint(b);
      if id.Bad? then Decision(s, id.rest, Refused(REG_WRITE, id.code))
      else
        var w := ParseWord(id.rest, 4);
        if w.Bad? then Decision(s, w.rest, Refused(REG_WRITE, w.code))
        else
          var (s, a) := Demand(impl, s, CallRegWrite(dev, Low32(id.value), Low32(w.value)));
          if a.code != SUCCESS then Decision(s, w.rest, Refused(REG_WRITE, a.code))
          else WriteRegsWire(impl, s, dev, left - 1, w.rest)
  }

  /** The device number and the count that open a register command. */
  function ParsePair(b: seq<byte>): Parsed<(nat, nat)> {
    var (dev, b) :- ParseVarint(b);
    var (count, b) :- ParseVarint(b);
    Got((dev, count), b)
  }

  /** The handlers that act while they decode. */
  function DecideLazy(impl: Impl, s: State, t: nat, b: seq<byte>): Decision
    requires !Eager(t)
  {
    if t == SET_DEVICES then
      var n := ParseVarint(b);
      if n.Bad? then Decision(s, n.rest, Refused(t, n.code))
      else AddDevicesWire(impl, InitDevices(impl, ClearDevices(impl, s), n.value), 0, n.value, n.rest)
    else
      var p := ParsePair(b);
      if p.Bad? then Decision(s, p.rest, Refused(t, p.code))
      else if p.value.0 >= |s.devices| then
        Decision(s, p.rest, Refused(if t == REG_READ then REG_READ else DEVICE_OPEN, INVALID_DEVICE))
      else if t == REG_READ then ReadRegsWire(impl, s, p.value.0, p.value.1, [], p.rest)
      else WriteRegsWire(impl, s, p.value.0, p.value.1, p.rest)
  }

  /** cswp_dispatch_command up to the encoding of the reply. */
  function Decide(impl: Impl, s: State, t: nat, b: seq<byte>): Decision {
    if t == ASYNC_MESSAGE then Decision(s, b, Silent)
    else if !Eager(t) then DecideLazy(impl, s, t, b)
    else
      var c := ParseBody(t, b);
      if c.Bad? then Decision(s, c.rest, Refused(t, c.code))
      else var (s, r) := Exec(impl, s, c.value); Decision(s, c.rest, r)
  }

  // ------------------------------------------------------ encoding replies

  function RegInfoFields(r: RegInfo, next: Fields): Fields {
    Put(V(r.id), Put(Str(r.name), Put(V(r.size), Put(Str(r.display), Put(Str(r.description), next)))))
  }

  function RegInfosFields(rs: seq<RegInfo>): Fields {
    if rs == [] then Done else RegInfoFields(rs[0], RegInfosFields(rs[1..]))
  }

  function WordsFields(ws: seq<u32>): Fields {
    if ws == [] then Done else Put(W32(ws[0]), WordsFields(ws[1..]))
  }

  function RespFields(r: Resp): Fields {
    match r
    case RInit(protocol, id, version) => Put(V(protocol), Put(Str(id), Put(V(version), Done)))
    case RNone => Done
    case RDevices(ds) => Put(V(|ds|), DeviceFields(ds))
    case RDescription(d) => Put(V(d.format), Put(V(|d.data|), Put(Blob(d.data), Done)))
    case RText(text) => Put(Str(text), Done)
    case RCapabilities(a, b) => Put(V(a), Put(V(b), Done))
    case RRegs(rs) => Put(V(|rs|), RegInfosFields(rs))
    case RValues(ws) => Put(V(|ws|), WordsFields(ws))
    case RData(data) => Put(V(|data|), Put(Blob(data), Done))
  }

  /** An int result code as the 64-bit varint it is passed in. */
  function AsVarint(code: int): nat {
    if code >= 0 then code else code % 0x1_0000_0000_0000_0000
  }

  function ErrorFields(impl: Impl, t: nat, code: int): Fields {
    Put(V(t), Put(V(AsVarint(code)), Put(Str(Fit(impl.errorText(t, code), 1024)), Done)))
  }

  function OkFields(t: nat, r: Resp): Fields {
    Put(V(t), Put(V(SUCCESS), RespFields(r)))
  }

  /** The server state, the bytes still unread, the response buffer and the code of one handled command. */
  datatype Handled = Handled(state: State, rest: seq<byte>, out: seq<byte>, code: int)

  function Finish(impl: Impl, d: Decision, t: nat, out: seq<byte>, cap: nat): Handled {
    match d.result
    case Silent => Handled(d.state, d.rest, out, UNSUPPORTED)
    case Crash => Handled(d.state, d.rest, out, UNDEFINED)
    case Refused(u, code) =>
      Handled(d.state, d.rest, PutAll(out, cap, ErrorFields(impl, u, code)).data, code)
    case Ok(r) =>
      var o := PutAll(out, cap, OkFields(t, r));
      if o.code == SUCCESS then Handled(d.state, d.rest, o.data, SUCCESS)
      else Handled(d.state, d.rest, PutAll(o.data, cap, ErrorFields(impl, t, o.code)).data, o.code)
  }

  /** The type found at the cursor and what its handler decides. */
  function DecideNext(impl: Impl, s: State, b: seq<byte>): (nat, Decision) {
    var t := ParseVarint(b);
    if t.Bad? then (NONE, Decision(s, t.rest, Refused(NONE, t.code)))
    else (t.value, Decide(impl, s, t.value, t.rest))
  }

  /** cswp_handle_command */
  function Handle(impl: Impl, s: State, b: seq<byte>, out: seq<byte>, cap: nat): Handled {
    var (t, d) := DecideNext(impl, s, b);
    Finish(impl, d, t, out, cap)
  }

  // ------------------------------------- decoding and running are one thing

  lemma {:induction false} AddDevicesAgree(impl: Impl, s: State, i: nat, ds: seq<Device>, rest: seq<byte>)
    requires forall d :: d in ds ==> |d.name| < 256 && |d.kind| < 256
    ensures var d := AddDevicesWire(impl, s, i, |ds|, Message(DeviceFields(ds), rest));
      (d.state, d.result) == AddDevices(impl, s, i, ds) && (d.result.Ok? ==> d.rest == rest)
    decreases |ds|
  {
    if ds == [] {
    } else {
      var more := DeviceFields(ds[1..]);
      assert ds[0] in ds;
      TakeStr(ds[0].name, 256, Put(Str(ds[0].kind), more), rest);
      TakeStr(ds[0].kind, 256, more, rest);
      var (s', code) := SetDevice(impl, s, i, ds[0]);
      if code == SUCCESS {
        assert forall d :: d in ds[1..] ==> d in ds;
        AddDevicesAgree(impl, s', i + 1, ds[1..], rest);
      }
    }
  }

  lemma {:induction false} ReadRegsAgree(impl: Impl, s: State, dev: nat, ids: seq<nat>, values: seq<u32>,
      rest: seq<byte>)
    requires forall i :: i in ids ==> i < VARINT_LIMIT
    ensures var d := ReadRegsWire(impl, s, dev, |ids|, values, Message(IdFields(ids), rest));
      (d.state, d.result) == ReadRegs(impl, s, dev, ids, values) && (d.result.Ok? ==> d.rest == rest)
    decreases |ids|
  {
    if ids == [] {
    } else {
      assert ids[0] in ids;
      TakeV(ids[0], IdFields(ids[1..]), rest);
      var (s', a) := Demand(impl, s, CallRegRead(dev, Low32(ids[0])));
      if a.code == SUCCESS {
        assert forall i :: i in ids[1..] ==> i in ids;
        ReadRegsAgree(impl, s', dev, ids[1..], values + [a.word], rest);
      }
    }
  }

  /** How many of the registers are written before one is refused. */
  function Written(impl: Impl, s: State, dev: nat, rs: seq<RegValue>): (n: nat)
    ensures n <= |rs|
    decreases |rs|
  {
    if rs == [] then 0
    else
      var (s, a) := Demand(impl, s, CallRegWrite(dev, Low32(rs[0].id), rs[0].value));
      if a.code != SUCCESS then 0 else 1 + Written(impl, s, dev, rs[1..])
  }

  /** Writing while decoding is writing the decoded list.  The cursor stops behind the register that was
      refused, and the rest stay unread; they are what the server would take for the next command. */
  lemma {:induction false} WriteRegsAgree(impl: Impl, s: State, dev: nat, rs: seq<RegValue>, rest: seq<byte>)
    requires forall r :: r in rs ==> r.id < VARINT_LIMIT
    ensures var d := WriteRegsWire(impl, s, dev, |rs|, Message(RegFields(rs), rest));
      var n := Written(impl, s, dev, rs);
      && (d.state, d.result) == WriteRegs(impl, s, dev, rs)
      && (d.result.Ok? <==> n == |rs|)
      && d.rest == if n == |rs| then rest else Message(RegFields(rs[n + 1..]), rest)
    decreases |rs|
  {
    hide ParseVarint, ParseWord, Bytes, Demand, RegFields;
    if rs == [] {
      NoRegs(rest);
    } else {
      assert rs[0] in rs;
      FirstReg(rs);
      TakeV(rs[0].id, Put(W32(rs[0].value), RegFields(rs[1..])), rest);
      TakeW32(rs[0].value, RegFields(rs[1..]), rest);
      hide Message;
      var (s', a) := Demand(impl, s, CallRegWrite(dev, Low32(rs[0].id), rs[0].value));
      if a.code == SUCCESS {
        assert forall r :: r in rs[1..] ==> r in rs;
        WriteRegsAgree(impl, s', dev, rs[1..], rest);
        var n := Written(impl, s', dev, rs[1..]);
        if n < |rs| - 1 { assert rs[1..][n + 1..] == rs[n + 2..]; }
      }
    }
  }

  /** An encoded command, decoded and dispatched, makes the calls and gets the result of running it
      directly; if it is not refused, the cursor then stands at the next command. */
  lemma DecideExec(impl: Impl, s: State, c: Cmd, rest: seq<byte>)
    requires Portable(c)
    ensures var d := Decide(impl, s, TypeOf(c), Message(BodyFields(c), rest));
      (d.state, d.result) == Exec(impl, s, c) && (d.result.Ok? ==> d.rest == rest)
  {
    match c
    case SetDevices(ds) =>
      TakeV(|ds|, DeviceFields(ds), rest);
      AddDevicesAgree(impl, InitDevices(impl, ClearDevices(impl, s), |ds|), 0, ds, rest);
    case RegRead(dev, ids) =>
      TakeV(dev, Put(V(|ids|), IdFields(ids)), rest);
      TakeV(|ids|, IdFields(ids), rest);
      ReadRegsAgree(impl, s, dev, ids, [], rest);
    case RegWrite(dev, rs) =>
      TakeV(dev, Put(V(|rs|), RegFields(rs)), rest);
      TakeV(|rs|, RegFields(rs), rest);
      WriteRegsAgree(impl, s, dev, rs, rest);
    case _ =>
      CommandRoundTrip(c, rest);
  }
}
