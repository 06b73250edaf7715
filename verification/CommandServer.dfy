/**
  The server as it runs: a device table in three parallel tables, handlers that
  move the cursors of a command and a response buffer, and the loop over the
  commands of a request.  Each method does to the objects what `Server` and
  `Batch` say on values.
 */
module CommandServer {
  import opened Wire
  import opened Buffer
  import opened Commands
  import opened Server
  import opened Batch

  class CommandServer {
    const impl: Impl
    var deviceCount: nat
    var deviceNames: seq<Option<CString>>
    var deviceTypes: seq<Option<CString>>
    var deviceInfo: seq<seq<RegInfo>>
    var description: Option<Description>
    var calls: seq<Call>

    /** The three tables have one row per device. */
    ghost predicate Valid()
      reads this
    {
      |deviceNames| == |deviceTypes| == |deviceInfo| == deviceCount
    }

    ghost function AsState(): State
      requires Valid()
      reads this
    {
      State(seq(deviceCount, i requires 0 <= i < deviceCount reads this requires Valid() =>
                  Entry(deviceNames[i], deviceTypes[i], deviceInfo[i])), description, calls)
    }

    constructor (impl: Impl, description: Option<Description>)
      ensures Valid() && AsState() == State([], description, []) && this.impl == impl
    {
      this.impl := impl;
      deviceCount := 0;
      deviceNames, deviceTypes, deviceInfo := [], [], [];
      this.description := description;
      calls := [];
    }

    // ----------------------------------------- calls into the implementation

    method Tell(c: Call) returns (code: int)
      requires Valid()
      modifies this`calls
      ensures Valid() && (AsState(), code) == Server.Tell(impl, old(AsState()), c)
    {
      if impl.offers(c) {
        calls := calls + [c];
        assert AsState().devices == old(AsState()).devices;
        code := impl.answer(calls).code;
      } else {
        code := SUCCESS;
      }
    }

    method Demand(c: Call) returns (a: Answer)
      requires Valid()
      modifies this`calls
      ensures Valid() && (AsState(), a) == Server.Demand(impl, old(AsState()), c)
    {
      if impl.offers(c) {
        calls := calls + [c];
        assert AsState().devices == old(AsState()).devices;
        a := impl.answer(calls);
      } else {
        a := Answer(UNSUPPORTED, [], 0, 0, 0, [], []);
      }
    }

    // -------------------------------------------------------- device table

    method ClearDevices()
      requires Valid()
      modifies this
      ensures Valid() && AsState() == Server.ClearDevices(impl, old(AsState()))
    {
      var _ := Tell(CallClearDevices);
      deviceCount := 0;
      deviceNames, deviceTypes, deviceInfo := [], [], [];
    }

    method InitDevices(count: nat)
      requires Valid()
      modifies this
      ensures Valid() && AsState() == Server.InitDevices(impl, old(AsState()), count)
    {
      deviceCount := Low32(count);
      deviceNames := seq(deviceCount, _ => None);
      deviceTypes := seq(deviceCount, _ => None);
      deviceInfo := seq(deviceCount, _ => []);
      assert AsState() == old(AsState()).(devices := Blank(Low32(count)));
      var _ := Tell(CallInitDevices(Low32(count)));
    }

    method SetDevice(i: nat, d: Device) returns (code: int)
      requires Valid()
      modifies this
      ensures Valid() && (AsState(), code) == Server.SetDevice(impl, old(AsState()), i, d)
    {
      if i >= deviceCount {
        return INVALID_DEVICE;
      }
      deviceNames := deviceNames[i := Some(d.name)];
      deviceTypes := deviceTypes[i := Some(d.kind)];
      ghost var was := old(AsState());
      ghost var row := was.devices[i].(name := Some(d.name), kind := Some(d.kind));
      assert AsState() == was.(devices := was.devices[i := row]);
      code := Tell(CallAdd(i, d.kind));
    }

    method SetRegs(dev: nat, regs: seq<RegInfo>)
      requires Valid() && dev < deviceCount
      modifies this`deviceInfo
      ensures Valid() && AsState() == Server.SetRegs(old(AsState()), dev, regs)
    {
      deviceInfo := deviceInfo[dev := regs];
    }

    // ------------------------------------------- handlers that decode first

    method RunOnDevice(c: Cmd) returns (r: Result)
      requires Valid() && Addressed(c).Some? && Addressed(c).value.0 < deviceCount
      requires !c.RegRead? && !c.RegWrite?
      modifies this
      ensures Valid() && (AsState(), r) == OnDevice(impl, old(AsState()), c)
    {
      match c
      case Open(dev) =>
        SetRegs(dev, []);
        var code := Tell(CallOpen(dev));
        r := if code != SUCCESS then Refused(DEVICE_OPEN, code) else Ok(RText(Fit(impl.deviceText(dev), 256)));
      case Close(dev) =>
        var code := Tell(CallClose(dev));
        SetRegs(dev, []);
        r := if code != SUCCESS then Refused(DEVICE_CLOSE, code) else Ok(RNone);
      case SetConfig(dev, name, value) =>
        var a := Demand(CallSetConfig(dev, name, value));
        r := if a.code != SUCCESS then Refused(SET_CONFIG, a.code) else Ok(RNone);
      case GetConfig(dev, name) =>
        var a := Demand(CallGetConfig(dev, name));
        r := if a.code != SUCCESS then Refused(GET_CONFIG, a.code) else Ok(RText(Fit(a.text, 256)));
      case GetCapabilities(dev) =>
        var a := Demand(CallCapabilities(dev));
        r := if a.code != SUCCESS then Refused(GET_CAPABILITIES, a.code) else Ok(RCapabilities(a.first, a.second));
      case RegList(dev) =>
        if impl.offers(CallRegListBuild(dev)) {
          var a := Demand(CallRegListBuild(dev));
          SetRegs(dev, a.regs);
        }
        r := Ok(RRegs(deviceInfo[dev]));
      case MemRead(dev, addr, size, access, flags) =>
        var a := Demand(CallMemRead(dev, addr, size, access, flags));
        r := if a.code != SUCCESS then Refused(MEM_READ, a.code) else Ok(RData(Filled(a.data, size)));
      case MemWrite(dev, addr, access, flags, data) =>
        var a := Demand(CallMemWrite(dev, addr, access, flags, data));
        r := if a.code != SUCCESS then Refused(MEM_WRITE, a.code) else Ok(RNone);
      case MemPoll(dev, addr, access, flags, tries, interval, mask, wanted) =>
        var a := Demand(CallMemPoll(dev, addr, access, flags, tries, interval, mask, wanted));
        r := if a.code != SUCCESS then Refused(MEM_POLL, a.code) else Ok(RData(Filled(a.data, |mask|)));
    }

    method ListDevices() returns (r: Result)
      requires Valid()
      ensures (AsState(), r) == Exec(impl, AsState(), GetDevices)
    {
      var ds: seq<Device> := [];
      ghost var es := AsState().devices;
      for i := 0 to deviceCount
        invariant |ds| == i
        invariant forall k :: 0 <= k < i ==> Named(es[k]) && ds[k] == DeviceOf(es[k])
      {
        if deviceNames[i].None? || deviceTypes[i].None? {
          assert es[i] in es && !Named(es[i]);
          return Crash;
        }
        ds := ds + [Device(deviceNames[i].value, deviceTypes[i].value)];
      }
      r := Ok(RDevices(ds));
      assert forall e :: e in es ==> Named(e);
      assert ds == DeviceList(es);
    }

    method Run(c: Cmd) returns (r: Result)
      requires Valid() && Eager(TypeOf(c))
      modifies this
      ensures Valid() && (AsState(), r) == Exec(impl, old(AsState()), c)
    {
      var a := Addressed(c);
      if a.Some? {
        if a.value.0 >= deviceCount {
          r := Refused(a.value.1, INVALID_DEVICE);
        } else {
          r := RunOnDevice(c);
        }
        return;
      }
      if c.Init? {
        deviceCount := 0;
        deviceNames, deviceTypes, deviceInfo := [], [], [];
        assert AsState() == old(AsState()).(devices := []);
        var _ := Tell(CallInit);
        r := Ok(RInit(1, SERVER_ID, 0x100));
      } else if c.Term? {
        var _ := Tell(CallTerm);
        ClearDevices();
        r := Ok(RNone);
      } else if c.ClientInfo? {
        r := Ok(RNone);
      } else if c.GetDevices? {
        r := ListDevices();
      } else if description.None? {
        r := Refused(GET_DESCRIPTION, UNSUPPORTED);
      } else {
        r := Ok(RDescription(description.value));
      }
    }

    // ------------------------------------- handlers that act while decoding

    method AddDevices(cmd: CswpBuffer, count: nat) returns (r: Result)
      requires Valid() && cmd.Valid()
      modifies this, cmd`pos
      ensures Valid() && cmd.Valid()
      ensures Decision(AsState(), cmd.Unread(), r) == AddDevicesWire(impl, old(AsState()), 0, count, old(cmd.Unread()))
    {
      hide Server.SetDevice, ParseString, AsState;
      for i := 0 to count
        invariant Valid() && cmd.Valid()
        invariant AddDevicesWire(impl, AsState(), i, count - i, cmd.Unread())
               == AddDevicesWire(impl, old(AsState()), 0, count, old(cmd.Unread()))
      {
        var name := cmd.GetString(256);
        if name.Bad? {
          return Refused(SET_DEVICES, name.code);
        }
        var kind := cmd.GetString(256);
        if kind.Bad? {
          return Refused(SET_DEVICES, kind.code);
        }
        var code := SetDevice(i, Device(name.value, kind.value));
        if code != SUCCESS {
          return Refused(SET_DEVICES, code);
        }
      }
      r := Ok(RNone);
    }

    method ReadRegs(cmd: CswpBuffer, dev: nat, count: nat) returns (r: Result)
      requires Valid() && cmd.Valid()
      modifies this`calls, cmd`pos
      ensures Valid() && cmd.Valid()
      ensures Decision(AsState(), cmd.Unread(), r)
        == ReadRegsWire(impl, old(AsState()), dev, count, [], old(cmd.Unread()))
    {
      hide Server.Demand, ParseVarint, AsState;
      var values: seq<u32> := [];
      for i := 0 to count
        invariant Valid() && cmd.Valid()
        invariant ReadRegsWire(impl, AsState(), dev, count - i, values, cmd.Unread())
               == ReadRegsWire(impl, old(AsState()), dev, count, [], old(cmd.Unread()))
      {
        var id := cmd.GetVarint();
        if id.Bad? {
          return Refused(REG_READ, id.code);
        }
        var a := Demand(CallRegRead(dev, Low32(id.value)));
        if a.code != SUCCESS {
          return Refused(REG_READ, a.code);
        }
        values := values + [a.word];
      }
      r := Ok(RValues(values));
    }

    method WriteRegs(cmd: CswpBuffer, dev: nat, count: nat) returns (r: Result)
      requires Valid() && cmd.Valid()
      modifies this`calls, cmd`pos
      ensures Valid() && cmd.Valid()
      ensures Decision(AsState(), cmd.Unread(), r) == WriteRegsWire(impl, old(AsState()), dev, count, old(cmd.Unread()))
    {
      hide Server.Demand, ParseVarint, AsState;
      for i := 0 to count
        invariant Valid() && cmd.Valid()
        invariant WriteRegsWire(impl, AsState(), dev, count - i, cmd.Unread())
               == WriteRegsWire(impl, old(AsState()), dev, count, old(cmd.Unread()))
      {
        var id := cmd.GetVarint();
        if id.Bad? {
          return Refused(REG_WRITE, id.code);
        }
        var w := cmd.GetWord(4);
        if w.Bad? {
          return Refused(REG_WRITE, w.code);
        }
        var a := Demand(CallRegWrite(dev, Low32(id.value), Low32(w.value)));
        if a.code != SUCCESS {
          return Refused(REG_WRITE, a.code);
        }
      }
      r := Ok(RNone);
    }

    method DecideLazy(cmd: CswpBuffer, t: nat) returns (r: Result)
      requires Valid() && cmd.Valid() && !Eager(t)
      modifies this, cmd`pos
      ensures Valid() && cmd.Valid()
      ensures Decision(AsState(), cmd.Unread(), r) == Server.DecideLazy(impl, old(AsState()), t, old(cmd.Unread()))
    {
      var first := cmd.GetVarint();
      if first.Bad? {
        return Refused(t, first.code);
      }
      if t == SET_DEVICES {
        ClearDevices();
        InitDevices(first.value);
        r := AddDevices(cmd, first.value);
        return;
      }
      var count := cmd.GetVarint();
      if count.Bad? {
        return Refused(t, count.code);
      }
      if first.value >= deviceCount {
        return Refused(if t == REG_READ then REG_READ else DEVICE_OPEN, INVALID_DEVICE);
      }
      if t == REG_READ {
        r := ReadRegs(cmd, first.value, count.value);
      } else {
        r := WriteRegs(cmd, first.value, count.value);
      }
    }

    // -------------------------------------------------- decoding arguments

    method GetTarget(cmd: CswpBuffer) returns (r: Parsed<Target>)
      requires cmd.Valid()
      modifies cmd`pos
      ensures cmd.Valid() && r == ParseTarget(old(cmd.Unread())) && r.rest == cmd.Unread()
    {
      var dev := cmd.GetVarint();
      if dev.Bad? { return Bad(dev.code, dev.rest); }
      var addr := cmd.GetWord(8);
      if addr.Bad? { return Bad(addr.code, addr.rest); }
      var size := cmd.GetVarint();
      if size.Bad? { return Bad(size.code, size.rest); }
      var access := cmd.GetVarint();
      if access.Bad? { return Bad(access.code, access.rest); }
      var flags := cmd.GetVarint();
      if flags.Bad? { return Bad(flags.code, flags.rest); }
      r := Got(Target(dev.value, Low64(addr.value), size.value, Low32(access.value), Low32(flags.value)), flags.rest);
    }

    method GetPollTail(cmd: CswpBuffer, m: Target) returns (r: Parsed<Cmd>)
      requires cmd.Valid()
      modifies cmd`pos
      ensures cmd.Valid() && r == ParsePollTail(m, old(cmd.Unread())) && r.rest == cmd.Unread()
    {
      var tries := cmd.GetVarint();
      if tries.Bad? { return Bad(tries.code, tries.rest); }
      var interval := cmd.GetVarint();
      if interval.Bad? { return Bad(interval.code, interval.rest); }
      var mask := cmd.GetData(m.size);
      if mask.Bad? { return Bad(mask.code, mask.rest); }
      var wanted := cmd.GetData(m.size);
      if wanted.Bad? { return Bad(wanted.code, wanted.rest); }
      r := Got(MemPoll(m.dev, m.addr, m.access, m.flags, Low32(tries.value), Low32(interval.value),
                       mask.value, wanted.value), wanted.rest);
    }

    method GetMemory(cmd: CswpBuffer, t: nat) returns (r: Parsed<Cmd>)
      requires cmd.Valid() && t in {MEM_READ, MEM_WRITE, MEM_POLL}
      modifies cmd`pos
      ensures cmd.Valid() && r == ParseBody(t, old(cmd.Unread())) && r.rest == cmd.Unread()
    {
      var target := GetTarget(cmd);
      if target.Bad? { return Bad(target.code, target.rest); }
      var m := target.value;
      if t == MEM_READ {
        r := Got(MemRead(m.dev, m.addr, m.size, m.access, m.flags), target.rest);
      } else if t == MEM_WRITE {
        var data := cmd.GetData(m.size);
        if data.Bad? { return Bad(data.code, data.rest); }
        r := Got(MemWrite(m.dev, m.addr, m.access, m.flags, data.value), data.rest);
      } else {
        r := GetPollTail(cmd, m);
      }
    }

    method GetConfigCommand(cmd: CswpBuffer, t: nat) returns (r: Parsed<Cmd>)
      requires cmd.Valid() && t in {INIT, CLIENT_INFO, SET_CONFIG, GET_CONFIG}
      modifies cmd`pos
      ensures cmd.Valid() && r == ParseBody(t, old(cmd.Unread())) && r.rest == cmd.Unread()
    {
      if t == CLIENT_INFO {
        var m := cmd.GetString(1024);
        if m.Bad? { return Bad(m.code, m.rest); }
        return Got(ClientInfo(m.value), m.rest);
      }
      var first := cmd.GetVarint();
      if first.Bad? { return Bad(first.code, first.rest); }
      var name := cmd.GetString(256);
      if name.Bad? { return Bad(name.code, name.rest); }
      if t == INIT {
        return Got(Init(first.value, name.value), name.rest);
      } else if t == GET_CONFIG {
        return Got(GetConfig(first.value, name.value), name.rest);
      }
      var text := cmd.GetString(256);
      if text.Bad? { return Bad(text.code, text.rest); }
      r := Got(SetConfig(first.value, name.value, text.value), text.rest);
    }

    method GetBody(cmd: CswpBuffer, t: nat) returns (r: Parsed<Cmd>)
      requires cmd.Valid() && Eager(t)
      modifies cmd`pos
      ensures cmd.Valid() && r == ParseBody(t, old(cmd.Unread())) && r.rest == cmd.Unread()
    {
      if t in {MEM_READ, MEM_WRITE, MEM_POLL} {
        r := GetMemory(cmd, t);
      } else if t in {INIT, CLIENT_INFO, SET_CONFIG, GET_CONFIG} {
        r := GetConfigCommand(cmd, t);
      } else if t in {DEVICE_OPEN, DEVICE_CLOSE, GET_CAPABILITIES, REG_LIST} {
        var dev := cmd.GetVarint();
        if dev.Bad? { return Bad(dev.code, dev.rest); }
        r := Got(if t == DEVICE_OPEN then Open(dev.value) else if t == DEVICE_CLOSE then Close(dev.value)
                 else if t == GET_CAPABILITIES then GetCapabilities(dev.value) else RegList(dev.value), dev.rest);
      } else if t == TERM {
        r := Got(Term, cmd.Unread());
      } else if t == GET_DEVICES {
        r := Got(GetDevices, cmd.Unread());
      } else if t == GET_DESCRIPTION {
        r := Got(GetDescription, cmd.Unread());
      } else {
        r := Bad(UNSUPPORTED, cmd.Unread());
      }
    }

    // ---------------------------------------------------------- dispatching

    method Decide(cmd: CswpBuffer, t: nat) returns (r: Result)
      requires Valid() && cmd.Valid()
      modifies this, cmd`pos
      ensures Valid() && cmd.Valid()
      ensures Decision(AsState(), cmd.Unread(), r) == Server.Decide(impl, old(AsState()), t, old(cmd.Unread()))
    {
      hide Exec, ParseBody, Server.DecideLazy;
      if t == ASYNC_MESSAGE {
        r := Silent;
      } else if !Eager(t) {
        r := DecideLazy(cmd, t);
      } else {
        var c := GetBody(cmd, t);
        if c.Bad? {
          r := Refused(t, c.code);
        } else {
          Dispatch.BodyType(t, old(cmd.Unread()));
          r := Run(c.value);
        }
      }
    }

    method Finish(rsp: CswpBuffer, t: nat, r: Result) returns (code: int)
      requires rsp.Writing()
      modifies rsp, rsp.buf
      ensures rsp.Writing()
      ensures forall s, rest :: Server.Finish(impl, Decision(s, rest, r), t, old(rsp.Contents()), rsp.buf.Length)
                        == Handled(s, rest, rsp.Contents(), code)
      ensures rsp.used >= old(rsp.used)
    {
      match r
      case Silent =>
        code := UNSUPPORTED;
      case Crash =>
        code := UNDEFINED;
      case Refused(u, c) =>
        var _ := rsp.PutFields(ErrorFields(impl, u, c));
        code := c;
      case Ok(resp) =>
        code := rsp.PutFields(OkFields(t, resp));
        if code != SUCCESS {
          var _ := rsp.PutFields(ErrorFields(impl, t, code));
        }
    }

    method Handle(cmd: CswpBuffer, rsp: CswpBuffer) returns (code: int)
      requires Valid() && cmd.Valid() && rsp.Writing() && cmd != rsp && cmd.buf != rsp.buf
      modifies this, cmd`pos, rsp, rsp.buf
      ensures Valid() && cmd.Valid() && rsp.Writing()
      ensures Handled(AsState(), cmd.Unread(), rsp.Contents(), code)
           == Server.Handle(impl, old(AsState()), old(cmd.Unread()), old(rsp.Contents()), rsp.buf.Length)
      ensures rsp.used >= old(rsp.used)
    {
      hide Server.Decide, Server.Finish;
      var t := cmd.GetVarint();
      if t.Bad? {
        code := Finish(rsp, NONE, Refused(NONE, t.code));
      } else {
        var r := Decide(cmd, t.value);
        code := Finish(rsp, t.value, r);
      }
    }

    // --------------------------------------------------- one whole request

    method ServeAll(cmd: CswpBuffer, rsp: CswpBuffer, count: nat, abort: bool) returns (code: int, left: nat)
      requires Valid() && cmd.Valid() && rsp.Writing() && cmd != rsp && cmd.buf != rsp.buf
      modifies this, cmd`pos, rsp, rsp.buf
      ensures Valid() && cmd.Valid() && rsp.Writing()
      ensures Served(AsState(), cmd.Unread(), rsp.Contents(), code, left)
           == ServeLoop(impl, old(AsState()), count, abort, old(cmd.Unread()), old(rsp.Contents()),
                 rsp.buf.Length, SUCCESS)
      ensures rsp.used >= old(rsp.used)
    {
      hide Server.Handle;
      code := SUCCESS;
      var c := 0;
      while c < count && cmd.pos < cmd.used
        invariant c <= count && Valid() && cmd.Valid() && rsp.Writing() && rsp.used >= old(rsp.used)
        invariant ServeLoop(impl, AsState(), count - c, abort, cmd.Unread(), rsp.Contents(), rsp.buf.Length, code)
               == ServeLoop(impl, old(AsState()), count, abort, old(cmd.Unread()), old(rsp.Contents()),
                     rsp.buf.Length, SUCCESS)
      {
        code := Handle(cmd, rsp);
        if code != SUCCESS && abort {
          return code, count - c;
        }
        c := c + 1;
      }
      left := count - c;
    }

    /** Cancelled responses for the commands that were not reached. */
    method CancelAll(rsp: CswpBuffer, count: nat)
      requires rsp.Writing()
      modifies rsp, rsp.buf
      ensures rsp.Writing() && rsp.Contents() == CancelRest(old(rsp.Contents()), rsp.buf.Length, count)
      ensures rsp.used >= old(rsp.used)
    {
      for i := 0 to count
        invariant rsp.Writing() && rsp.used >= old(rsp.used)
        invariant CancelRest(rsp.Contents(), rsp.buf.Length, count - i)
          == CancelRest(old(rsp.Contents()), rsp.buf.Length, count)
      {
        var _ := rsp.PutFields(CancelledFields());
      }
    }

    /** From the end of the request header to the finished response, if it is ever finished. */
    method RespondTo(cmd: CswpBuffer, rsp: CswpBuffer, count: nat, mode: byte) returns (done: bool)
      requires Valid() && cmd.Valid() && rsp.Valid() && cmd != rsp && cmd.buf != rsp.buf
      requires 14 <= rsp.buf.Length < 0x1_0000_0000
      modifies this, cmd`pos, rsp, rsp.buf
      ensures Valid() && cmd.Valid() && rsp.Valid()
      ensures var spec := Respond(impl, old(AsState()), count, mode, old(cmd.Unread()), rsp.buf.Length);
        AsState() == spec.state && (done <==> spec.rsp.Some?) && (done ==> spec.rsp == Some(rsp.Contents()))
    {
      hide ServeLoop, CancelRest, Varint, Le;
      rsp.Clear();
      var _ := rsp.PutWord(0, 4);
      LeLength(0, 4);
      assert rsp.Contents() == [] + Le(0, 4);
      assert rsp.used == |rsp.Contents()| == 4;
      var _ := rsp.PutVarint(count);
      assert rsp.Contents() == OpeningIn(count, rsp.buf.Length);
      var code, left := ServeAll(cmd, rsp, count, mode != 0);
      if code != SUCCESS && mode != 0 {
        // the loop's `unsigned` counter never gets there
        if count >= 0x1_0000_0000 { return false; }
        CancelAll(rsp, left);
      }
      rsp.PatchLength(rsp.used);
      done := true;
    }

    /** process_commands on the message in `cmd`: false where its header is cut short, or where it hangs. */
    method Process(cmd: CswpBuffer, rsp: CswpBuffer) returns (served: bool)
      requires Valid() && cmd.Valid() && rsp.Valid() && cmd != rsp && cmd.buf != rsp.buf
      requires 14 <= rsp.buf.Length < 0x1_0000_0000
      modifies this, cmd`pos, rsp, rsp.buf
      ensures Valid() && cmd.Valid() && rsp.Valid()
      ensures var spec := Serve(impl, old(AsState()), old(cmd.Contents()), rsp.buf.Length);
        AsState() == spec.state && (served <==> spec.rsp.Some?) && (served ==> spec.rsp == Some(rsp.Contents()))
    {
      hide Respond;
      cmd.Seek(0);
      assert cmd.Unread() == old(cmd.Contents());
      var size := cmd.GetWord(4);
      if size.Bad? {
        return false;
      }
      var count := cmd.GetVarint();
      if count.Bad? {
        return false;
      }
      var mode := cmd.GetData(1);
      if mode.Bad? {
        return false;
      }
      served := RespondTo(cmd, rsp, count.value, mode.value[0]);
    }
  }
}
