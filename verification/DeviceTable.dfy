/**
  The device table over a session: what SET_DEVICES leaves in it, and what
  GET_DEVICES reads back later.
 */
module DeviceTable {
  import opened Wire
  import opened Commands
  import opened Server
  import opened Replies
  import opened Dispatch
  import opened Batch

  /** The table has `rows` rows; the first `m` hold the first `m` devices of `ds`, the others are empty. */
  predicate Filled(s: State, ds: seq<Device>, m: nat, rows: nat) {
    && |s.devices| == rows && m <= |ds| && m <= rows
    && (forall i :: 0 <= i < m ==> s.devices[i].name == Some(ds[i].name) && s.devices[i].kind == Some(ds[i].kind))
    && (forall i :: m <= i < rows ==> s.devices[i].name == None && s.devices[i].kind == None)
  }

  // ---------------------------------------------------------------- what SET_DEVICES leaves

  /** The devices that can be read from the bytes, up to the first name or type that cannot. */
  function Readable(left: nat, b: seq<byte>): seq<Device>
    decreases left
  {
    if left == 0 then []
    else
      var name := ParseString(b, 256);
      if name.Bad? then []
      else
        var kind := ParseString(name.rest, 256);
        if kind.Bad? then [] else [Device(name.value, kind.value)] + Readable(left - 1, kind.rest)
  }

  /** How many of them are stored: up to the first that cannot be read, that has no row, or that the
      implementation refuses, and that one is stored. */
  function Stored(impl: Impl, s: State, i: nat, left: nat, b: seq<byte>): nat
    decreases left
  {
    if left == 0 then 0
    else
      var name := ParseString(b, 256);
      if name.Bad? then 0
      else
        var kind := ParseString(name.rest, 256);
        if kind.Bad? || i >= |s.devices| then 0
        else
          var (s, code) := SetDevice(impl, s, i, Device(name.value, kind.value));
          if code != SUCCESS then 1 else 1 + Stored(impl, s, i + 1, left - 1, kind.rest)
  }

  lemma SetDeviceFills(impl: Impl, s: State, front: seq<Device>, d: Device, rows: nat)
    requires Filled(s, front, |front|, rows)
    ensures var (s', code) := SetDevice(impl, s, |front|, d);
      if |front| < rows then Filled(s', front + [d], |front| + 1, rows) else s' == s && code != SUCCESS
  {
  }

  lemma FilledMore(s: State, ds: seq<Device>, more: seq<Device>, m: nat, rows: nat)
    requires Filled(s, ds, m, rows)
    ensures Filled(s, ds + more, m, rows)
  {
  }

  /** SET_DEVICES stores as many devices as `Stored` says, and those it could read, in order. */
  lemma {:induction false} WireFills(impl: Impl, s: State, left: nat, b: seq<byte>, front: seq<Device>, rows: nat)
    requires Filled(s, front, |front|, rows)
    ensures var d := AddDevicesWire(impl, s, |front|, left, b);
      var m := Stored(impl, s, |front|, left, b);
      && m <= |Readable(left, b)| <= left
      && Filled(d.state, front + Readable(left, b), |front| + m, rows)
      && (d.result.Ok? ==> m == left)
    decreases left
  {
    hide Filled, ParseString, SetDevice;
    if left == 0 {
      assert front + [] == front;
    } else {
      var name := ParseString(b, 256);
      if name.Bad? {
        assert front + [] == front;
      } else {
        var kind := ParseString(name.rest, 256);
        if kind.Bad? {
          assert front + [] == front;
        } else {
          var d := Device(name.value, kind.value);
          var rest := Readable(left - 1, kind.rest);
          var (s', code) := SetDevice(impl, s, |front|, d);
          FilledRows(s, front, rows);
          SetDeviceFills(impl, s, front, d, rows);
          ReadableLength(left - 1, kind.rest);
          assert front + [d] + rest == front + ([d] + rest);
          if |front| >= rows {
            FilledMore(s, front, [d] + rest, |front|, rows);
          } else if code != SUCCESS {
            FilledMore(s', front + [d], rest, |front| + 1, rows);
          } else {
            WireFills(impl, s', left - 1, kind.rest, front + [d], rows);
          }
        }
      }
    }
  }

  lemma FilledRows(s: State, front: seq<Device>, rows: nat)
    requires Filled(s, front, |front|, rows)
    ensures |s.devices| == rows
  {
  }

  lemma {:induction false} ReadableLength(left: nat, b: seq<byte>)
    ensures |Readable(left, b)| <= left
    decreases left
  {
    hide ParseString;
    if left == 0 {
    } else {
      var name := ParseString(b, 256);
      if name.Got? && ParseString(name.rest, 256).Got? { ReadableLength(left - 1, ParseString(name.rest, 256).rest); }
    }
  }

  // ---------------------------------------------------------------- a session

  /** The commands that leave the names and types alone. */
  predicate KeepsTable(c: Cmd) {
    !c.SetDevices? && !c.Init? && !c.Term?
  }

  lemma {:induction false} RegsKeepTable(impl: Impl, s: State, dev: nat, ids: seq<nat>, values: seq<u32>)
    ensures ReadRegs(impl, s, dev, ids, values).0.devices == s.devices
    decreases |ids|
  {
    if ids == [] {
    } else {
      var (s', a) := Demand(impl, s, CallRegRead(dev, Low32(ids[0])));
      RegsKeepTable(impl, s', dev, ids[1..], values + [a.word]);
    }
  }

  lemma {:induction false} WritesKeepTable(impl: Impl, s: State, dev: nat, rs: seq<RegValue>)
    ensures WriteRegs(impl, s, dev, rs).0.devices == s.devices
    decreases |rs|
  {
    if rs == [] {
    } else {
      var (s', a) := Demand(impl, s, CallRegWrite(dev, Low32(rs[0].id), rs[0].value));
      WritesKeepTable(impl, s', dev, rs[1..]);
    }
  }

  lemma ExecKeepsTable(impl: Impl, s: State, c: Cmd, ds: seq<Device>, m: nat, rows: nat)
    requires KeepsTable(c) && Filled(s, ds, m, rows)
    ensures Filled(Exec(impl, s, c).0, ds, m, rows)
  {
    match c
    case RegRead(dev, ids) => RegsKeepTable(impl, s, dev, ids, []);
    case RegWrite(dev, rs) => WritesKeepTable(impl, s, dev, rs);
    case _ =>
  }

  lemma {:induction false} ReadWireKeeps(impl: Impl, s: State, dev: nat, left: nat, values: seq<u32>, b: seq<byte>)
    ensures ReadRegsWire(impl, s, dev, left, values, b).state.devices == s.devices
    decreases left
  {
    hide ParseVarint;
    if left == 0 {
    } else {
      var id := ParseVarint(b);
      if id.Got? {
        var (s', a) := Demand(impl, s, CallRegRead(dev, Low32(id.value)));
        ReadWireKeeps(impl, s', dev, left - 1, values + [a.word], id.rest);
      }
    }
  }

  lemma {:induction false} WriteWireKeeps(impl: Impl, s: State, dev: nat, left: nat, b: seq<byte>)
    ensures WriteRegsWire(impl, s, dev, left, b).state.devices == s.devices
    decreases left
  {
    hide ParseVarint, ParseWord;
    if left == 0 {
    } else {
      var id := ParseVarint(b);
      if id.Got? {
        var w := ParseWord(id.rest, 4);
        if w.Got? {
          var (s', a) := Demand(impl, s, CallRegWrite(dev, Low32(id.value), Low32(w.value)));
          WriteWireKeeps(impl, s', dev, left - 1, w.rest);
        }
      }
    }
  }

  /** What stands at the cursor is none of the three commands that change the table. */
  predicate KeepsOnWire(b: seq<byte>) {
    var t := ParseVarint(b);
    t.Bad? || t.value !in {INIT, TERM, SET_DEVICES}
  }

  lemma WireKeepsTable(impl: Impl, s: State, b: seq<byte>, ds: seq<Device>, m: nat, rows: nat)
    requires KeepsOnWire(b) && Filled(s, ds, m, rows)
    ensures Filled(DecideNext(impl, s, b).1.state, ds, m, rows)
  {
    var t := ParseVarint(b);
    hide ParseVarint, ParseString;
    if t.Got? && t.value != ASYNC_MESSAGE {
      if Eager(t.value) {
        BodyType(t.value, t.rest);
        hide ParseBody;
        var c := ParseBody(t.value, t.rest);
        if c.Got? {
          ExecKeepsTable(impl, s, c.value, ds, m, rows);
          hide Exec, Filled;
        }
      } else {
        var p := ParsePair(t.rest);
        if p.Got? {
          ReadWireKeeps(impl, s, p.value.0, p.value.1, [], p.rest);
          WriteWireKeeps(impl, s, p.value.0, p.value.1, p.rest);
        }
      }
    }
  }

  /** The state after a session: whatever bytes stood at the cursor, and whatever became of each. */
  function After(impl: Impl, s: State, later: seq<seq<byte>>): State
    decreases |later|
  {
    if later == [] then s else After(impl, DecideNext(impl, s, later[0]).1.state, later[1..])
  }

  lemma {:induction false} SessionKeepsTable(impl: Impl, s: State, later: seq<seq<byte>>, ds: seq<Device>,
      m: nat, rows: nat)
    requires (forall b <- later :: KeepsOnWire(b)) && Filled(s, ds, m, rows)
    ensures Filled(After(impl, s, later), ds, m, rows)
    decreases |later|
  {
    hide Filled, DecideNext, KeepsOnWire;
    if later == [] {
    } else {
      assert later[0] in later;
      WireKeepsTable(impl, s, later[0], ds, m, rows);
      SessionKeepsTable(impl, DecideNext(impl, s, later[0]).1.state, later[1..], ds, m, rows);
    }
  }

  lemma ReadTable(impl: Impl, s: State, ds: seq<Device>, m: nat, rows: nat)
    requires Filled(s, ds, m, rows)
    ensures Exec(impl, s, GetDevices).1 == if m == rows then Ok(RDevices(ds[..m])) else Crash
  {
    if m == rows {
      assert forall e :: e in s.devices ==> Named(e);
      assert DeviceList(s.devices) == ds[..m];
    } else {
      assert s.devices[m] in s.devices && !Named(s.devices[m]);
    }
  }

  // ---------------------------------------------------------------- the round trip

  function Emptied(impl: Impl, s: State, count: nat): State {
    InitDevices(impl, ClearDevices(impl, s), count)
  }

  /** Whatever follows the identifier of SET_DEVICES, and whatever is sent later but INIT, TERM and another
      SET_DEVICES: a count that cannot be read changes nothing; else GET_DEVICES returns what was read, if and
      only if as many devices were stored as the table has rows, which is the count as an `unsigned`.  If not,
      the rows behind them are null strings, and GET_DEVICES has no defined behaviour. */
  lemma DeviceListRoundTrip(impl: Impl, s: State, b: seq<byte>, later: seq<seq<byte>>)
    requires forall x <- later :: KeepsOnWire(x)
    ensures var n := ParseVarint(b);
      var d := Decide(impl, s, SET_DEVICES, b);
      if n.Bad? then d.state == s && d.result.Refused?
      else
        var rows := Low32(n.value);
        var read := Readable(n.value, n.rest);
        var m := Stored(impl, Emptied(impl, s, n.value), 0, n.value, n.rest);
        && m <= |read| <= n.value && m <= rows && (d.result.Ok? ==> m == n.value)
        && Exec(impl, After(impl, d.state, later), GetDevices).1 == if m == rows then Ok(RDevices(read[..m])) else Crash
  {
    var n := ParseVarint(b);
    hide ParseVarint, Filled, Exec, AddDevicesWire, Stored, Readable, KeepsOnWire, After;
    if n.Got? {
      var rows := Low32(n.value);
      var blank := Emptied(impl, s, n.value);
      EmptiedFilled(impl, s, n.value);
      WireFills(impl, blank, n.value, n.rest, [], rows);
      var read := Readable(n.value, n.rest);
      var m := Stored(impl, blank, 0, n.value, n.rest);
      assert [] + read == read;
      var d := AddDevicesWire(impl, blank, 0, n.value, n.rest);
      SessionKeepsTable(impl, d.state, later, read, m, rows);
      FilledBound(After(impl, d.state, later), read, m, rows);
      ReadTable(impl, After(impl, d.state, later), read, m, rows);
    }
  }

  lemma EmptiedFilled(impl: Impl, s: State, count: nat)
    ensures Filled(Emptied(impl, s, count), [], 0, Low32(count))
  {
    hide Low32;
  }

  lemma FilledBound(s: State, ds: seq<Device>, m: nat, rows: nat)
    requires Filled(s, ds, m, rows)
    ensures m <= rows
  {
  }

  // ---------------------------------------------------------------- a client's list

  predicate Short(d: Device) { |d.name| < 256 && |d.kind| < 256 }

  /** How many devices of a list the implementation is offered before it refuses one, that one included. */
  function Offered(impl: Impl, s: State, i: nat, ds: seq<Device>): nat
    decreases |ds|
  {
    if ds == [] then 0
    else
      var (s, code) := SetDevice(impl, s, i, ds[0]);
      if code != SUCCESS then 1 else 1 + Offered(impl, s, i + 1, ds[1..])
  }

  lemma {:induction false} EncodedStored(impl: Impl, s: State, i: nat, ds: seq<Device>, rest: seq<byte>)
    requires i + |ds| <= |s.devices| && forall d <- ds :: |d.name| < VARINT_LIMIT && |d.kind| < VARINT_LIMIT
    ensures var b := Message(DeviceFields(ds), rest);
      && (Stored(impl, s, i, |ds|, b) == |ds| <==> (forall d <- ds :: Short(d)) && Offered(impl, s, i, ds) == |ds|)
      && ((forall d <- ds :: Short(d)) ==> Readable(|ds|, b) == ds)
    decreases |ds|
  {
    if ds == [] {
    } else {
      var d, more := ds[0], DeviceFields(ds[1..]);
      assert d in ds && ds == [d] + ds[1..];
      var b := Message(DeviceFields(ds), rest);
      StringRoundTrip(d.name, Message(Put(Str(d.kind), more), rest), 256);
      StringRoundTrip(d.kind, Message(more, rest), 256);
      assert b == Bytes(Str(d.name)) + Message(Put(Str(d.kind), more), rest);
      assert Message(Put(Str(d.kind), more), rest) == Bytes(Str(d.kind)) + Message(more, rest);
      hide ParseString, Bytes, Message;
      var (s', code) := SetDevice(impl, s, i, d);
      assert |s'.devices| == |s.devices|;
      hide SetDevice;
      if Short(d) {
        EncodedStored(impl, s', i + 1, ds[1..], rest);
        hide Short;
        assert (forall x <- ds :: Short(x)) <==> (forall x <- ds[1..] :: Short(x));
      }
    }
  }

  /** For a list that a client encodes: GET_DEVICES returns it if and only if no name or type takes more than
      255 bytes and the implementation refuses none but, possibly, the last. */
  lemma EncodedListRoundTrip(impl: Impl, s: State, ds: seq<Device>, rest: seq<byte>, later: seq<seq<byte>>)
    requires forall x <- later :: KeepsOnWire(x)
    requires |ds| < VARINT_LIMIT && forall d <- ds :: |d.name| < VARINT_LIMIT && |d.kind| < VARINT_LIMIT
    ensures var d := Decide(impl, s, SET_DEVICES, Message(BodyFields(SetDevices(ds)), rest));
      Exec(impl, After(impl, d.state, later), GetDevices).1 ==
        if (forall x <- ds :: Short(x)) && Offered(impl, Emptied(impl, s, |ds|), 0, ds) == |ds| then Ok(RDevices(ds))
        else Crash
  {
    var b := Message(BodyFields(SetDevices(ds)), rest);
    TakeV(|ds|, DeviceFields(ds), rest);
    DeviceListRoundTrip(impl, s, b, later);
    EmptiedFilled(impl, s, |ds|);
    hide ParseVarint, Exec, After, Decide, Stored, Readable, Offered, Emptied, KeepsOnWire, Short, DeviceFields;
    EncodedStored(impl, Emptied(impl, s, |ds|), 0, ds, rest);
    assert ds[..|ds|] == ds;
  }

  /** For instance one device with a name of 256 bytes or more: the client sends it, the server refuses it
      with the table already renewed, and GET_DEVICES meets a null string. */
  lemma LongName(impl: Impl, s: State, d: Device)
    requires 256 <= |d.name| < VARINT_LIMIT && |d.kind| < VARINT_LIMIT
    ensures var e := Decide(impl, s, SET_DEVICES, Message(BodyFields(SetDevices([d])), []));
      && e.result == Refused(SET_DEVICES, OUTPUT_OVERFLOW)
      && Exec(impl, e.state, GetDevices).1 == Crash
  {
    EncodedListRoundTrip(impl, s, [d], [], []);
    assert d in [d];
    TakeV(1, DeviceFields([d]), []);
    StringRoundTrip(d.name, Message(Put(Str(d.kind), DeviceFields([])), []), 256);
    assert [d][1..] == [];
    assert Message(DeviceFields([d]), []) == Bytes(Str(d.name)) + Message(Put(Str(d.kind), DeviceFields([])), []);
    hide ParseVarint, ParseString, Bytes, Exec, InitDevices, ClearDevices;
  }

  /** From end to end: a client's SET_DEVICES is framed, served and answered; any session later a client with
      room for it asks, and decodes from the served response the names and types that were set, in order. */
  lemma ClientGetsList(impl: Impl, s: State, ds: seq<Device>, later: seq<seq<byte>>, p: Pending, cap: nat)
    requires forall x <- later :: KeepsOnWire(x)
    requires var cmds := [SetDevices(ds)];
      Delivered(cmds, Direct(impl, s, cmds), Responses(impl, s, cmds, []), [], 0, cap)
    requires Exec(impl, s, SetDevices(ds)).1.Ok?
    requires p.t == GET_DEVICES && Holds(p, RDevices(ds))
    requires |Opening(1)| + |Message(OkFields(GET_DEVICES, RDevices(ds)), [])| <= cap
    ensures var sent := Serve(impl, s, Frame(1, 0, Body([SetDevices(ds)], [])), cap);
      var now := After(impl, sent.state, later);
      var got := Serve(impl, now, Frame(1, 0, Body([GetDevices], [])), cap);
      && sent.rsp.Some? && got.rsp.Some? && got.state == now
      && Receive(1, [p], got.rsp.value) == Finished(1, [RDevices(ds)], SUCCESS)
  {
    var cmds := [SetDevices(ds)];
    assert SetDevices(ds) in cmds;
    BatchAgain(impl, s, cmds, 0, [], cap);
    DecideExec(impl, s, SetDevices(ds), []);
    SetState(impl, s, ds);
    AllOffered(impl, Emptied(impl, s, |ds|), 0, ds);
    EncodedListRoundTrip(impl, s, ds, [], later);
    assert forall x <- ds :: Short(x);
    hide Exec, Decide, Serve, Receive, Frame, Opening, Responses, Direct, Body, OkFields, Holds, Message,
        BodyFields, After;
    hide Delivered, KeepsOnWire, Offered, Emptied;
    GetsList(impl, After(impl, Exec(impl, s, SetDevices(ds)).0, later), ds, p, cap);
  }

  lemma SetState(impl: Impl, s: State, ds: seq<Device>)
    requires Exec(impl, s, SetDevices(ds)).1.Ok?
    ensures Direct(impl, s, [SetDevices(ds)]).state == Exec(impl, s, SetDevices(ds)).0
    ensures Exec(impl, s, SetDevices(ds)) == AddDevices(impl, Emptied(impl, s, |ds|), 0, ds)
  {
    hide AddDevices;
    var (s', r) := Exec(impl, s, SetDevices(ds));
    assert [SetDevices(ds)][1..] == [];
    assert Direct(impl, s', []).state == s';
  }

  lemma {:induction false} AllOffered(impl: Impl, s: State, i: nat, ds: seq<Device>)
    requires AddDevices(impl, s, i, ds).1.Ok?
    ensures Offered(impl, s, i, ds) == |ds|
    decreases |ds|
  {
    if ds == [] {
    } else {
      AllOffered(impl, SetDevice(impl, s, i, ds[0]).0, i + 1, ds[1..]);
    }
  }

  lemma GetsList(impl: Impl, now: State, ds: seq<Device>, p: Pending, cap: nat)
    requires Exec(impl, now, GetDevices).1 == Ok(RDevices(ds))
    requires p.t == GET_DEVICES && Holds(p, RDevices(ds))
    requires |Opening(1)| + |Message(OkFields(GET_DEVICES, RDevices(ds)), [])| <= cap < 0x1_0000_0000
    ensures var got := Serve(impl, now, Frame(1, 0, Body([GetDevices], [])), cap);
      && got.rsp.Some? && got.state == now
      && Receive(1, [p], got.rsp.value) == Finished(1, [RDevices(ds)], SUCCESS)
  {
    SmallFrame();
    assert [GetDevices][1..] == [];
    assert Exec(impl, now, GetDevices).0 == now;
    hide Exec, OkFields, Message, Serve, Receive, Frame, Opening, Holds, Body;
    assert Direct(impl, now, []) == Run(now, [], None);
    assert Direct(impl, now, [GetDevices]) == Run(now, [RDevices(ds)] + [], None);
    assert Responses(impl, now, [], []) == [];
    assert Responses(impl, now, [GetDevices], []) == Message(OkFields(GET_DEVICES, RDevices(ds)), []);
    BatchRefinement(impl, now, [GetDevices], [p], 0, [], cap);
  }

  lemma SmallFrame()
    ensures |Frame(1, 0, Body([GetDevices], []))| < 0x100
  {
    LeLength(4 + |Varint(1) + [0] + Body([GetDevices], [])|, 4);
    assert |Varint(1)| == 1 && |Varint(GET_DEVICES)| == 1;
    assert [GetDevices][1..] == [];
    assert |Body([GetDevices], [])| == 1;
  }
}
