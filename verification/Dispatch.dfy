/**
  One response per command: whatever bytes a handler is given, what it appends to
  the response buffer is a single reply that the client's decoder reads whole.
 */
module Dispatch {
  import opened Wire
  import opened Buffer
  import opened Commands
  import opened Server
  import opened Replies

  /** The code a client reports for a command the server refused. */
  function ClientCode(t: nat, r: Result): int
    requires r.Refused?
  {
    if r.t != t then COMMS else r.code
  }

  /** The codes of the implementation are small positive numbers. */
  predicate PlainCode(code: int) {
    0 <= code < VARINT_LIMIT
  }

  lemma TakeOk(p: Pending, r: Resp, more: seq<byte>)
    requires Fits(p.t, r) && Holds(p, r) && p.t < VARINT_LIMIT
    ensures TakeReply(p, Message(OkFields(p.t, r), more)) == Got(r, more)
  {
    hide Complete;
    TakeV(p.t, Put(V(SUCCESS), RespFields(r)), more);
    TakeV(SUCCESS, RespFields(r), more);
    ReplyRoundTrip(p, r, more);
  }

  lemma TakeRefused(impl: Impl, p: Pending, r: Result, more: seq<byte>)
    requires r.Refused? && r.t < VARINT_LIMIT && PlainCode(r.code) && r.code != SUCCESS
    ensures var b := TakeReply(p, Message(ErrorFields(impl, r.t, r.code), more));
      b.Bad? && b.code == ClientCode(p.t, r)
  {
    hide Complete;
    var text := Str(Fit(impl.errorText(r.t, r.code), 1024));
    TakeV(r.t, Put(V(r.code), Put(text, Done)), more);
    TakeV(r.code, Put(text, Done), more);
  }

  lemma {:induction false} RefusalsAreErrors(impl: Impl, s: State, c: Cmd)
    ensures var r := Exec(impl, s, c).1;
      && (r.Refused? ==> r.code != SUCCESS && r.t < VARINT_LIMIT)
      && (r.Ok? ==> Fits(TypeOf(c), r.resp))
      && !r.Silent? && (r.Crash? ==> c.GetDevices?)
  {
    match c
    case SetDevices(ds) =>
      AddRefusals(impl, InitDevices(impl, ClearDevices(impl, s), |ds|), 0, ds);
    case RegRead(dev, ids) =>
      ReadRefusals(impl, s, dev, ids, []);
    case RegWrite(dev, rs) =>
      WriteRefusals(impl, s, dev, rs);
    case _ =>
  }

  lemma {:induction false} AddRefusals(impl: Impl, s: State, i: nat, ds: seq<Device>)
    ensures var r := AddDevices(impl, s, i, ds).1;
      r == Ok(RNone) || (r.Refused? && r.code != SUCCESS && r.t == SET_DEVICES)
    decreases |ds|
  {
    if ds == [] {
    } else {
      var (s', code) := SetDevice(impl, s, i, ds[0]);
      AddRefusals(impl, s', i + 1, ds[1..]);
    }
  }

  lemma {:induction false} ReadRefusals(impl: Impl, s: State, dev: nat, ids: seq<nat>, values: seq<u32>)
    ensures var r := ReadRegs(impl, s, dev, ids, values).1;
      || (r.Ok? && r.resp.RValues? && |r.resp.values| == |values| + |ids|)
      || (r.Refused? && r.code != SUCCESS && r.t == REG_READ)
    decreases |ids|
  {
    if ids == [] {
    } else {
      var (s', a) := Demand(impl, s, CallRegRead(dev, Low32(ids[0])));
      ReadRefusals(impl, s', dev, ids[1..], values + [a.word]);
    }
  }

  lemma {:induction false} WriteRefusals(impl: Impl, s: State, dev: nat, rs: seq<RegValue>)
    ensures var r := WriteRegs(impl, s, dev, rs).1;
      r == Ok(RNone) || (r.Refused? && r.code != SUCCESS && r.t == REG_WRITE)
    decreases |rs|
  {
    if rs == [] {
    } else {
      var (s', a) := Demand(impl, s, CallRegWrite(dev, Low32(rs[0].id), rs[0].value));
      WriteRefusals(impl, s', dev, rs[1..]);
    }
  }

  // ------------------------------------------------ the type of a refusal

  /** The handlers that report an invalid device under the type of DEVICE_OPEN. */
  predicate Misnamed(t: nat) {
    t in {DEVICE_CLOSE, REG_LIST, REG_WRITE, MEM_READ, MEM_WRITE, MEM_POLL}
  }

  predicate NoSuchDevice(s: State, c: Cmd) {
    Addressed(c).Some? && Addressed(c).value.0 >= |s.devices|
  }

  /** A refusal carries the type of the command refused, except exactly where one of six commands names a
      device that does not exist. */
  lemma RefusalType(impl: Impl, s: State, c: Cmd)
    ensures var r := Exec(impl, s, c).1;
      r.Refused? ==> (r.t != TypeOf(c) <==> Misnamed(TypeOf(c)) && NoSuchDevice(s, c))
  {
    match c
    case SetDevices(ds) =>
      AddRefusals(impl, InitDevices(impl, ClearDevices(impl, s), |ds|), 0, ds);
    case RegRead(dev, ids) =>
      ReadRefusals(impl, s, dev, ids, []);
    case RegWrite(dev, rs) =>
      WriteRefusals(impl, s, dev, rs);
    case _ =>
  }

  /** For instance: closing a device that does not exist is refused as an opening, and the client, who
      expects the closing, reports a communication error instead of the invalid device. */
  lemma CloseIsMisnamed(impl: Impl, s: State, dev: nat, p: Pending, more: seq<byte>)
    requires dev >= |s.devices| && p.t == DEVICE_CLOSE
    ensures Exec(impl, s, Close(dev)) == (s, Refused(DEVICE_OPEN, INVALID_DEVICE))
    ensures var b := TakeReply(p, Message(ErrorFields(impl, DEVICE_OPEN, INVALID_DEVICE), more));
      b.Bad? && b.code == COMMS
  {
    TakeRefused(impl, p, Refused(DEVICE_OPEN, INVALID_DEVICE), more);
    hide TakeReply, Message, ErrorFields;
  }


  // The same for the handlers that act while they decode, on any bytes.

  lemma {:induction false} AddWireShape(impl: Impl, s: State, i: nat, left: nat, b: seq<byte>)
    ensures var r := AddDevicesWire(impl, s, i, left, b).result;
      r == Ok(RNone) || (r.Refused? && r.code != SUCCESS && r.t == SET_DEVICES)
    decreases left
  {
    hide ParseString, SetDevice;
    if left == 0 {
    } else {
      var name := ParseString(b, 256);
      if name.Got? {
        var kind := ParseString(name.rest, 256);
        if kind.Got? {
          AddWireShape(impl, SetDevice(impl, s, i, Device(name.value, kind.value)).0, i + 1, left - 1, kind.rest);
        }
      }
    }
  }

  lemma {:induction false} ReadWireShape(impl: Impl, s: State, dev: nat, left: nat, values: seq<u32>, b: seq<byte>)
    ensures var r := ReadRegsWire(impl, s, dev, left, values, b).result;
      (r.Ok? && r.resp.RValues?) || (r.Refused? && r.code != SUCCESS && r.t == REG_READ)
    decreases left
  {
    hide ParseVarint, Demand;
    if left == 0 {
    } else {
      var id := ParseVarint(b);
      if id.Got? {
        var (s', a) := Demand(impl, s, CallRegRead(dev, Low32(id.value)));
        ReadWireShape(impl, s', dev, left - 1, values + [a.word], id.rest);
      }
    }
  }

  lemma {:induction false} WriteWireShape(impl: Impl, s: State, dev: nat, left: nat, b: seq<byte>)
    ensures var r := WriteRegsWire(impl, s, dev, left, b).result;
      r == Ok(RNone) || (r.Refused? && r.code != SUCCESS && r.t == REG_WRITE)
    decreases left
  {
    hide ParseVarint, ParseWord, Demand;
    if left == 0 {
    } else {
      var id := ParseVarint(b);
      if id.Got? {
        var w := ParseWord(id.rest, 4);
        if w.Got? {
          var s' := Demand(impl, s, CallRegWrite(dev, Low32(id.value), Low32(w.value))).0;
          WriteWireShape(impl, s', dev, left - 1, w.rest);
        }
      }
    }
  }

  lemma BodyType(t: nat, b: seq<byte>)
    requires Eager(t)
    ensures var c := ParseBody(t, b); c.Got? ==> TypeOf(c.value) == t
  {
    hide ParseVarint, ParseString, ParseTarget, ParseData;
  }

  /** Whatever the bytes: a success carries the reply of the command's own type, a refusal carries an error code. */
  lemma DecisionShape(impl: Impl, s: State, b: seq<byte>)
    ensures var (t, d) := DecideNext(impl, s, b);
      && (d.result.Ok? ==> Fits(t, d.result.resp))
      && (d.result.Refused? ==> d.result.code != SUCCESS && d.result.t in {t, NONE, DEVICE_OPEN})
      && (d.result.Silent? <==> ParseVarint(b).Got? && t == ASYNC_MESSAGE)
      && (d.result.Crash? ==> t == GET_DEVICES && exists e :: e in s.devices && !Named(e))
  {
    var (t, d) := DecideNext(impl, s, b);
    var h := ParseVarint(b);
    if h.Got? && t != ASYNC_MESSAGE {
      if Eager(t) {
        BodyType(t, h.rest);
        var c := ParseBody(t, h.rest);
        if c.Got? {
          RefusalsAreErrors(impl, s, c.value);
        }
      } else {
        LazyShape(impl, s, t, h.rest);
      }
    }
  }

  /** What stands at the cursor names a device that does not exist: its arguments, or for register
      writes those before the first register, can be read. */
  predicate NamesNoDevice(s: State, t: nat, b: seq<byte>) {
    if t == REG_WRITE then var p := ParsePair(b); p.Got? && p.value.0 >= |s.devices|
    else Eager(t) && var c := ParseBody(t, b); c.Got? && NoSuchDevice(s, c.value)
  }

  /** The same on any bytes at all. */
  lemma RefusalTypeOnBytes(impl: Impl, s: State, b: seq<byte>)
    ensures var (t, d) := DecideNext(impl, s, b);
      d.result.Refused? ==>
        (d.result.t != t <==> ParseVarint(b).Got? && Misnamed(t) && NamesNoDevice(s, t, ParseVarint(b).rest))
  {
    var (t, d) := DecideNext(impl, s, b);
    var h := ParseVarint(b);
    if h.Got? && t != ASYNC_MESSAGE {
      hide ParseVarint, ParseString;
      if Eager(t) {
        BodyType(t, h.rest);
        var c := ParseBody(t, h.rest);
        hide ParseBody;
        if c.Got? { RefusalType(impl, s, c.value); hide Exec; }
      } else {
        LazyType(impl, s, t, h.rest);
        hide DecideLazy;
      }
    }
  }

  lemma LazyType(impl: Impl, s: State, t: nat, b: seq<byte>)
    requires !Eager(t)
    ensures var r := DecideLazy(impl, s, t, b).result;
      r.Refused? ==> (r.t != t <==> t == REG_WRITE && NamesNoDevice(s, t, b))
  {
    if t == SET_DEVICES {
      var n := ParseVarint(b);
      if n.Got? {
        AddWireShape(impl, InitDevices(impl, ClearDevices(impl, s), n.value), 0, n.value, n.rest);
      }
    } else {
      var p := ParsePair(b);
      if p.Got? {
        ReadWireShape(impl, s, p.value.0, p.value.1, [], p.rest);
        WriteWireShape(impl, s, p.value.0, p.value.1, p.rest);
      }
    }
  }

  lemma LazyShape(impl: Impl, s: State, t: nat, b: seq<byte>)
    requires !Eager(t)
    ensures var r := DecideLazy(impl, s, t, b).result;
      (r.Ok? && Fits(t, r.resp)) || (r.Refused? && r.code != SUCCESS && r.t in {t, DEVICE_OPEN})
  {
    if t == SET_DEVICES {
      var n := ParseVarint(b);
      if n.Got? {
        AddWireShape(impl, InitDevices(impl, ClearDevices(impl, s), n.value), 0, n.value, n.rest);
      }
    } else {
      var p := ParsePair(b);
      if p.Got? {
        ReadWireShape(impl, s, p.value.0, p.value.1, [], p.rest);
        WriteWireShape(impl, s, p.value.0, p.value.1, p.rest);
      }
    }
  }

  /** The reply a decision calls for. */
  function Reply(impl: Impl, t: nat, r: Result): Fields {
    match r
    case Ok(resp) => OkFields(t, resp)
    case Refused(u, code) => ErrorFields(impl, u, code)
    case _ => Done
  }

  /** One response per command, on any bytes at all: with room for it, handling what stands at the cursor
      appends one reply, whose error code is the handler's return value and, on success, whose type is the
      command's; the client reads exactly that reply and is left at the next.  Only CSWP_ASYNC_MESSAGE
      gets none, and only GET_DEVICES on a table with a gap has no defined behaviour. */
  lemma OneResponse(impl: Impl, s: State, b: seq<byte>, out: seq<byte>, cap: nat, p: Pending, more: seq<byte>)
    requires var (t, d) := DecideNext(impl, s, b);
      && t < VARINT_LIMIT && |out| + |Message(Reply(impl, t, d.result), [])| <= cap
      && (d.result.Ok? ==> p.t == t && Holds(p, d.result.resp))
      && (d.result.Refused? ==> PlainCode(d.result.code))
    ensures var (t, d) := DecideNext(impl, s, b);
      var h := Handle(impl, s, b, out, cap);
      var reply := Message(Reply(impl, t, d.result), []);
      && h.out == out + reply
      && (h.code == SUCCESS <==> d.result.Ok?)
      && (h.code == SUCCESS ==> TakeReply(p, reply + more) == Got(d.result.resp, more))
      && (d.result.Refused? ==>
            ParseHeader(reply + more).Got? && ParseHeader(reply + more).value == (d.result.t, h.code))
      && (reply == [] <==> d.result.Silent? || d.result.Crash?)
  {
    hide DecideNext, Message;
    var (t, d) := DecideNext(impl, s, b);
    DecisionShape(impl, s, b);
    var fs := Reply(impl, t, d.result);
    var _ := PutAllExact(out, cap, fs);
    MessageRest(fs, more);
    match d.result
    case Ok(resp) =>
      TakeOk(p, resp, more);
      ReplyNonEmpty(t, Put(V(SUCCESS), RespFields(resp)));
    case Refused(u, code) =>
      var text := Str(Fit(impl.errorText(u, code), 1024));
      ReplyNonEmpty(u, Put(V(code), Put(text, Done)));
      TakeV(u, Put(V(code), Put(text, Done)), more);
      TakeV(code, Put(text, Done), more);
    case _ =>
      NoReply(out);
  }

  lemma ReplyNonEmpty(t: nat, next: Fields)
    ensures Message(Put(V(t), next), []) != []
  {
    VarintNonEmpty(t);
  }

  lemma NoReply(out: seq<byte>)
    ensures Message(Done, []) == [] && out + [] == out
  {
  }

  /** What the client reports of a refusal: the refusal's own code, except where one of six commands names a
      device that does not exist; there a communication error. */
  lemma ClientReports(impl: Impl, s: State, c: Cmd, p: Pending, more: seq<byte>)
    requires p.t == TypeOf(c)
    requires var r := Exec(impl, s, c).1; r.Refused? && PlainCode(r.code)
    ensures var r := Exec(impl, s, c).1;
      var b := TakeReply(p, Message(ErrorFields(impl, r.t, r.code), more));
      b.Bad? && b.code == if Misnamed(TypeOf(c)) && NoSuchDevice(s, c) then COMMS else r.code
  {
    RefusalType(impl, s, c);
    RefusalsAreErrors(impl, s, c);
    hide Exec, Message, ErrorFields, TakeReply;
    TakeRefused(impl, p, Exec(impl, s, c).1, more);
  }

  /** The numbers of the commands (cswp_types.h). */
  predicate Known(t: nat) {
    t in {INIT, TERM, CLIENT_INFO, SET_DEVICES, GET_DEVICES, GET_DESCRIPTION, DEVICE_OPEN, DEVICE_CLOSE, SET_CONFIG,
          GET_CONFIG, GET_CAPABILITIES, REG_LIST, REG_READ, REG_WRITE, MEM_READ, MEM_WRITE, MEM_POLL}
  }

  /** A number that no command has is refused under that number, and nothing behind it is read or done. */
  lemma UnknownCommand(impl: Impl, s: State, t: nat, b: seq<byte>)
    requires t != ASYNC_MESSAGE && !Known(t)
    ensures Decide(impl, s, t, b) == Decision(s, b, Refused(t, UNSUPPORTED))
  {
    hide ParseVarint, ParseString, ParseTarget, ParseData, Exec, DecideLazy;
  }

  /** A command decoded in one go whose arguments cannot be decoded is refused under its own number; nothing is
      asked or changed. */
  lemma Malformed(impl: Impl, s: State, t: nat, b: seq<byte>)
    requires Eager(t) && Known(t) && ParseBody(t, b).Bad?
    ensures var d := Decide(impl, s, t, b);
      && d.state == s && d.result.Refused? && d.result.t == t
      && d.result.code in {BUFFER_EMPTY, OUTPUT_OVERFLOW, UNDEFINED}
  {
    forall x: seq<byte> ensures ParseVarint(x).Bad? ==> ParseVarint(x).code in {BUFFER_EMPTY, UNDEFINED} {
      VarintUndefined(x);
    }
    hide ParseVarint, Exec, DecideLazy;
  }

  /** `more` is as much of the message as there is room for behind `data`, cut between or inside fields. */
  predicate PutIn(data: seq<byte>, cap: nat, message: seq<byte>, more: seq<byte>) {
    && more <= message && |data| + |more| <= cap
    && (more == message <==> |data| + |message| <= cap)
  }

  /** One handled command with no room assumed.  The code is a success exactly if the handler's is and the
      whole reply fits.  A reply that does not fit leaves a front piece of itself and is followed by the error
      BUFFER_FULL, as far as that fits; a refusal is written as far as it fits and keeps its own code. */
  lemma AnyRoom(impl: Impl, s: State, b: seq<byte>, out: seq<byte>, cap: nat)
      returns (piece: seq<byte>, error: seq<byte>)
    requires |out| <= cap
    ensures var (t, d) := DecideNext(impl, s, b);
      var h := Handle(impl, s, b, out, cap);
      && h.state == d.state && h.rest == d.rest && h.out == out + piece + error
      && match d.result
         case Ok(r) =>
           var reply := Message(OkFields(t, r), []);
           && PutIn(out, cap, reply, piece)
           && (if piece == reply then h.code == SUCCESS && error == []
               else h.code == BUFFER_FULL
                    && PutIn(out + piece, cap, Message(ErrorFields(impl, t, BUFFER_FULL), []), error))
         case Refused(u, code) =>
           && piece == [] && h.code == code != SUCCESS
           && PutIn(out, cap, Message(ErrorFields(impl, u, code), []), error)
         case Silent => piece == [] == error && h.code == UNSUPPORTED
         case Crash => piece == [] == error && h.code == UNDEFINED
  {
    DecisionShape(impl, s, b);
    hide DecideNext, Message, OkFields, ErrorFields, PutAll, Fits;
    var (t, d) := DecideNext(impl, s, b);
    piece, error := [], [];
    if d.result.Ok? {
      piece := PutAllExact(out, cap, OkFields(t, d.result.resp));
      if |piece| < |Message(OkFields(t, d.result.resp), [])| {
        error := PutAllExact(out + piece, cap, ErrorFields(impl, t, BUFFER_FULL));
      }
    } else if d.result.Refused? {
      error := PutAllExact(out, cap, ErrorFields(impl, d.result.t, d.result.code));
    }
    assert out + [] == out && out + piece + [] == out + piece && out + [] + error == out + error;
  }
}
