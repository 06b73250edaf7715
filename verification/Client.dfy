/**
  The client (cswp/client/cswp_client.c): requests gathered in a buffer behind a
  space kept for the header, a list of pending responses, and the exchange that
  sends one and empties the other.
 */
module Client {
  import opened Wire
  import opened Buffer
  import opened Commands
  import opened Server
  import opened Replies
  import opened Batch
  import opened Requests
  import CommandServer

  // uint32 size, varint command count (ten bytes), uint8 error behaviour
  const HEADER_SIZE := 4 + 10 + 1

  const BATCH_NONE: byte := 0
  const BATCH_CONTINUE: byte := 1
  const BATCH_ABORT: byte := 2

  /** Two pieces injected one behind the other. */
  lemma Injected(before: seq<byte>, at: nat, a: seq<byte>, b: seq<byte>)
    requires at + |a| + |b| <= |before|
    ensures var mid := before[..at] + a + before[at + |a|..];
      var after := mid[..at + |a|] + b + mid[at + |a| + |b|..];
      && after[at..] == a + b + before[at + |a| + |b|..]
      && after[at + |a| + |b|..] == before[at + |a| + |b|..]
  {
  }

  lemma FrameInPieces(count: nat, mode: byte, body: seq<byte>, head: seq<byte>, size: nat)
    requires head == Varint(count) + [mode] && size == 4 + |head| + |body|
    ensures Frame(count, mode, body) == Le(size, 4) + head + body
  {
    assert Frame(count, mode, body) == Le(size, 4) + (head + body);
  }

  /** A list whose front has already been read. */
  function Joined<T>(front: seq<T>, r: Parsed<seq<T>>): Parsed<seq<T>> {
    if r.Bad? then r else Got(front + r.value, r.rest)
  }

  lemma JoinStep<T>(front: seq<T>, x: T, r: Parsed<seq<T>>)
    ensures r.Got? ==> front + ([x] + r.value) == front + [x] + r.value
  {
  }

  lemma JoinNone<T>(r: Parsed<seq<T>>)
    ensures Joined([], r) == r
  {
    if r.Got? {
      assert [] + r.value == r.value;
    }
  }

  function Continued(front: seq<Resp>, o: Finished): Finished {
    Finished(|front| + o.completed, front + o.replies, o.code)
  }

  lemma ContinueStep(front: seq<Resp>, r: Resp, o: Finished)
    ensures Continued(front, Finished(1 + o.completed, [r] + o.replies, o.code)) == Continued(front + [r], o)
  {
    assert front + ([r] + o.replies) == front + [r] + o.replies;
  }

  /** What cswp_encode_reg_write_command writes; the registers are put by its caller. */
  function RegWriteHead(dev: nat, count: nat): Fields {
    Put(V(REG_WRITE), Put(V(dev), Put(V(count), Done)))
  }

  lemma Appended(start: seq<byte>, tail: seq<byte>)
    ensures (start + tail)[|start|..] == tail
    ensures HEADER_SIZE <= |start| ==> (start + tail)[HEADER_SIZE..] == start[HEADER_SIZE..] + tail
  {}

  lemma HeadNonEmpty(dev: nat, count: nat)
    ensures Message(RegWriteHead(dev, count), []) != []
  {
    VarintNonEmpty(REG_WRITE);
  }

  /** Puts whose results nobody looks at. */
  function PutLoose(data: seq<byte>, cap: nat, fs: Fields): seq<byte>
    decreases fs
  {
    match fs
    case Done => data
    case Put(f, next) => PutLoose(PutOne(data, cap, f).data, cap, next)
  }

  lemma {:induction false} LooseExact(data: seq<byte>, cap: nat, fs: Fields)
    requires |data| <= cap
    ensures var out := PutLoose(data, cap, fs);
      && data <= out && |out| <= cap && |out| <= |data| + |Message(fs, [])|
      && (|data| + |Message(fs, [])| <= cap ==> out == data + Message(fs, []))
    decreases fs
  {
    hide PutOne, Bytes;
    match fs
    case Done => assert data + [] == data;
    case Put(f, next) =>
      var piece := PutOneExact(data, cap, f);
      LooseExact(data + piece, cap, next);
      assert data + (Bytes(f) + Message(next, [])) == (data + Bytes(f)) + Message(next, []);
  }

  lemma RegWriteParts(dev: nat, regs: seq<RegValue>)
    ensures Message(CommandFields(RegWrite(dev, regs)), [])
      == Message(RegWriteHead(dev, |regs|), []) + Message(RegFields(regs), [])
  {
    hide RegFields;
    MessageRest(RegWriteHead(dev, |regs|), Message(RegFields(regs), []));
    assert CommandFields(RegWrite(dev, regs)) == Put(V(REG_WRITE), Put(V(dev), Put(V(|regs|), RegFields(regs))));
    HeadInFront(V(REG_WRITE), V(dev), V(|regs|), RegFields(regs));
  }

  lemma HeadInFront(a: Field, b: Field, c: Field, fs: Fields)
    ensures Message(Put(a, Put(b, Put(c, fs))), []) == Message(Put(a, Put(b, Put(c, Done))), Message(fs, []))
  {
    hide Bytes;
    assert Message(Put(c, fs), []) == Message(Put(c, Done), Message(fs, []));
    assert Message(Put(b, Put(c, fs)), []) == Message(Put(b, Put(c, Done)), Message(fs, []));
  }

  /** For instance: one register, and room for the header and two bytes.  The request counts; its number
      went in and its value did not. */
  lemma CutButCounted(start: seq<byte>)
    requires |start| == 15
    ensures var one := PutAll(start, 21, RegWriteHead(0, 1));
      var two := PutLoose(one.data, 21, RegFields([RegValue(0, 0)]));
      one.code == SUCCESS && |two| == 20 && two[19..] == Varint(0)
  {
    var head := Message(RegWriteHead(0, 1), []);
    HeadOfFour();
    var _ := PutAllExact(start, 21, RegWriteHead(0, 1));
    assert [RegValue(0, 0)][1..] == [];
    assert RegFields([RegValue(0, 0)]) == Put(V(0), Put(W32(0), Done));
    hide RegWriteHead, PutAll, Message;
    var data := start + head;
    LeLength(0, 4);
    assert |Varint(0)| == 1;
    assert PutOne(data, 21, V(0)).data == data + Varint(0);
    assert PutOne(data + Varint(0), 21, W32(0)).data == data + Varint(0);
  }

  lemma HeadOfFour()
    ensures |Message(RegWriteHead(0, 1), [])| == 4
  {
    assert |Varint(REG_WRITE)| == 2 && |Varint(0)| == 1 && |Varint(1)| == 1;
    hide Varint;
    assert |Message(Put(V(0), Put(V(1), Done)), [])| == 2;
  }

  class Client {
    const cmd: CswpBuffer
    const hdr: CswpBuffer
    const rsp: CswpBuffer
    var batchMode: byte
    var numCmds: nat
    var pending: seq<Pending>

    // what each request since the buffer was reset left in it, and the commands among that
    ghost var written: seq<Piece>
    ghost var sent: seq<Cmd>

    ghost predicate Valid()
      reads this, cmd, hdr, rsp
    {
      && cmd != hdr && cmd != rsp && hdr != rsp && cmd.buf != hdr.buf && cmd.buf != rsp.buf && hdr.buf != rsp.buf
      && cmd.Writing() && hdr.Valid() && rsp.Valid()
      && HEADER_SIZE <= cmd.buf.Length < VARINT_LIMIT && hdr.buf.Length == HEADER_SIZE
    }

    /** The buffer holds what all requests left, and the count is that of the commands counted. */
    ghost predicate Held()
      reads this, cmd, cmd.buf, hdr, rsp
    {
      && Valid() && HEADER_SIZE <= cmd.used
      && cmd.Contents()[HEADER_SIZE..] == Glue(written) && sent == SentOf(written)
      && numCmds == |sent| <= cmd.used
    }

    /** The list is the commands counted too, in the order they were encoded, whatever failed in between.
        `Requests.ListDescribesBuffer` says when list and buffer are the same thing. */
    ghost predicate Open()
      reads this, cmd, cmd.buf, hdr, rsp
    {
      && Held() && |pending| == numCmds
      && forall i :: 0 <= i < |sent| ==> pending[i].t == TypeOf(sent[i])
    }

    /** Between calls: nothing has been encoded yet, or what has been is still there. */
    ghost predicate Settled()
      reads this, cmd, cmd.buf, hdr, rsp
    {
      Held() || (Valid() && numCmds == 0 && sent == [])
    }

    constructor (size: nat)
      requires HEADER_SIZE <= size < VARINT_LIMIT
      ensures Valid() && Settled() && batchMode == BATCH_NONE && cmd.buf.Length == rsp.buf.Length == size
      ensures fresh(cmd) && fresh(hdr) && fresh(rsp) && fresh(cmd.buf) && fresh(hdr.buf) && fresh(rsp.buf)
    {
      cmd := new CswpBuffer(size);
      hdr := new CswpBuffer(HEADER_SIZE);
      rsp := new CswpBuffer(size);
      batchMode := BATCH_NONE;
      numCmds := 0;
      pending := [];
      sent, written := [], [];
    }

    method PrepareCmd()
      requires Valid() && (batchMode != BATCH_NONE ==> Open())
      modifies this`numCmds, this`pending, this`sent, this`written, cmd
      ensures Open()
      ensures if batchMode == BATCH_NONE then written == [] && pending == [] && cmd.used == HEADER_SIZE
              else written == old(written) && pending == old(pending) && cmd.used == old(cmd.used)
    {
      if batchMode == BATCH_NONE {
        cmd.Reserve(HEADER_SIZE);
        pending := [];
        numCmds := 0;
        sent, written := [], [];
      }
    }

    /** One client call up to its exchange: encode, and expect a response if that succeeded.  The request
        fails exactly when it does not fit; then nothing is expected, but a front piece of it stays in the
        buffer, unless there was no room even for its identifier. */
    method Request(c: Cmd, p: Pending) returns (res: int)
      requires Valid() && (batchMode != BATCH_NONE ==> Open())
      requires p.t == TypeOf(c) && !c.RegWrite?
      modifies this`numCmds, this`pending, this`sent, this`written, cmd, cmd.buf
      ensures Open()
      ensures var was := if batchMode == BATCH_NONE then [] else old(written);
        var list := if batchMode == BATCH_NONE then [] else old(pending);
        var before := if batchMode == BATCH_NONE then HEADER_SIZE else old(cmd.used);
        var m := Message(CommandFields(c), []);
        && (res == SUCCESS <==> before + |m| <= cmd.buf.Length)
        && before <= cmd.used
        && var piece := cmd.Contents()[before..];
        if res == SUCCESS then written == was + [Counted(c, m)] && pending == list + [p]
        else && res == BUFFER_FULL && written == was + [Failed(piece)] && pending == list && piece < m
             && (piece == [] <==> cmd.buf.Length - before < |Varint(TypeOf(c))|)
      ensures var was := if batchMode == BATCH_NONE then [] else old(written);
        res == SUCCESS && Whole(was) ==>
          (cmd.Contents()[HEADER_SIZE..] == Body(sent, []) <==> forall x <- was :: x.Failed? ==> x.bytes == [])
    {
      hide Message, CommandFields, Varint, Glue, SentOf;
      PrepareCmd();
      ghost var start, before := cmd.Contents(), cmd.used;
      CommandNonEmpty(c);
      ghost var tail;
      res, tail := Encode(c);
      assert cmd.Contents()[before..] == tail;
      assert cmd.Contents()[HEADER_SIZE..] == start[HEADER_SIZE..] + tail;
      ghost var was := written;
      if res == SUCCESS { PushRequest(Counted(c, tail), p); } else { Leave(Failed(tail)); }
      if Whole(was) { AfterSuccess(was, c); }
    }

    /** The buffer holds one piece more than has been recorded. */
    ghost predicate Encoded(piece: Piece)
      reads this, cmd, cmd.buf, hdr, rsp
    {
      && Valid() && HEADER_SIZE <= cmd.used
      && cmd.Contents()[HEADER_SIZE..] == Glue(written) + piece.bytes && sent == SentOf(written)
      && numCmds == |pending| == |sent| <= cmd.used - |piece.bytes|
      && forall i :: 0 <= i < |sent| ==> pending[i].t == TypeOf(sent[i])
    }

    /** cswp_client_push_request: list and count grow together. */
    method PushRequest(ghost piece: Piece, entry: Pending)
      requires Encoded(piece) && piece.Counted? && piece.bytes != [] && entry.t == TypeOf(piece.c)
      modifies this`numCmds, this`pending, this`sent, this`written
      ensures Open() && written == old(written) + [piece] && pending == old(pending) + [entry]
    {
      hide TypeOf, Glue, SentOf;
      GlueSnoc(written, piece);
      pending := pending + [entry];
      numCmds := numCmds + 1;
      written := written + [piece];
      sent := sent + [piece.c];
    }

    ghost method Leave(piece: Piece)
      requires Encoded(piece) && piece.Failed?
      modifies this`written
      ensures Open() && written == old(written) + [piece]
    {
      hide TypeOf, Glue, SentOf;
      GlueSnoc(written, piece);
      assert SentOf(written) + [] == SentOf(written);
      written := written + [piece];
    }

    /** cswp_device_reg_write looks at the result of its header alone: if that fits the request counts and
        a response is expected, whether or not the registers went in.  What it leaves is the command exactly
        when all of it fits. */
    method RequestRegWrite(dev: nat, regs: seq<RegValue>) returns (res: int)
      requires Valid() && (batchMode != BATCH_NONE ==> Open())
      modifies this`numCmds, this`pending, this`sent, this`written, cmd, cmd.buf
      ensures Open()
      ensures var c := RegWrite(dev, regs);
        var was := if batchMode == BATCH_NONE then [] else old(written);
        var list := if batchMode == BATCH_NONE then [] else old(pending);
        var before := if batchMode == BATCH_NONE then HEADER_SIZE else old(cmd.used);
        && (res == SUCCESS <==> before + |Message(RegWriteHead(dev, |regs|), [])| <= cmd.buf.Length)
        && before <= cmd.used
        && var piece := cmd.Contents()[before..];
        && written == was + [if res == SUCCESS then Counted(c, piece) else Failed(piece)]
        && pending == (if res == SUCCESS then list + [Pending(REG_WRITE, 0, 0, 0, 0)] else list)
        && (before + |Message(CommandFields(c), [])| <= cmd.buf.Length <==> piece == Message(CommandFields(c), []))
    {
      hide Message, CommandFields, RegWriteHead, Glue, SentOf, RegFields, PutLoose, Bytes, Varint;
      assert TypeOf(RegWrite(dev, regs)) == REG_WRITE;
      HeadNonEmpty(dev, |regs|);
      hide TypeOf;
      PrepareCmd();
      ghost var start, before := cmd.Contents(), cmd.used;
      ghost var tail;
      res, tail := EncodeRegWrite(dev, regs);
      Appended(start, tail);
      if res == SUCCESS {
        PushRequest(Counted(RegWrite(dev, regs), tail), Pending(REG_WRITE, 0, 0, 0, 0));
      } else {
        Leave(Failed(tail));
      }
    }

    /** The puts of cswp_device_reg_write; `res` is the header's. */
    method EncodeRegWrite(dev: nat, regs: seq<RegValue>) returns (res: int, ghost tail: seq<byte>)
      requires Valid()
      modifies cmd, cmd.buf
      ensures Valid() && cmd.Contents() == old(cmd.Contents()) + tail
      ensures res == SUCCESS <==> old(cmd.used) + |Message(RegWriteHead(dev, |regs|), [])| <= cmd.buf.Length
      ensures res == SUCCESS ==> |Message(RegWriteHead(dev, |regs|), [])| <= |tail|
      ensures var m := Message(CommandFields(RegWrite(dev, regs)), []);
        if old(cmd.used) + |m| <= cmd.buf.Length then res == SUCCESS && tail == m else |tail| < |m|
    {
      hide Message, PutAll, CommandFields, RegWriteHead, PutLoose, RegFields;
      ghost var start := cmd.Contents();
      tail := PutAllExact(start, cmd.buf.Length, RegWriteHead(dev, |regs|));
      res := cmd.PutFields(RegWriteHead(dev, |regs|));
      ghost var middle := cmd.Contents();
      PutRegs(regs);
      LooseExact(middle, cmd.buf.Length, RegFields(regs));
      RegWriteParts(dev, regs);
      ghost var more := cmd.Contents()[|middle|..];
      assert cmd.Contents() == start + tail + more;
      tail := tail + more;
    }

    method PutRegs(regs: seq<RegValue>)
      requires Valid()
      modifies cmd, cmd.buf
      ensures Valid() && cmd.Contents() == PutLoose(old(cmd.Contents()), cmd.buf.Length, RegFields(regs))
    {
      hide PutOne;
      var i := 0;
      while i < |regs|
        invariant i <= |regs| && Valid()
        invariant PutLoose(cmd.Contents(), cmd.buf.Length, RegFields(regs[i..]))
          == PutLoose(old(cmd.Contents()), cmd.buf.Length, RegFields(regs))
      {
        assert regs[i..][0] == regs[i] && regs[i..][1..] == regs[i + 1..];
        var _ := cmd.PutField(V(regs[i].id));
        var _ := cmd.PutField(W32(regs[i].value));
        i := i + 1;
      }
    }

    /** One cswp_encode_*_command call. */
    method Encode(c: Cmd) returns (res: int, ghost tail: seq<byte>)
      requires Valid()
      modifies cmd, cmd.buf
      ensures Valid() && cmd.Contents() == old(cmd.Contents()) + tail
      ensures res == SUCCESS <==> old(cmd.used) + |Message(CommandFields(c), [])| <= cmd.buf.Length
      ensures if res == SUCCESS then tail == Message(CommandFields(c), [])
              else res == BUFFER_FULL && tail < Message(CommandFields(c), [])
      ensures res != SUCCESS ==> (tail == [] <==> cmd.buf.Length - old(cmd.used) < |Varint(TypeOf(c))|)
    {
      if cmd.buf.Length < cmd.used + |Message(CommandFields(c), [])| {
        LeavesNothing(cmd.Contents(), cmd.buf.Length, c);
      }
      hide Message, PutAll, CommandFields, Varint;
      tail := PutAllExact(cmd.Contents(), cmd.buf.Length, CommandFields(c));
      res := cmd.PutFields(CommandFields(c));
    }

    method BatchBegin(abortOnError: bool)
      requires Valid() && (batchMode != BATCH_NONE ==> Open())
      modifies this, cmd
      ensures Open() && batchMode == (if abortOnError then BATCH_ABORT else BATCH_CONTINUE)
      ensures if old(batchMode) == BATCH_NONE then written == [] && pending == [] && cmd.used == HEADER_SIZE
              else written == old(written) && pending == old(pending) && cmd.used == old(cmd.used)
    {
      PrepareCmd();
      batchMode := if abortOnError then BATCH_ABORT else BATCH_CONTINUE;
    }

    /** The header is written into the end of the space kept for it, so that header and body can be sent in
        one piece: length, count, mode and body, as if they had been concatenated. */
    method WriteHeader() returns (msg: seq<byte>)
      requires Valid() && HEADER_SIZE <= cmd.used && numCmds < 0x1_0000_0000_0000_0000
      modifies cmd.buf, hdr, hdr.buf
      ensures Valid() && unchanged(cmd) && unchanged(this)
      ensures cmd.Contents()[HEADER_SIZE..] == old(cmd.Contents())[HEADER_SIZE..]
      ensures msg == Frame(numCmds, batchMode, cmd.Contents()[HEADER_SIZE..]) && |msg| <= cmd.used
    {
      hide Le, Varint;
      EncodeHeader();
      ghost var before, head := cmd.Contents(), hdr.Contents();
      var reqOffset := HEADER_SIZE - 4 - hdr.used;
      var reqSize := cmd.used - reqOffset;
      LeFour(reqSize);
      LeLength(reqSize, 4);
      cmd.Inject(reqOffset, [reqSize % 0x100, reqSize / 0x100 % 0x100,
                             reqSize / 0x1_0000 % 0x100, reqSize / 0x100_0000 % 0x100]);
      cmd.Inject(reqOffset + 4, hdr.buf[..hdr.used]);
      Injected(before, reqOffset, Le(reqSize, 4), head);
      msg := cmd.buf[reqOffset..cmd.used];
      assert msg == cmd.Contents()[reqOffset..];
      FrameInPieces(numCmds, batchMode, before[HEADER_SIZE..], head, reqSize);
    }

    method EncodeHeader()
      requires hdr.buf.Length == HEADER_SIZE && numCmds < 0x1_0000_0000_0000_0000
      modifies hdr, hdr.buf
      ensures hdr.Valid() && hdr.Contents() == Varint(numCmds) + [batchMode] && hdr.used <= 11
    {
      hdr.Clear();
      VarintSize(numCmds);
      var _ := hdr.PutVarint(numCmds);
      var _ := hdr.PutBytes([batchMode]);
    }

    /** The sending half of cswp_client_transact. */
    method MakeMessage() returns (msg: seq<byte>)
      requires Held()
      modifies cmd.buf, hdr, hdr.buf
      ensures Held() && unchanged(cmd) && unchanged(this)
      ensures msg == Frame(|sent|, batchMode, Glue(written)) && |msg| <= cmd.used
    {
      msg := WriteHeader();
    }

    // ------------------------------------------------------------ responses

    method GetOptional(size: nat) returns (r: Parsed<CString>)
      requires rsp.Valid()
      modifies rsp`pos
      ensures rsp.Valid() && r == ParseOptional(old(rsp.Unread()), size) && r.rest == rsp.Unread()
    {
      if size > 0 {
        r := rsp.GetString(size);
        return;
      }
      var len := rsp.GetVarint();
      if len.Bad? { return Bad(len.code, len.rest); }
      if len.value > rsp.used - rsp.pos { return Bad(UNDEFINED, rsp.Unread()); }
      var _ := rsp.GetData(len.value);
      r := Got([], rsp.Unread());
    }

    method GetDevices(n: nat, size: nat, kindSize: nat) returns (r: Parsed<seq<Device>>)
      requires rsp.Valid()
      modifies rsp`pos
      ensures rsp.Valid() && r == ParseDevices(n, size, kindSize, old(rsp.Unread())) && r.rest == rsp.Unread()
    {
      hide ParseString;
      var ds: seq<Device> := [];
      JoinNone(ParseDevices(n, size, kindSize, rsp.Unread()));
      for i := 0 to n
        invariant rsp.Valid()
        invariant Joined(ds, ParseDevices(n - i, size, kindSize, rsp.Unread()))
          == ParseDevices(n, size, kindSize, old(rsp.Unread()))
      {
        ghost var more := ParseDevices(n - i, size, kindSize, rsp.Unread());
        var name := rsp.GetString(size);
        var kind := rsp.GetString(kindSize);
        if kind.Bad? { return Bad(kind.code, kind.rest); }
        var d := Device(if name.Got? then name.value else [], kind.value);
        JoinStep(ds, d, ParseDevices(n - i - 1, size, kindSize, rsp.Unread()));
        ds := ds + [d];
      }
      assert ds + [] == ds;
      r := Got(ds, rsp.Unread());
    }

    method GetRegInfo() returns (r: Parsed<RegInfo>)
      requires rsp.Valid()
      modifies rsp`pos
      ensures rsp.Valid() && r == ParseRegInfo(old(rsp.Unread())) && r.rest == rsp.Unread()
    {
      hide ParseString, ParseVarint;
      var id := rsp.GetVarint();
      if id.Bad? { return Bad(id.code, id.rest); }
      var name := rsp.GetString(256);
      if name.Bad? { return Bad(name.code, name.rest); }
      var size := rsp.GetVarint();
      if size.Bad? { return Bad(size.code, size.rest); }
      var display := rsp.GetString(256);
      if display.Bad? { return Bad(display.code, display.rest); }
      var description := rsp.GetString(1024);
      if description.Bad? { return Bad(description.code, description.rest); }
      r := Got(RegInfo(id.value, name.value, size.value, display.value, description.value), description.rest);
    }

    method GetRegInfos(n: nat) returns (r: Parsed<seq<RegInfo>>)
      requires rsp.Valid()
      modifies rsp`pos
      ensures rsp.Valid() && r == ParseRegInfos(n, old(rsp.Unread())) && r.rest == rsp.Unread()
    {
      hide ParseRegInfo;
      var rs: seq<RegInfo> := [];
      JoinNone(ParseRegInfos(n, rsp.Unread()));
      for i := 0 to n
        invariant rsp.Valid()
        invariant Joined(rs, ParseRegInfos(n - i, rsp.Unread())) == ParseRegInfos(n, old(rsp.Unread()))
      {
        var info := GetRegInfo();
        if info.Bad? { return Bad(info.code, info.rest); }
        JoinStep(rs, info.value, ParseRegInfos(n - i - 1, rsp.Unread()));
        rs := rs + [info.value];
      }
      assert rs + [] == rs;
      r := Got(rs, rsp.Unread());
    }

    method GetWords(n: nat) returns (r: Parsed<seq<u32>>)
      requires rsp.Valid()
      modifies rsp`pos
      ensures rsp.Valid() && r == ParseWords(n, old(rsp.Unread())) && r.rest == rsp.Unread()
    {
      hide ParseWord;
      var ws: seq<u32> := [];
      JoinNone(ParseWords(n, rsp.Unread()));
      for i := 0 to n
        invariant rsp.Valid()
        invariant Joined(ws, ParseWords(n - i, rsp.Unread())) == ParseWords(n, old(rsp.Unread()))
      {
        var w := rsp.GetWord(4);
        if w.Bad? { return Bad(w.code, w.rest); }
        JoinStep(ws, Low32(w.value), ParseWords(n - i - 1, rsp.Unread()));
        ws := ws + [Low32(w.value)];
      }
      assert ws + [] == ws;
      r := Got(ws, rsp.Unread());
    }

    method CompleteInit(p: Pending) returns (r: Parsed<Resp>)
      requires rsp.Valid() && p.t == INIT
      modifies rsp`pos
      ensures rsp.Valid() && r == Complete(p, old(rsp.Unread())) && r.rest == rsp.Unread()
    {
      hide ParseOptional;
      var protocol := rsp.GetVarint();
      if protocol.Bad? { return Bad(protocol.code, protocol.rest); }
      var id := GetOptional(p.bytes);
      if id.Bad? { return Bad(id.code, id.rest); }
      var version := rsp.GetVarint();
      if version.Bad? { return Bad(version.code, version.rest); }
      r := Got(RInit(protocol.value, id.value, version.value), version.rest);
    }

    method CompleteDescription(p: Pending) returns (r: Parsed<Resp>)
      requires rsp.Valid() && p.t == GET_DESCRIPTION
      modifies rsp`pos
      ensures rsp.Valid() && r == Complete(p, old(rsp.Unread())) && r.rest == rsp.Unread()
    {
      var format := rsp.GetVarint();
      if format.Bad? { return Bad(format.code, format.rest); }
      var n := rsp.GetVarint();
      if n.Bad? { return Bad(n.code, n.rest); }
      var data := rsp.GetData(if p.bytes < n.value then p.bytes else n.value);
      if data.Bad? { return Bad(data.code, data.rest); }
      r := if p.bytes < n.value then Bad(OUTPUT_OVERFLOW, data.rest)
           else Got(RDescription(Description(format.value, data.value)), data.rest);
    }

    /** The replies that open with a count, or with a length. */
    method CompleteCounted(p: Pending) returns (r: Parsed<Resp>)
      requires rsp.Valid() && p.t in {GET_DEVICES, GET_CAPABILITIES, REG_LIST, REG_READ, MEM_READ, MEM_POLL}
      modifies rsp`pos
      ensures rsp.Valid() && r == Complete(p, old(rsp.Unread())) && r.rest == rsp.Unread()
    {
      hide ParseDevices, ParseRegInfos, ParseWords;
      var n := rsp.GetVarint();
      if n.Bad? { return Bad(n.code, n.rest); }
      if p.t == GET_CAPABILITIES {
        var second := rsp.GetVarint();
        if second.Bad? { return Bad(second.code, second.rest); }
        return Got(RCapabilities(n.value, second.value), second.rest);
      }
      if p.t == MEM_READ || p.t == MEM_POLL {
        var data := rsp.GetData(n.value);
        if data.Bad? { return Bad(UNDEFINED, data.rest); }
        return Got(RData(data.value), data.rest);
      }
      if p.entries < n.value || (p.t == GET_DEVICES && p.kinds < n.value) {
        return Bad(OUTPUT_OVERFLOW, rsp.Unread());
      }
      if p.t == GET_DEVICES {
        var ds := GetDevices(n.value, p.bytes, p.kindBytes);
        if ds.Bad? { return Bad(ds.code, ds.rest); }
        return Got(RDevices(ds.value), ds.rest);
      }
      if p.t == REG_LIST {
        var rs := GetRegInfos(n.value);
        if rs.Bad? { return Bad(rs.code, rs.rest); }
        return Got(RRegs(rs.value), rs.rest);
      }
      var ws := GetWords(n.value);
      if ws.Bad? { return Bad(ws.code, ws.rest); }
      r := Got(RValues(ws.value), ws.rest);
    }

    method CompleteResponse(p: Pending) returns (r: Parsed<Resp>)
      requires rsp.Valid()
      modifies rsp`pos
      ensures rsp.Valid() && r == Complete(p, old(rsp.Unread())) && r.rest == rsp.Unread()
    {
      if p.t == INIT {
        r := CompleteInit(p);
      } else if p.t == GET_DESCRIPTION {
        r := CompleteDescription(p);
      } else if p.t in {GET_DEVICES, GET_CAPABILITIES, REG_LIST, REG_READ, MEM_READ, MEM_POLL} {
        r := CompleteCounted(p);
      } else if p.t == DEVICE_OPEN {
        var text := GetOptional(p.bytes);
        if text.Bad? { return Bad(text.code, text.rest); }
        r := Got(RText(text.value), text.rest);
      } else if p.t == GET_CONFIG {
        var text := rsp.GetString(p.bytes);
        if text.Bad? { return Bad(text.code, text.rest); }
        r := Got(RText(text.value), text.rest);
      } else {
        r := Got(RNone, rsp.Unread());
      }
    }

    method ProcessResponse(p: Pending) returns (r: Parsed<Resp>)
      requires rsp.Valid()
      modifies rsp`pos
      ensures rsp.Valid() && r == TakeReply(p, old(rsp.Unread())) && r.rest == rsp.Unread()
    {
      hide Complete;
      var t := rsp.GetVarint();
      if t.Bad? { return Bad(t.code, t.rest); }
      var code := rsp.GetVarint();
      if code.Bad? { return Bad(code.code, code.rest); }
      if t.value != p.t {
        return Bad(COMMS, code.rest);
      }
      if code.value != SUCCESS {
        return Bad(code.value, code.rest);
      }
      r := CompleteResponse(p);
    }

    method ProcessResponses() returns (o: Finished)
      requires rsp.Valid()
      modifies rsp`pos
      ensures rsp.Valid() && o == TakeReplies(pending, old(rsp.Unread()))
    {
      hide TakeReply;
      var replies: seq<Resp> := [];
      var k := 0;
      assert pending[0..] == pending;
      while k < |pending|
        invariant k <= |pending| && rsp.Valid() && |replies| == k
        invariant Continued(replies, TakeReplies(pending[k..], rsp.Unread())) == TakeReplies(pending, old(rsp.Unread()))
      {
        assert pending[k..][0] == pending[k] && pending[k..][1..] == pending[k + 1..];
        var r := ProcessResponse(pending[k]);
        if r.Bad? {
          return Finished(k, replies, r.code);
        }
        ContinueStep(replies, r.value, TakeReplies(pending[k + 1..], rsp.Unread()));
        replies := replies + [r.value];
        k := k + 1;
      }
      o := Finished(k, replies, SUCCESS);
    }

    method ReadMessage() returns (o: Finished)
      requires rsp.Valid() && rsp.pos == 0
      modifies rsp`pos
      ensures rsp.Valid() && o == Receive(numCmds, pending, old(rsp.Unread()))
    {
      hide TakeReplies, ParseVarint, FromLe;
      var size := rsp.GetWord(4);
      if size.Bad? {
        return Finished(0, [], UNDEFINED);
      }
      if size.value > rsp.used {
        return Finished(0, [], COMMS);
      }
      var count := rsp.GetVarint();
      if count.Bad? {
        return Finished(0, [], UNDEFINED);
      }
      if count.value != numCmds {
        return Finished(0, [], COMMS);
      }
      o := ProcessResponses();
    }

    /** The receiving half of cswp_client_transact: the completed operations are the longest run of
        responses that matched, succeeded and could be stored; the list is empty afterwards. */
    method Absorb(reply: seq<byte>) returns (o: Finished)
      requires Valid() && |reply| <= rsp.buf.Length
      modifies this`pending, rsp, rsp.buf
      ensures Valid() && o == Receive(numCmds, old(pending), reply) && pending == []
    {
      hide Receive;
      rsp.Load(reply);
      o := ReadMessage();
      pending := [];
    }

    // --------------------------------------- a whole exchange, in one process

    /** The transport of cswp_server_test.c: the message is copied to the server, and its response back.
        Whatever the buffer holds, the outcome is that of the server's handling of its frame; if the pending
        list describes the buffer and everything fits, the client ends with the results of running its
        commands directly. */
    method Exchange(server: CommandServer.CommandServer, scmd: CswpBuffer, srsp: CswpBuffer) returns (o: Finished)
      requires Held() && server.Valid() && scmd.Valid() && srsp.Valid()
      requires {scmd, srsp} !! {cmd, hdr, rsp} && scmd != srsp
      requires {scmd.buf, srsp.buf} !! {cmd.buf, hdr.buf, rsp.buf} && scmd.buf != srsp.buf
      requires cmd.buf.Length <= scmd.buf.Length && 14 <= srsp.buf.Length <= rsp.buf.Length < 0x1_0000_0000
      modifies this`pending, cmd.buf, hdr, hdr.buf, rsp, rsp.buf, server, scmd, scmd.buf, srsp, srsp.buf
      ensures Held() && server.Valid() && pending == []
      ensures (server.AsState(), o) == Answered(server.impl, old(server.AsState()), |sent|, batchMode, Glue(written),
                                                old(pending), srsp.buf.Length)
      ensures var run := Direct(server.impl, old(server.AsState()), sent);
        Goes(server.impl, old(server.AsState()), written, old(pending), batchMode, srsp.buf.Length) ==>
          && (run.stop.Some? ==> |run.replies| < |sent|)
          && server.AsState() == run.state && o == Seen(sent, run)
    {
      hide Serve, Receive, Frame, Glue;
      ghost var s, ps := server.AsState(), pending;
      var msg := MakeMessage();
      scmd.Load(msg);
      var served := server.Process(scmd, srsp);
      if !served {
        pending := [];
        o := Finished(0, [], UNDEFINED);
      } else {
        o := Absorb(srsp.buf[..srsp.used]);
      }
      if Goes(server.impl, s, written, ps, batchMode, srsp.buf.Length) {
        AnsweredDirectly(server.impl, s, written, ps, batchMode, srsp.buf.Length);
      }
    }

    /** The end of a batch.  With nothing encoded there is no exchange, and the caller's count is not written.
        Neither buffer nor count is reset: ending again sends the batch again, with no response expected
        (`EndedAgain`). */
    method BatchEnd(server: CommandServer.CommandServer, scmd: CswpBuffer, srsp: CswpBuffer, count: nat)
      returns (o: Finished, opsCompleted: nat)
      requires Settled() && server.Valid() && scmd.Valid() && srsp.Valid()
      requires {scmd, srsp} !! {cmd, hdr, rsp} && scmd != srsp
      requires {scmd.buf, srsp.buf} !! {cmd.buf, hdr.buf, rsp.buf} && scmd.buf != srsp.buf
      requires cmd.buf.Length <= scmd.buf.Length && 14 <= srsp.buf.Length <= rsp.buf.Length < 0x1_0000_0000
      modifies this`pending, this`batchMode, cmd.buf, hdr, hdr.buf, rsp, rsp.buf, server, scmd, scmd.buf, srsp, srsp.buf
      ensures Settled() && server.Valid() && batchMode == BATCH_NONE
      ensures sent == [] ==>
        server.AsState() == old(server.AsState()) && o == Finished(0, [], SUCCESS) && opsCompleted == count
      ensures sent != [] ==> opsCompleted == o.completed && pending == []
      ensures sent != [] ==>
        (server.AsState(), o) == Answered(server.impl, old(server.AsState()), |sent|, old(batchMode), Glue(written),
                                             old(pending), srsp.buf.Length)
      ensures var run := Direct(server.impl, old(server.AsState()), sent);
        sent != [] && Goes(server.impl, old(server.AsState()), written, old(pending), old(batchMode),
              srsp.buf.Length) ==>
          && (run.stop.Some? ==> |run.replies| < |sent|)
          && server.AsState() == run.state && o == Seen(sent, run) && opsCompleted == |run.replies|
    {
      hide Direct, Answered, Glue, Straight;
      if numCmds > 0 {
        o := Exchange(server, scmd, srsp);
        opsCompleted := o.completed;
      } else {
        o := Finished(0, [], SUCCESS);
        opsCompleted := count;
      }
      batchMode := BATCH_NONE;
    }
  }

  /** What comes of sending a frame: the server's new state, and what the client makes of the response. */
  function Answered(impl: Impl, s: State, count: nat, mode: byte, body: seq<byte>, ps: seq<Pending>, cap: nat)
    : (State, Finished)
  {
    var served := Serve(impl, s, Frame(count, mode, body), cap);
    (served.state, if served.rsp.None? then Finished(0, [], UNDEFINED) else Receive(count, ps, served.rsp.value))
  }

  /** What a second end of a batch does: whatever the buffer holds, nothing is completed; and a batch that is
      delivered runs once more, from the state the server is in, and is reported as a success. */
  lemma EndedAgain(impl: Impl, s: State, written: seq<Piece>, mode: byte, cap: nat)
    ensures Answered(impl, s, |SentOf(written)|, mode, Glue(written), [], cap).1.completed == 0
    ensures var cmds := SentOf(written);
      var run := Direct(impl, s, cmds);
      Straight(written) && Delivered(cmds, run, Responses(impl, s, cmds, []), Tail(written), mode, cap) ==>
        Answered(impl, s, |cmds|, mode, Glue(written), [], cap) == (run.state, Finished(0, [], SUCCESS))
  {
    var cmds := SentOf(written);
    var served := Serve(impl, s, Frame(|cmds|, mode, Glue(written)), cap);
    if served.rsp.Some? { var _ := ReceivedRun(|cmds|, [], served.rsp.value); }
    hide Direct, Responses, Serve, Receive, Frame, Body, Glue, SentOf, Tail, Delivered;
    if Straight(written) && Delivered(cmds, Direct(impl, s, cmds), Responses(impl, s, cmds, []), Tail(written),
          mode, cap) {
      ListDescribesBuffer(written);
      BatchAgain(impl, s, cmds, mode, Tail(written), cap);
    }
  }

  /** The pending list describes the buffer, the batch is delivered, and the replies fit. */
  ghost predicate Goes(impl: Impl, s: State, written: seq<Piece>, ps: seq<Pending>, mode: byte, cap: nat) {
    var cmds := SentOf(written);
    var run := Direct(impl, s, cmds);
    && Straight(written)
    && Delivered(cmds, run, Responses(impl, s, cmds, []), Tail(written), mode, cap)
    && |run.replies| <= |cmds| && Expecting(ps, cmds, run)
  }

  lemma AnsweredDirectly(impl: Impl, s: State, written: seq<Piece>, ps: seq<Pending>, mode: byte, cap: nat)
    requires Goes(impl, s, written, ps, mode, cap)
    ensures var cmds := SentOf(written);
      var run := Direct(impl, s, cmds);
      && (run.stop.Some? ==> run.stop.value.Refused? && |run.replies| < |cmds|)
      && Answered(impl, s, |cmds|, mode, Glue(written), ps, cap) == (run.state, Seen(cmds, run))
  {
    ListDescribesBuffer(written);
    hide Direct, Responses, Serve, Receive, Frame, Body, Glue, Expecting;
    BatchRefinement(impl, s, SentOf(written), ps, mode, Tail(written), cap);
  }
}
