/**
  What a batch buffer holds when some of its requests failed.  Inside a batch nothing takes back the
  bytes of an encoder that ran out of room, and a later request that fits goes behind them.
 */
module Requests {
  import opened Wire
  import opened Buffer
  import opened Commands
  import opened Server
  import opened Replies
  import opened Dispatch
  import opened Batch

  /** What one request left in the buffer: the bytes of a command that is counted and expects a
      response, or the bytes of a failed encoder. */
  datatype Piece = Counted(c: Cmd, bytes: seq<byte>) | Failed(bytes: seq<byte>)

  function Glue(ps: seq<Piece>): seq<byte> {
    if ps == [] then [] else Glue(ps[..|ps| - 1]) + ps[|ps| - 1].bytes
  }

  /** The commands counted, in order. */
  function SentOf(ps: seq<Piece>): seq<Cmd> {
    if ps == [] then []
    else SentOf(ps[..|ps| - 1]) + if ps[|ps| - 1].Counted? then [ps[|ps| - 1].c] else []
  }

  /** What failed encoders left behind the last counted command. */
  function Tail(ps: seq<Piece>): seq<byte> {
    if ps == [] || ps[|ps| - 1].Counted? then [] else Tail(ps[..|ps| - 1]) + ps[|ps| - 1].bytes
  }

  /** How many bytes of failed encoders stand in front of a counted command. */
  function Stray(ps: seq<Piece>): nat {
    if ps == [] then 0
    else Stray(ps[..|ps| - 1]) + if ps[|ps| - 1].Counted? then |Tail(ps[..|ps| - 1])| else 0
  }

  ghost predicate Whole(ps: seq<Piece>) {
    forall p <- ps :: p.Counted? ==> p.bytes == Message(CommandFields(p.c), [])
  }

  /** What the list of pending responses describes: every counted command is there, whole, and in front
      of it only commands that are counted too. */
  ghost predicate Straight(ps: seq<Piece>) {
    Whole(ps) && Stray(ps) == 0
  }

  lemma GlueSnoc(ps: seq<Piece>, p: Piece)
    ensures Glue(ps + [p]) == Glue(ps) + p.bytes
    ensures SentOf(ps + [p]) == SentOf(ps) + if p.Counted? then [p.c] else []
    ensures Tail(ps + [p]) == if p.Counted? then [] else Tail(ps) + p.bytes
    ensures Stray(ps + [p]) == Stray(ps) + if p.Counted? then |Tail(ps)| else 0
  {
    assert (ps + [p])[..|ps|] == ps;
  }

  lemma {:induction false} BodySnoc(cmds: seq<Cmd>, c: Cmd, rest: seq<byte>)
    ensures Body(cmds + [c], rest) == Body(cmds, []) + Message(CommandFields(c), rest)
  {
    hide Message, CommandFields;
    if cmds == [] {
      assert [c][1..] == [];
      assert Body([c], rest) == Message(CommandFields(c), Body([], rest));
    } else {
      assert (cmds + [c])[1..] == cmds[1..] + [c];
      BodySnoc(cmds[1..], c, rest);
      MessageRest(CommandFields(cmds[0]), Body(cmds[1..] + [c], rest));
      MessageRest(CommandFields(cmds[0]), Body(cmds[1..], []));
    }
  }

  lemma {:induction false} BodyRest(cmds: seq<Cmd>, rest: seq<byte>)
    ensures Body(cmds, rest) == Body(cmds, []) + rest
  {
    if cmds == [] {
    } else {
      BodyRest(cmds[1..], rest);
      MessageRest(CommandFields(cmds[0]), Body(cmds[1..], rest));
      MessageRest(CommandFields(cmds[0]), Body(cmds[1..], []));
    }
  }

  /** The buffer is longer than the commands counted by exactly the stray bytes, and if there are none
      it is those commands, one after the other. */
  lemma {:induction false} GlueShape(ps: seq<Piece>)
    requires Whole(ps)
    ensures |Glue(ps)| == |Body(SentOf(ps), Tail(ps))| + Stray(ps)
    ensures Stray(ps) == 0 ==> Glue(ps) == Body(SentOf(ps), Tail(ps))
  {
    hide Message, CommandFields, Body, Glue, SentOf, Tail, Stray;
    if ps == [] {
      NoPieces();
    } else {
      var front, p := ps[..|ps| - 1], ps[|ps| - 1];
      assert forall x <- front :: x in ps;
      assert ps == front + [p];
      GlueShape(front);
      GlueSnoc(front, p);
      BodyRest(SentOf(front), Tail(front));
      if p.Counted? {
        BodySnoc(SentOf(front), p.c, []);
      } else {
        BodyRest(SentOf(front), Tail(front) + p.bytes);
        assert SentOf(front) + [] == SentOf(front);
      }
    }
  }

  lemma NoPieces()
    ensures Glue([]) == Body(SentOf([]), Tail([])) == [] && Stray([]) == 0
  {}

  lemma {:induction false} NothingStray(ps: seq<Piece>)
    ensures Stray(ps) + |Tail(ps)| == 0 <==> forall p <- ps :: p.Failed? ==> p.bytes == []
  {
    if ps == [] {
    } else {
      var front, p := ps[..|ps| - 1], ps[|ps| - 1];
      NothingStray(front);
      assert forall x :: x in ps <==> x in front || x == p;
    }
  }

  /** The pending list describes the buffer if and only if no failed encoder left anything in front of a
      counted command. */
  lemma ListDescribesBuffer(ps: seq<Piece>)
    requires Whole(ps)
    ensures Glue(ps) == Body(SentOf(ps), Tail(ps)) <==> Straight(ps)
  {
    GlueShape(ps);
  }

  /** After one more request that fits, that is: if and only if no encoder that failed before it left
      anything at all. */
  lemma AfterSuccess(ps: seq<Piece>, c: Cmd)
    requires Whole(ps)
    ensures var qs := ps + [Counted(c, Message(CommandFields(c), []))];
      && Whole(qs) && SentOf(qs) == SentOf(ps) + [c] && Tail(qs) == []
      && (Glue(qs) == Body(SentOf(qs), []) <==> forall p <- ps :: p.Failed? ==> p.bytes == [])
  {
    hide Message, CommandFields;
    GlueSnoc(ps, Counted(c, Message(CommandFields(c), [])));
    ListDescribesBuffer(ps + [Counted(c, Message(CommandFields(c), []))]);
    NothingStray(ps);
  }

  /** A failed encoder leaves nothing if and only if there is no room for the command's identifier, which
      is one byte or two; then a further command can still fit, if its identifier is shorter. */
  lemma LeavesNothing(data: seq<byte>, cap: nat, c: Cmd)
    requires |data| <= cap < |data| + |Message(CommandFields(c), [])|
    ensures var o := PutAll(data, cap, CommandFields(c));
      && o.code == BUFFER_FULL && (o.data == data <==> cap - |data| < |Varint(TypeOf(c))|)
  {
    hide Message, BodyFields, TypeOf, Varint;
    var _ := PutAllExact(data, cap, CommandFields(c));
    VarintNonEmpty(TypeOf(c));
    if |data| + |Varint(TypeOf(c))| <= cap {
      var id := Varint(TypeOf(c));
      var _ := PutAllExact(data + id, cap, BodyFields(c));
      assert |PutAll(data + id, cap, BodyFields(c)).data| >= |data| + |id|;
    }
  }

  // ------------------------------------------------------- a failing input

  lemma PutStep(data: seq<byte>, cap: nat, f: Field, next: Fields)
    requires |data| + |Bytes(f)| <= cap
    ensures PutAll(data, cap, Put(f, next)) == PutAll(data + Bytes(f), cap, next)
  {
    var _ := PutOneExact(data, cap, f);
    hide PutOne;
  }

  /** One encoder's puts followed by another's. */
  function Then(a: Fields, b: Fields): Fields {
    match a
    case Done => b
    case Put(f, next) => Put(f, Then(next, b))
  }

  lemma {:induction false} PutAllThen(data: seq<byte>, cap: nat, a: Fields, b: Fields)
    requires |data| + |Message(a, [])| <= cap
    ensures PutAll(data, cap, Then(a, b)) == PutAll(data + Message(a, []), cap, b)
    decreases a
  {
    hide PutOne, Bytes;
    match a
    case Done => assert data + [] == data;
    case Put(f, next) =>
      PutStep(data, cap, f, Then(next, b));
      PutAllThen(data + Bytes(f), cap, next, b);
      assert data + (Bytes(f) + Message(next, [])) == (data + Bytes(f)) + Message(next, []);
  }

  function PlaceOf(c: Cmd): Target
    requires c.MemWrite?
  {
    Target(c.dev, c.addr, |c.data|, c.access, c.flags)
  }

  /** A memory write up to its data. */
  function WriteHead(c: Cmd): Fields
    requires c.MemWrite?
  {
    Put(V(MEM_WRITE), TargetFields(PlaceOf(c), Done))
  }

  lemma HeadThenData(c: Cmd)
    requires c.MemWrite?
    ensures CommandFields(c) == Then(WriteHead(c), Put(Blob(c.data), Done))
  {
    var m, last := PlaceOf(c), Put(Blob(c.data), Done);
    assert Then(Done, last) == last;
    assert Then(Put(V(m.flags), Done), last) == Put(V(m.flags), last);
    assert Then(Put(V(m.access), Put(V(m.flags), Done)), last) == Put(V(m.access), Put(V(m.flags), last));
    assert Then(Put(V(m.size), Put(V(m.access), Put(V(m.flags), Done))), last)
      == Put(V(m.size), Put(V(m.access), Put(V(m.flags), last)));
    assert Then(TargetFields(m, Done), last) == TargetFields(m, last);
  }

  /** A memory write that runs out of room at its data leaves all the rest of itself; a short command
      that still fits is counted, and the server takes that for the data.  It answers a command that
      nobody counted, and the client, who expects the other, reports a communication error. */
  lemma WriteTakesTheNext(impl: Impl, s: State, start: seq<byte>, cap: nat, c: Cmd, small: Cmd, more: seq<byte>)
    requires c.MemWrite? && Portable(c) && TypeOf(small) != MEM_WRITE && TypeOf(small) < VARINT_LIMIT
    requires |Message(CommandFields(small), [])| < |c.data|
    requires var used := |start| + |Message(WriteHead(c), [])|;
      used + |Message(CommandFields(small), [])| <= cap < used + |c.data|
    ensures var one := PutAll(start, cap, CommandFields(c));
      var two := PutAll(one.data, cap, CommandFields(small));
      var body := Message(WriteHead(c), []) + Message(CommandFields(small), []);
      var refused := Refused(MEM_WRITE, BUFFER_EMPTY);
      && one.code == BUFFER_FULL && two == Outcome(start + body, SUCCESS)
      && DecideNext(impl, s, body) == (MEM_WRITE, Decision(s, Message(CommandFields(small), []), refused))
      && var answer := Message(ErrorFields(impl, MEM_WRITE, BUFFER_EMPTY), more);
      var r := TakeReply(Pending(TypeOf(small), 0, 0, 0, 0), answer);
        r.Bad? && r.code == COMMS
  {
    var head, rest := Message(WriteHead(c), []), Message(CommandFields(small), []);
    hide Message, CommandFields, WriteHead, TypeOf, PutOne, Portable, TakeReply, ErrorFields;
    HeadThenData(c);
    PutAllThen(start, cap, WriteHead(c), Put(Blob(c.data), Done));
    NoRoom(start + head, cap, c.data);
    var _ := PutAllExact(start + head, cap, CommandFields(small));
    assert (start + head) + rest == start + (head + rest);
    DecideWriteHead(impl, s, c, rest);
    TakeRefused(impl, Pending(TypeOf(small), 0, 0, 0, 0), Refused(MEM_WRITE, BUFFER_EMPTY), more);
  }

  lemma NoRoom(data: seq<byte>, cap: nat, blob: seq<byte>)
    requires cap < |data| + |blob|
    ensures PutAll(data, cap, Put(Blob(blob), Done)) == Outcome(data, BUFFER_FULL)
  {}

  lemma DecideWriteHead(impl: Impl, s: State, c: Cmd, rest: seq<byte>)
    requires c.MemWrite? && Portable(c) && |rest| < |c.data|
    ensures DecideNext(impl, s, Message(WriteHead(c), []) + rest)
      == (MEM_WRITE, Decision(s, rest, Refused(MEM_WRITE, BUFFER_EMPTY)))
  {
    MessageRest(WriteHead(c), rest);
    TakeV(MEM_WRITE, TargetFields(PlaceOf(c), Done), rest);
    TargetRoundTrip(PlaceOf(c), Done, rest);
    hide ParseVarint, ParseTarget, TargetFields, Exec, Varint;
  }

  /** The smallest such batch: room for fifteen bytes behind the fifteen kept for the header, a write of
      three bytes, and then TERM. */
  lemma SmallAfterBig(impl: Impl, s: State, start: seq<byte>)
    requires |start| == 15
    ensures var one := PutAll(start, 30, CommandFields(MemWrite(0, 0, 1, 0, [0, 0, 0])));
      var two := PutAll(one.data, 30, CommandFields(Term));
      && one.code == BUFFER_FULL && two.code == SUCCESS && |two.data| == 30
      && DecideNext(impl, s, two.data[15..]) == (MEM_WRITE, Decision(s, [2], Refused(MEM_WRITE, BUFFER_EMPTY)))
  {
    var big := MemWrite(0, 0, 1, 0, [0, 0, 0]);
    HeadLength(big);
    TermBytes();
    hide PutAll, Message, DecideNext, CommandFields, WriteHead, Portable, ErrorFields, TakeReply;
    WriteTakesTheNext(impl, s, start, 30, big, Term, []);
    var body := Message(WriteHead(big), []) + [2];
    assert (start + body)[15..] == body;
  }

  lemma TermBytes()
    ensures Message(CommandFields(Term), []) == [2] && TypeOf(Term) == 2
  {
    assert Varint(2) == [2];
    assert [2] + [] == [2];
  }

  lemma HeadLength(c: Cmd)
    requires c == MemWrite(0, 0, 1, 0, [0, 0, 0])
    ensures |Message(WriteHead(c), [])| == 14 && Portable(c)
  {
    var m := PlaceOf(c);
    LeLength(0, 8);
    assert |Varint(0)| == 1 && |Varint(1)| == 1 && |Varint(3)| == 1;
    assert |Varint(MEM_WRITE)| == 2;
    hide Varint, Le;
    assert |Message(Put(V(m.size), Put(V(m.access), Put(V(m.flags), Done))), [])| == 3;
    assert |Message(TargetFields(m, Done), [])| == 12;
  }
}
