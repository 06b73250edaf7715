/**
  Message framing over a byte stream (common_tcp/common_tcp.c).  A read or write may move fewer
  bytes than asked for, be interrupted, or fail; the socket's script says which, call by call.
 */
module Tcp {
  import opened Wire
  import Batch

  /** What the next system call does: it moves at most `limit` + 1 bytes, returns EINTR, or fails. */
  datatype Event = Short(limit: nat) | Interrupted | Broken

  predicate Calm(script: seq<Event>) {
    forall e <- script :: !e.Broken?
  }

  const LENGTH_BYTES := 4

  datatype Message = Whole(bytes: seq<byte>) | Closed | Undefined

  function Least(a: nat, b: nat): nat { if a < b then a else b }

  /** What reading one message from a stream gives, whatever the chunks, and what is left.  A length
      below that of the length field itself makes the original read about 2^64 bytes. */
  function Next(stream: seq<byte>, maxSz: nat): (Message, seq<byte>) {
    if |stream| < LENGTH_BYTES then (Closed, [])
    else
      var n := Least(FromLe(stream[..LENGTH_BYTES]), maxSz);
      if n < LENGTH_BYTES then (Undefined, stream[LENGTH_BYTES..])
      else if |stream| < n then (Closed, [])
      else (Whole(stream[..n]), stream[n..])
  }

  /** The stream ends before the bytes that its length announces, as far as they fit the reader's buffer. */
  predicate EndsEarly(stream: seq<byte>, maxSz: nat) {
    || |stream| < LENGTH_BYTES
    || (|stream| < FromLe(stream[..LENGTH_BYTES]) && |stream| < maxSz)
  }

  function Concat(ms: seq<seq<byte>>): seq<byte> {
    if ms == [] then [] else ms[0] + Concat(ms[1..])
  }

  /** n messages in a row. */
  function NextAll(stream: seq<byte>, n: nat, maxSz: nat): (seq<Message>, seq<byte>)
    decreases n
  {
    if n == 0 then ([], stream)
    else
      var (m, rest) := Next(stream, maxSz);
      var (more, left) := NextAll(rest, n - 1, maxSz);
      ([m] + more, left)
  }

  /** A message that opens with its own length. */
  predicate SelfDescribing(m: seq<byte>) {
    LENGTH_BYTES <= |m| && FromLe(m[..LENGTH_BYTES]) == |m|
  }

  /** A self-describing message comes back whole, with the stream at the next one, exactly when the
      reader has room for it; else the reader takes its front and stays in its middle. */
  lemma FrameExact(m: seq<byte>, rest: seq<byte>, maxSz: nat)
    requires SelfDescribing(m) && LENGTH_BYTES <= maxSz
    ensures Next(m + rest, maxSz) == (Whole(m), rest) <==> |m| <= maxSz
    ensures maxSz < |m| ==> Next(m + rest, maxSz) == (Whole(m[..maxSz]), m[maxSz..] + rest)
  {
    assert (m + rest)[..LENGTH_BYTES] == m[..LENGTH_BYTES];
    assert |m| <= maxSz ==> (m + rest)[..|m|] == m && (m + rest)[|m|..] == rest;
    assert maxSz < |m| ==> (m + rest)[..maxSz] == m[..maxSz] && (m + rest)[maxSz..] == m[maxSz..] + rest;
  }

  function Wholes(ms: seq<seq<byte>>): seq<Message> {
    if ms == [] then [] else [Whole(ms[0])] + Wholes(ms[1..])
  }

  /** Any list of messages, written back to back, is read back as that list. */
  lemma {:induction false} ReadBack(ms: seq<seq<byte>>, rest: seq<byte>, maxSz: nat)
    requires forall m <- ms :: SelfDescribing(m) && |m| <= maxSz
    ensures NextAll(Concat(ms) + rest, |ms|, maxSz) == (Wholes(ms), rest)
  {
    hide Next, SelfDescribing;
    if ms == [] {
      assert Concat(ms) + rest == rest;
    } else {
      assert ms[0] in ms && LENGTH_BYTES <= maxSz by { assert SelfDescribing(ms[0]); RoomFor(ms[0]); }
      assert Concat(ms) + rest == ms[0] + (Concat(ms[1..]) + rest);
      FrameExact(ms[0], Concat(ms[1..]) + rest, maxSz);
      ReadBack(ms[1..], rest, maxSz);
    }
  }

  lemma RoomFor(m: seq<byte>)
    requires SelfDescribing(m)
    ensures LENGTH_BYTES <= |m|
  {}

  /** What the CSWP client sends, and what the server answers, is of this kind. */
  lemma FramesDescribeThemselves(count: nat, mode: byte, body: seq<byte>, out: seq<byte>)
    requires |Batch.Frame(count, mode, body)| < 0x1_0000_0000 && 4 <= |out| < 0x1_0000_0000
    ensures SelfDescribing(Batch.Frame(count, mode, body)) && SelfDescribing(Le(|out|, 4) + out[4..])
  {
    hide Le, FromLe, Varint, SelfDescribing;
    LeLength(4 + |Varint(count) + [mode] + body|, 4);
    Described(Varint(count) + [mode] + body);
    Described(out[4..]);
  }

  lemma Described(tail: seq<byte>)
    requires 4 + |tail| < 0x1_0000_0000
    ensures SelfDescribing(Le(4 + |tail|, 4) + tail)
  {
    Pow256Values();
    LeRoundTrip(4 + |tail|, 4);
    hide Le, FromLe;
    assert (Le(4 + |tail|, 4) + tail)[..4] == Le(4 + |tail|, 4);
  }

  /** One end of a connection: what the peer has sent and will ever send, and what it has been sent. */
  class Socket {
    var inbox: seq<byte>
    var outbox: seq<byte>
    var script: seq<Event>

    constructor (inbox: seq<byte>, script: seq<Event>)
      ensures this.inbox == inbox && this.outbox == [] && this.script == script
    {
      this.inbox, this.outbox, this.script := inbox, [], script;
    }

    method NextEvent() returns (e: Event)
      modifies this`script
      ensures old(script) == [] ==> script == [] && e == Short(0)
      ensures old(script) != [] ==> script == old(script)[1..] && e == old(script)[0]
      ensures Calm(old(script)) ==> Calm(script) && !e.Broken?
    {
      if script == [] { return Short(0); }
      e := script[0];
      script := script[1..];
    }

    /** read(2): -1 with `again` for EINTR, 0 at the end of the stream. */
    method Read(n: nat) returns (r: int, again: bool, got: seq<byte>)
      requires n > 0
      modifies this`script, this`inbox
      ensures old(inbox) == got + inbox && -1 <= r <= n
      ensures r == -1 ==> got == [] && (again ==> |script| < |old(script)|)
      ensures r >= 0 ==> r == |got| && (r == 0 <==> old(inbox) == []) && |script| <= |old(script)|
      ensures Calm(old(script)) ==> Calm(script) && (r == -1 ==> again)
    {
      var e := NextEvent();
      if e.Interrupted? { return -1, true, []; }
      if e.Broken? { return -1, false, []; }
      var k := Least(Least(n, |inbox|), e.limit + 1);
      got := inbox[..k];
      inbox := inbox[k..];
      r, again := k, false;
    }

    /** write(2), never of nothing. */
    method Write(data: seq<byte>) returns (r: int, again: bool)
      requires data != []
      modifies this`script, this`outbox
      ensures -1 <= r <= |data| && r != 0
      ensures r == -1 ==> outbox == old(outbox) && (again ==> |script| < |old(script)|)
      ensures r >= 0 ==> outbox == old(outbox) + data[..r] && |script| <= |old(script)|
      ensures Calm(old(script)) ==> Calm(script) && (r == -1 ==> again)
    {
      var e := NextEvent();
      if e.Interrupted? { return -1, true; }
      if e.Broken? { return -1, false; }
      r, again := Least(|data|, e.limit + 1), false;
      outbox := outbox + data[..r];
    }

    /** cswp_readn: unless a read fails, as many bytes as asked for or as there are. */
    method ReadN(n: nat) returns (r: int, got: seq<byte>)
      modifies this`script, this`inbox
      ensures old(inbox) == got + inbox
      ensures r == -1 || (r == |got| && r == Least(n, |old(inbox)|))
      ensures Calm(old(script)) ==> Calm(script) && r != -1
    {
      hide Calm;
      var nleft := n;
      got := [];
      while nleft > 0
        invariant 0 <= nleft && nleft + |got| == n && old(inbox) == got + inbox
        invariant Calm(old(script)) ==> Calm(script)
        decreases nleft, |script|
      {
        var nread, again, piece := Read(nleft);
        assert got + (piece + inbox) == (got + piece) + inbox;
        if nread < 0 {
          if !again { return -1, got; }
          nread := 0;
        } else if nread == 0 {
          break;
        }
        nleft := nleft - nread;
        got := got + piece;
      }
      assert |old(inbox)| == |got| + |inbox| && (nleft > 0 ==> inbox == []);
      r := n - nleft;
    }

    /** cswp_read_msg_tcp into a buffer of maxSz bytes.  `fatal` is the underflow of the body's length. */
    method ReadMessage(maxSz: nat) returns (r: int, fatal: bool, buf: seq<byte>)
      modifies this`script, this`inbox
      ensures fatal ==> Next(old(inbox), maxSz) == (Undefined, inbox)
      ensures r > 0 && !fatal ==> r == |buf| && Next(old(inbox), maxSz) == (Whole(buf), inbox)
      ensures r == 0 && !fatal ==> Next(old(inbox), maxSz) == (Closed, inbox)
      ensures r != -1 ==> (r == 0 && !fatal <==> EndsEarly(old(inbox), maxSz))
      ensures r > 0 ==> buf <= old(inbox) && (r == maxSz || r == FromLe(old(inbox)[..LENGTH_BYTES]))
      ensures r >= -1 && (Calm(old(script)) ==> Calm(script) && r != -1)
    {
      hide FromLe;
      fatal, buf := false, [];
      var nread, head := ReadN(LENGTH_BYTES);
      if nread == -1 { return -1, false, []; }
      if nread != LENGTH_BYTES { return 0, false, []; }
      assert head == old(inbox)[..LENGTH_BYTES];
      var msgLen := FromLe(head);
      if msgLen > maxSz { msgLen := maxSz; }
      if msgLen < LENGTH_BYTES { return 0, true, []; }
      var body;
      nread, body := ReadN(msgLen - LENGTH_BYTES);
      if nread == -1 { return -1, false, []; }
      if nread != msgLen - LENGTH_BYTES { return 0, false, []; }
      buf := head + body;
      assert old(inbox) == buf + inbox;
      r := nread + LENGTH_BYTES;
    }

    /** cswp_write_msg_tcp: all of it, or an error after a front piece of it. */
    method WriteMessage(m: seq<byte>) returns (r: int)
      modifies this`script, this`outbox
      ensures r == |m| || r == -1
      ensures r == |m| ==> outbox == old(outbox) + m
      ensures r == -1 ==> exists k :: 0 <= k < |m| && outbox == old(outbox) + m[..k]
      ensures Calm(old(script)) ==> Calm(script) && r == |m|
    {
      var nleft := |m|;
      assert old(outbox) + m[..0] == old(outbox);
      while nleft > 0
        invariant 0 <= nleft <= |m| && outbox == old(outbox) + m[..|m| - nleft]
        invariant Calm(old(script)) ==> Calm(script)
        decreases nleft, |script|
      {
        var nwritten, again := Write(m[|m| - nleft..]);
        if nwritten <= 0 {
          if nwritten < 0 && again { nwritten := 0; } else { return -1; }
        }
        assert m[..|m| - nleft] + m[|m| - nleft..][..nwritten] == m[..|m| - nleft + nwritten];
        nleft := nleft - nwritten;
      }
      assert m[..|m|] == m;
      r := |m|;
    }
  }

  lemma {:induction false} ConcatSnoc(ms: seq<seq<byte>>, m: seq<byte>)
    ensures Concat(ms + [m]) == Concat(ms) + m
  {
    if ms == [] {
      assert [m][1..] == [];
      assert m + Concat([]) == m;
    } else {
      assert (ms + [m])[1..] == ms[1..] + [m];
      ConcatSnoc(ms[1..], m);
    }
  }

  /** Messages sent one after the other. */
  method WriteAll(a: Socket, ms: seq<seq<byte>>)
    requires Calm(a.script)
    modifies a
    ensures a.outbox == old(a.outbox) + Concat(ms) && a.inbox == old(a.inbox)
  {
    var i := 0;
    assert ms[..0] == [];
    while i < |ms|
      invariant i <= |ms| && Calm(a.script) && a.inbox == old(a.inbox)
      invariant a.outbox == old(a.outbox) + Concat(ms[..i])
    {
      ConcatSnoc(ms[..i], ms[i]);
      assert ms[..i + 1] == ms[..i] + [ms[i]];
      var _ := a.WriteMessage(ms[i]);
      i := i + 1;
    }
    assert ms[..i] == ms;
  }

  /** Messages already read, in front of those still to come. */
  function Following(got: seq<seq<byte>>, rest: (seq<Message>, seq<byte>)): (seq<Message>, seq<byte>) {
    (Wholes(got) + rest.0, rest.1)
  }

  lemma FollowingStep(got: seq<seq<byte>>, m: seq<byte>, rest: (seq<Message>, seq<byte>))
    ensures Following(got, ([Whole(m)] + rest.0, rest.1)) == Following(got + [m], rest)
  {
    WholesSnoc(got, m);
    assert Wholes(got) + ([Whole(m)] + rest.0) == (Wholes(got) + [Whole(m)]) + rest.0;
  }

  /** As many messages as the caller asks for, when they are there. */
  method ReadAll(b: Socket, n: nat, maxSz: nat) returns (got: seq<seq<byte>>)
    requires Calm(b.script)
    requires forall m <- NextAll(b.inbox, n, maxSz).0 :: m.Whole? && |m.bytes| > 0
    modifies b
    ensures (Wholes(got), b.inbox) == NextAll(old(b.inbox), n, maxSz)
  {
    hide Next;
    got := [];
    var i := 0;
    assert Wholes([]) + NextAll(b.inbox, n, maxSz).0 == NextAll(b.inbox, n, maxSz).0;
    while i < n
      invariant i <= n && Calm(b.script)
      invariant NextAll(old(b.inbox), n, maxSz) == Following(got, NextAll(b.inbox, n - i, maxSz))
    {
      ghost var rest := NextAll(b.inbox, n - i, maxSz);
      assert rest.0[0] in Wholes(got) + rest.0;
      assert rest.0[0] == Next(b.inbox, maxSz).0;
      var r, fatal, buf := b.ReadMessage(maxSz);
      FollowingStep(got, buf, NextAll(b.inbox, n - i - 1, maxSz));
      got := got + [buf];
      i := i + 1;
    }
    assert Wholes(got) + [] == Wholes(got);
  }

  lemma {:induction false} WholesSnoc(ms: seq<seq<byte>>, m: seq<byte>)
    ensures Wholes(ms + [m]) == Wholes(ms) + [Whole(m)]
  {
    if ms == [] {
      assert [m][1..] == [];
    } else {
      assert (ms + [m])[1..] == ms[1..] + [m];
      WholesSnoc(ms[1..], m);
    }
  }

  lemma {:induction false} WholesSame(p: seq<seq<byte>>, q: seq<seq<byte>>)
    requires Wholes(p) == Wholes(q)
    ensures p == q
  {
    if p == [] || q == [] {
      assert p == [] && q == [] by { assert |Wholes(p)| == 0; }
    } else {
      assert Wholes(p)[0] == Wholes(q)[0] && Wholes(p)[1..] == Wholes(q)[1..];
      WholesSame(p[1..], q[1..]);
    }
  }

  /** Both ends of a connection: whatever the sizes of the single writes and reads, and however often either
      end is interrupted, the messages written are the messages read, and the reader is left where the next
      one will start. */
  method Relay(a: Socket, b: Socket, ms: seq<seq<byte>>, maxSz: nat) returns (got: seq<seq<byte>>)
    requires a != b && Calm(a.script) && Calm(b.script) && a.outbox == []
    requires forall m <- ms :: SelfDescribing(m) && |m| <= maxSz
    modifies a, b
    ensures got == ms && b.inbox == []
  {
    WriteAll(a, ms);
    b.inbox := a.outbox;
    assert b.inbox == Concat(ms) + [];
    ReadBack(ms, [], maxSz);
    WholesAre(ms, maxSz);
    got := ReadAll(b, |ms|, maxSz);
    WholesSame(got, ms);
  }

  lemma {:induction false} WholesAre(ms: seq<seq<byte>>, maxSz: nat)
    requires forall m <- ms :: SelfDescribing(m) && |m| <= maxSz
    ensures forall x <- Wholes(ms) :: x.Whole? && |x.bytes| > 0
  {
    hide SelfDescribing;
    if ms == [] {
    } else {
      assert ms[0] in ms;
      RoomFor(ms[0]);
      WholesAre(ms[1..], maxSz);
    }
  }
}
