/**
  What a list of memory operations does, by itself (rddi/rddi_mem_ap.h): an interpreter of the operations over
  any memory, and, from the other side, an implementation of the target's memory commands over the same memory
  (target/cswp_server/cswp_impl.c).  Compiled, sent and served, the list does what it does by itself.
 */
module AccessProgram {
  import opened Wire
  import opened Commands
  import opened Server
  import opened Dispatch
  import opened Batch
  import opened Handlers
  import opened AccessBatch
  import opened WordBits
  import opened Client

  // More result codes (cswp_types.h)
  const BAD_ARGS := 0x26
  const NO_MATCH := 0x303

  // ---------------------------------------------------------------- memory

  /** The fields of the access port's control word that an access overrides. */
  datatype Overrides = Overrides(incr: Option<nat>, prot: Option<nat>, mode: Option<nat>, kind: Option<nat>,
                                 err: Option<nat>)

  /** One way to access one place: through which port, where, in units of how many bits (none is the
      device's default), whether the address stays where it is, and what is overridden. */
  datatype Place = Place(ap: nat, addr: u64, bits: nat, still: bool, over: Overrides)

  datatype Fetched<+M> = Fetched(m: M, code: int, data: seq<byte>)

  /** A memory in some state M.  Reads may change it, and either may fail. `untried` is the code of a poll that
      makes no try. */
  datatype Memory<!M> = Memory(start: M, read: (M, Place, nat) -> Fetched<M>,
                               write: (M, Place, seq<byte>) -> (M, int), untried: int)

  function Sized(data: seq<byte>, n: nat): seq<byte> {
    seq(n, i requires 0 <= i < n => if i < |data| then data[i] else 0)
  }

  // ---------------------------------------------------------------- the operations by themselves

  /** Where a list has got to: the memory, the value that the last poll ended with, the mask and value of the next
      poll, what has been read, and the code of what failed. */
  datatype World<M> = World(m: M, last: Option<seq<byte>>, mask: u32, value: u32, outs: seq<Resp>, code: int)

  function Overridden(f: u32, enable: nat, place: nat, width: nat): Option<nat>
    requires enable > 0 && place > 0 && width > 0
  {
    if f / enable % 2 == 1 then Some(f / place % width) else None
  }

  /** Of the eight bits of PROT seven are carried. */
  function MemApOverrides(f: u32): Overrides {
    var prot := Overridden(f, 0x100, 0x4000, 256);
    Overrides(Overridden(f, 0x80, 0x1000, 4),
              if prot.Some? then Some(prot.value % 128) else None,
              Overridden(f, 0x200, 0x40_0000, 16), Overridden(f, 0x400, 0x400_0000, 16),
              Overridden(f, 0x800, 0x4000_0000, 4))
  }

  function Bits(a: Access): nat {
    match a
    case ACC_8 => 8
    case ACC_16 => 16
    case ACC_32 => 32
    case ACC_64 => 64
  }

  function Where(ap: nat, base: u64, op: Op, still: bool): Place {
    Place(ap, (base + op.addr) % 0x1_0000_0000_0000_0000, Bits(op.access), still, MemApOverrides(op.flags))
  }

  /** The value read, as a little-endian word, is the value wanted wherever the mask has a bit. */
  predicate Equal(data: seq<byte>, mask: u32, value: u32) {
    forall k :: 0 <= k < 32 && Bit(mask, k) == 1 ==> Bit(FromLe(data), k) == Bit(value, k)
  }

  /** Read again and again, at most `tries` times, until the value equals the one wanted, or differs from it. */
  function Await<M>(mem: Memory<M>, m: M, at: Place, tries: nat, differ: bool, mask: u32, value: u32, was: Fetched<M>):
      Fetched<M>
    decreases tries
  {
    if tries == 0 then Fetched(m, was.code, was.data)
    else
      var r := mem.read(m, at, 4);
      var data := Sized(r.data, 4);
      if r.code != SUCCESS then Fetched(r.m, r.code, data)
      else if Equal(data, mask, value) != differ then Fetched(r.m, SUCCESS, data)
      else Await(mem, r.m, at, tries - 1, differ, mask, value, Fetched(r.m, NO_MATCH, data))
  }

  function Wrote<M>(mem: Memory<M>, w: World<M>, at: Place, data: seq<byte>): World<M> {
    var (m, code) := mem.write(w.m, at, data);
    if code != SUCCESS then w.(m := m, code := code) else w.(m := m, outs := w.outs + [RNone])
  }

  function Loaded<M>(mem: Memory<M>, w: World<M>, at: Place, n: nat): World<M> {
    var r := mem.read(w.m, at, n);
    if r.code != SUCCESS then w.(m := r.m, code := r.code)
    else w.(m := r.m, outs := w.outs + [RData(Sized(r.data, n))])
  }

  function Awaited<M>(mem: Memory<M>, w: World<M>, at: Place, tries: nat, differ: bool): World<M> {
    var r := Await(mem, w.m, at, tries, differ, w.mask, w.value, Fetched(w.m, mem.untried, Sized([], 4)));
    if r.code != SUCCESS then w.(m := r.m, last := None, code := r.code)
    else w.(m := r.m, last := Some(r.data), outs := w.outs + [RData(r.data)])
  }

  /** Look at the last value polled, without reading memory. */
  function Checked<M>(w: World<M>, differ: bool): World<M> {
    if w.last.None? || |w.last.value| < 4 then w.(code := BAD_ARGS)
    else
      var data := w.last.value[..4];
      if Equal(data, w.mask, w.value) != differ then w.(outs := w.outs + [RData(data)]) else w.(code := NO_MATCH)
  }

  /** One operation; an unknown one does nothing. */
  function Perform<M>(mem: Memory<M>, ap: nat, base: u64, w: World<M>, op: Op): World<M> {
    if op.code == WRITE then Wrote(mem, w, Where(ap, base, op, false), Payload(op, op.count))
    else if op.code == WRITE_RPT then
      Wrote(mem, w, Where(ap, base, op, true), Payload(op, Bits(op.access) / 8 * op.count))
    else if op.code == READ then Loaded(mem, w, Where(ap, base, op, false), op.count)
    else if op.code == READ_RPT then Loaded(mem, w, Where(ap, base, op, true), Bits(op.access) / 8 * op.count)
    else if op.code == POLL_MASK then w.(mask := op.data)
    else if op.code == POLL_VALUE then w.(value := op.data)
    else if op.code == POLL_EQ then Awaited(mem, w, Where(ap, base, op, false), op.count, false)
    else if op.code == POLL_NE then Awaited(mem, w, Where(ap, base, op, false), op.count, true)
    else if op.code == CHECK_EQ then Checked(w, false)
    else if op.code == CHECK_NE then Checked(w, true)
    else w
  }

  /** The first n operations in order, up to one that fails. */
  function Performed<M>(mem: Memory<M>, ap: nat, base: u64, start: World<M>, ops: seq<Op>, n: nat): World<M>
    requires n <= |ops|
  {
    if n == 0 then start
    else
      var w := Performed(mem, ap, base, start, ops, n - 1);
      if w.code != SUCCESS then w else Perform(mem, ap, base, w, ops[n - 1])
  }

  // ---------------------------------------------------------------- the target's implementation

  /** What the implementation keeps: the memory, and the value the last poll matched. */
  datatype Backend<M> = Backend(m: M, last: Option<seq<byte>>)

  /** CSWP's encoding of the same fields. */
  function CswpOverrides(f: nat): Overrides {
    Overrides(if f / 0x100 % 2 == 1 then Some(f / 0x2000 % 4) else None,
              if f / 0x200 % 2 == 1 then Some(f / 0x8000 % 128) else None,
              if f / 0x400 % 2 == 1 then Some(f / 0x40_0000 % 16) else None,
              if f / 0x800 % 2 == 1 then Some(f / 0x400_0000 % 16) else None,
              if f / 0x1000 % 2 == 1 then Some(f / 0x4000_0000 % 4) else None)
  }

  function CswpPlace(dev: nat, addr: u64, access: nat, flags: nat): Place {
    var bits := if access == 1 then 8 else if access == 2 then 16 else if access == 3 then 32
                else if access == 4 then 64 else 0;
    Place(dev, addr, bits, flags % 2 == 1, CswpOverrides(flags))
  }

  /** The bytes compared after both have been masked. */
  predicate Match(data: seq<byte>, mask: seq<byte>, wanted: seq<byte>)
    requires |data| == |mask|
  {
    && |wanted| == |mask|
    && forall i, k :: 0 <= i < |mask| && 0 <= k < 8 && Bit(mask[i], k) == 1 ==> Bit(data[i], k) == Bit(wanted[i], k)
  }

  function PollLoop<M>(mem: Memory<M>, m: M, at: Place, tries: nat, differ: bool, mask: seq<byte>, wanted: seq<byte>,
                       was: Fetched<M>): Fetched<M>
    decreases tries
  {
    if tries == 0 then Fetched(m, was.code, was.data)
    else
      var r := mem.read(m, at, |mask|);
      var data := Sized(r.data, |mask|);
      if r.code != SUCCESS then Fetched(r.m, r.code, data)
      else if Match(data, mask, wanted) != differ then Fetched(r.m, SUCCESS, data)
      else PollLoop(mem, r.m, at, tries - 1, differ, mask, wanted, Fetched(r.m, NO_MATCH, data))
  }

  function Said(code: int, data: seq<byte>): Answer { Answer(code, [], 0, 0, 0, data, []) }

  /** cswp_server_impl_check_last */
  function CheckLast<M>(d: Backend<M>, differ: bool, mask: seq<byte>, wanted: seq<byte>): Answer {
    if d.last.None? || |d.last.value| < |mask| then Said(BAD_ARGS, [])
    else
      var data := d.last.value[..|mask|];
      Said(if Match(data, mask, wanted) != differ then SUCCESS else NO_MATCH, data)
  }

  function Obey<M>(mem: Memory<M>, d: Backend<M>, c: Call): (Backend<M>, Answer) {
    match c
    case CallMemRead(dev, addr, size, access, flags) =>
      var r := mem.read(d.m, CswpPlace(dev, addr, access, flags), size);
      (d.(m := r.m), Said(r.code, r.data))
    case CallMemWrite(dev, addr, access, flags, data) =>
      var (m, code) := mem.write(d.m, CswpPlace(dev, addr, access, flags), data);
      (d.(m := m), Said(code, []))
    case CallMemPoll(dev, addr, access, flags, tries, _, mask, wanted) =>
      var differ := flags / 2 % 2 == 1;
      if flags / 4 % 2 == 1 then (d, CheckLast(d, differ, mask, wanted))
      else
        var r := PollLoop(mem, d.m, CswpPlace(dev, addr, access, flags), tries, differ, mask, wanted,
                          Fetched(d.m, mem.untried, Sized([], |mask|)));
        (Backend(r.m, if r.code == SUCCESS then Some(r.data) else None), Said(r.code, r.data))
    case _ => (d, Said(SUCCESS, []))
  }

  /** The implementation after the calls made so far. */
  function Lived<M>(mem: Memory<M>, calls: seq<Call>): Backend<M> {
    if calls == [] then Backend(mem.start, None)
    else Obey(mem, Lived(mem, calls[..|calls| - 1]), calls[|calls| - 1]).0
  }

  function LastAnswer<M>(mem: Memory<M>, calls: seq<Call>): Answer {
    if calls == [] then Said(SUCCESS, [])
    else Obey(mem, Lived(mem, calls[..|calls| - 1]), calls[|calls| - 1]).1
  }

  /** The texts that the server formats. */
  datatype Texts = Texts(error: (nat, int) -> CString, device: nat -> CString)

  function Implementation<M>(mem: Memory<M>, texts: Texts): Impl {
    Impl(_ => true, calls => LastAnswer(mem, calls), texts.error, texts.device)
  }

  lemma OneMoreCall<M>(mem: Memory<M>, calls: seq<Call>, c: Call)
    ensures (Lived(mem, calls + [c]), LastAnswer(mem, calls + [c])) == Obey(mem, Lived(mem, calls), c)
  {
    assert (calls + [c])[..|calls|] == calls;
  }

  /** Comparing four masked bytes is comparing masked words. */
  lemma MatchIsEqual(data: seq<byte>, mask: u32, value: u32)
    requires |data| == 4
    ensures |Le(mask, 4)| == |Le(value, 4)| == 4
    ensures Match(data, Le(mask, 4), Le(value, 4)) <==> Equal(data, mask, value)
  {
    var word := FromLe(data);
    LeOfBytes(data);
    LeLength(mask, 4);
    LeLength(value, 4);
    hide Le, FromLe, Bit;
    forall i, k | 0 <= i < 4 && 0 <= k < 8
      ensures Bit(data[i], k) == Bit(word, 8 * i + k)
      ensures Bit(Le(mask, 4)[i], k) == Bit(mask, 8 * i + k)
      ensures Bit(Le(value, 4)[i], k) == Bit(value, 8 * i + k)
    {
      BitOfByte(word, 4, i, k);
      BitOfByte(mask, 4, i, k);
      BitOfByte(value, 4, i, k);
    }
    if Match(data, Le(mask, 4), Le(value, 4)) {
      forall j | 0 <= j < 32 && Bit(mask, j) == 1 ensures Bit(word, j) == Bit(value, j) {
        var i, k := j / 8, j % 8;
        assert j == 8 * i + k && Bit(Le(mask, 4)[i], k) == 1;
      }
    }
    if Equal(data, mask, value) {
      forall i, k | 0 <= i < 4 && 0 <= k < 8 && Bit(Le(mask, 4)[i], k) == 1
        ensures Bit(data[i], k) == Bit(Le(value, 4)[i], k)
      {
        assert Bit(mask, 8 * i + k) == 1;
      }
    }
  }

  // ---------------------------------------------------------------- one operation, sent and obeyed

  lemma {:induction false} LoopIsAwait<M>(mem: Memory<M>, m: M, at: Place, tries: nat, differ: bool, mask: u32,
                                          value: u32, was: Fetched<M>)
    ensures PollLoop(mem, m, at, tries, differ, Le(mask, 4), Le(value, 4), was)
         == Await(mem, m, at, tries, differ, mask, value, was)
    ensures |was.data| == 4 ==> |Await(mem, m, at, tries, differ, mask, value, was).data| == 4
    decreases tries
  {
    LeLength(mask, 4);
    hide Le, Match, Equal, Sized;
    if tries == 0 {
    } else {
      var r := mem.read(m, at, 4);
      var data := Sized(r.data, 4);
      SizedLength(r.data, 4);
      MatchIsEqual(data, mask, value);
      LoopIsAwait(mem, r.m, at, tries - 1, differ, mask, value, Fetched(r.m, NO_MATCH, data));
    }
  }

  lemma SizedLength(data: seq<byte>, n: nat)
    ensures |Sized(data, n)| == n
    ensures |data| == n ==> Sized(data, n) == data
  {}

  /** The number of the place and the flags of a command name the place that the operation means. */
  lemma PlaceNamed(ap: nat, base: u64, op: Op, low: nat)
    requires low < 8
    ensures var flags := MapFlags(op.flags) + low;
      && CswpPlace(ap, Low64(base + op.addr), AccessCode(op.access), flags) == Where(ap, base, op, low % 2 == 1)
      && flags / 2 % 2 == low / 2 % 2 && flags / 4 % 2 == low / 4 % 2
      && AccessBytes(op.access) == Bits(op.access) / 8
  {
    FlagsCarried(op.flags);
    hide MapFlags;
    LowBits(MapFlags(op.flags), low);
  }

  lemma LowBits(g: nat, low: nat)
    requires low < 8 && g % 0x100 == 0
    ensures CswpOverrides(g + low) == CswpOverrides(g)
    ensures (g + low) % 2 == low % 2 && (g + low) / 2 % 2 == low / 2 % 2 && (g + low) / 4 % 2 == low / 4 % 2
  {
    LowGone(g, low, 0x100, 1);
    LowGone(g, low, 0x200, 2);
    LowGone(g, low, 0x400, 4);
    LowGone(g, low, 0x800, 8);
    LowGone(g, low, 0x1000, 0x10);
    LowGone(g, low, 0x2000, 0x20);
    LowGone(g, low, 0x8000, 0x80);
    LowGone(g, low, 0x40_0000, 0x4000);
    LowGone(g, low, 0x400_0000, 0x4_0000);
    LowGone(g, low, 0x4000_0000, 0x40_0000);
    LowThree(g / 0x100, low);
  }

  /** The implementation is left where the operation leaves the memory, and answers what it reads or its code. */
  predicate Done<M(==)>(w: World<M>, v: World<M>, d: Backend<M>, a: Answer, c: Cmd) {
    && d == Backend(v.m, v.last) && v.mask == w.mask && v.value == w.value && a.code == v.code
    && (v.code != SUCCESS ==> v.outs == w.outs)
    && (v.code == SUCCESS ==>
          v.outs == w.outs + [if c.MemWrite? then RNone
                              else RData(Sized(a.data, if c.MemRead? then c.size else 4))])
  }

  /** The operation's command, when the mask and value of the list are those given. */
  ghost predicate Sent<M>(w: World<M>, ap: nat, base: u64, ops: seq<Op>, i: nat) {
    && i < |ops| && OnWire(ops[i]) && w.mask == MaskAt(ops, i) && w.value == ValueAt(ops, i) && w.code == SUCCESS
  }

  lemma AccessFields(ap: nat, base: u64, ops: seq<Op>, i: nat)
    requires i < |ops| && OnWire(ops[i]) && ops[i].code < POLL_EQ
    ensures var (c, op) := (Meaning(ap, base, ops, i), ops[i]);
      var still := op.code == WRITE_RPT || op.code == READ_RPT;
      var n := if still then Bits(op.access) / 8 * op.count else op.count;
      && (if op.code == WRITE || op.code == WRITE_RPT then c.MemWrite? && c.data == Payload(op, n)
          else c.MemRead? && c.size == n)
      && CswpPlace(c.dev, c.addr, c.access, c.flags) == Where(ap, base, op, still)
  {
    PlaceNamed(ap, base, ops[i], 0);
    PlaceNamed(ap, base, ops[i], NO_ADDR_INC);
    hide MapFlags, CswpPlace, Where, Payload, AccessCode, AccessBytes, Bits, Le, MaskAt, ValueAt, Low64;
  }

  /** The three lowest bits of a poll's flags: that it looks for a difference, and at the last value. */
  function PollMarks(code: byte): nat {
    (if code == POLL_NE || code == CHECK_NE then 2 else 0) + (if code == CHECK_EQ || code == CHECK_NE then 4 else 0)
  }

  lemma MarksRead(code: byte)
    ensures PollMarks(code) < 8 && PollMarks(code) % 2 == 0
    ensures PollMarks(code) / 2 % 2 == 1 <==> code == POLL_NE || code == CHECK_NE
    ensures PollMarks(code) / 4 % 2 == 1 <==> code == CHECK_EQ || code == CHECK_NE
  {}

  lemma PollArguments(ap: nat, base: u64, ops: seq<Op>, i: nat)
    requires i < |ops| && OnWire(ops[i]) && ops[i].code >= POLL_EQ
    ensures var (c, op) := (Meaning(ap, base, ops, i), ops[i]);
      c == MemPoll(ap, Low64(base + op.addr), AccessCode(op.access), MapFlags(op.flags) + PollMarks(op.code),
                   if op.code == CHECK_EQ || op.code == CHECK_NE then 0 else op.count, 0,
                   Le(MaskAt(ops, i), 4), Le(ValueAt(ops, i), 4))
  {
    hide Le, MapFlags, Payload, AccessBytes, AccessCode, MaskAt, ValueAt, Low64;
  }

  lemma PollFields(ap: nat, base: u64, ops: seq<Op>, i: nat)
    requires i < |ops| && OnWire(ops[i]) && ops[i].code >= POLL_EQ
    ensures var (c, op) := (Meaning(ap, base, ops, i), ops[i]);
      && c.MemPoll? && |c.mask| == |c.wanted| == 4
      && c.mask == Le(MaskAt(ops, i), 4) && c.wanted == Le(ValueAt(ops, i), 4)
      && CswpPlace(c.dev, c.addr, c.access, c.flags) == Where(ap, base, op, false)
      && (c.flags / 2 % 2 == 1 <==> op.code == POLL_NE || op.code == CHECK_NE)
      && (c.flags / 4 % 2 == 1 <==> op.code == CHECK_EQ || op.code == CHECK_NE)
      && c.tries == (if op.code == CHECK_EQ || op.code == CHECK_NE then 0 else op.count)
      && c.interval == 0
  {
    hide MapFlags, CswpPlace, Where, AccessCode, AccessBytes, Bits, Le, MaskAt, ValueAt, Low64, Meaning, PollMarks;
    PollArguments(ap, base, ops, i);
    MarksRead(ops[i].code);
    PlaceNamed(ap, base, ops[i], PollMarks(ops[i].code));
    LeLength(MaskAt(ops, i), 4);
    LeLength(ValueAt(ops, i), 4);
  }

  lemma ObeyAccess<M>(mem: Memory<M>, w: World<M>, ap: nat, base: u64, ops: seq<Op>, i: nat)
    requires Sent(w, ap, base, ops, i) && ops[i].code < POLL_EQ
    ensures var c := Meaning(ap, base, ops, i);
      && CallFor(c).Some?
      && var (d, a) := Obey(mem, Backend(w.m, w.last), CallFor(c).value);
      Done(w, Perform(mem, ap, base, w, ops[i]), d, a, c)
  {
    AccessFields(ap, base, ops, i);
    hide Meaning, CswpPlace, Where, Payload, Bits, MaskAt, ValueAt, Sized;
  }

  lemma ObeyPoll<M>(mem: Memory<M>, w: World<M>, ap: nat, base: u64, ops: seq<Op>, i: nat)
    requires Sent(w, ap, base, ops, i) && (ops[i].code == POLL_EQ || ops[i].code == POLL_NE)
    ensures var c := Meaning(ap, base, ops, i);
      && CallFor(c).Some?
      && var (d, a) := Obey(mem, Backend(w.m, w.last), CallFor(c).value);
      Done(w, Perform(mem, ap, base, w, ops[i]), d, a, c)
  {
    hide Meaning, CswpPlace, Where, Le, MaskAt, ValueAt, Sized, PollLoop, Await;
    var op := ops[i];
    var differ := op.code == POLL_NE;
    var first := Fetched(w.m, mem.untried, Sized([], 4));
    PollFields(ap, base, ops, i);
    LoopIsAwait(mem, w.m, Where(ap, base, op, false), op.count, differ, w.mask, w.value, first);
    SizedLength([], 4);
    var r := Await(mem, w.m, Where(ap, base, op, false), op.count, differ, w.mask, w.value, first);
    SizedLength(r.data, 4);
  }

  lemma ObeyCheck<M>(mem: Memory<M>, w: World<M>, ap: nat, base: u64, ops: seq<Op>, i: nat)
    requires Sent(w, ap, base, ops, i) && (ops[i].code == CHECK_EQ || ops[i].code == CHECK_NE)
    ensures var c := Meaning(ap, base, ops, i);
      && CallFor(c).Some?
      && var (d, a) := Obey(mem, Backend(w.m, w.last), CallFor(c).value);
      Done(w, Perform(mem, ap, base, w, ops[i]), d, a, c)
  {
    PollFields(ap, base, ops, i);
    if w.last.Some? && |w.last.value| >= 4 {
      MatchIsEqual(w.last.value[..4], w.mask, w.value);
      SizedLength(w.last.value[..4], 4);
    }
    hide Meaning, CswpPlace, Where, Le, MaskAt, ValueAt, Sized, Match, Equal;
  }

  /** Running one compiled command on the server is performing its operation. */
  lemma ExecIsPerform<M>(mem: Memory<M>, s: State, w: World<M>, ap: nat, base: u64, ops: seq<Op>, i: nat,
                         texts: Texts)
    requires Sent(w, ap, base, ops, i) && ap < |s.devices| && Lived(mem, s.calls) == Backend(w.m, w.last)
    ensures var (s', r) := Exec(Implementation(mem, texts), s, Meaning(ap, base, ops, i));
      var v := Perform(mem, ap, base, w, ops[i]);
      && s'.devices == s.devices && Lived(mem, s'.calls) == Backend(v.m, v.last)
      && v.mask == w.mask && v.value == w.value
      && (if v.code == SUCCESS then r.Ok? && v.outs == w.outs + [r.resp]
          else r.Refused? && r.code == v.code && v.outs == w.outs)
  {
    var op := ops[i];
    if op.code < POLL_EQ { ObeyAccess(mem, w, ap, base, ops, i); }
    else if op.code == POLL_EQ || op.code == POLL_NE { ObeyPoll(mem, w, ap, base, ops, i); }
    else { ObeyCheck(mem, w, ap, base, ops, i); }
    var c := Meaning(ap, base, ops, i);
    MeaningAp(ap, base, ops, i);
    var impl := Implementation(mem, texts);
    OneCall(impl, s, c);
    OneMoreCall(mem, s.calls, CallFor(c).value);
    hide Exec, Meaning, Perform, Obey, Lived, LastAnswer, OnWire, CallFor;
    PaddedIsSized(Exec(impl, s, c).1, LastAnswer(mem, s.calls + [CallFor(c).value]).data,
                  if c.MemRead? then c.size else 4);
  }

  lemma PaddedIsSized(r: Result, data: seq<byte>, n: nat)
    ensures r.Ok? && r.resp.RData? && Padded(r.resp.data, data, n) ==> r.resp == RData(Sized(data, n))
  {}

  lemma MeaningAp(ap: nat, base: u64, ops: seq<Op>, i: nat)
    requires i < |ops| && OnWire(ops[i])
    ensures var c := Meaning(ap, base, ops, i);
      && (c.MemRead? || c.MemWrite? || c.MemPoll?) && c.dev == ap && CallFor(c).Some?
      && (c.MemPoll? ==> |c.mask| == 4)
  {
    LeLength(MaskAt(ops, i), 4);
    hide Le, MapFlags, Payload, AccessBytes, AccessCode, MaskAt, ValueAt, Low64;
  }

  // ---------------------------------------------------------------- the whole list

  lemma {:induction false} DirectSnoc(impl: Impl, s: State, cmds: seq<Cmd>, c: Cmd)
    ensures var run := Direct(impl, s, cmds);
      Direct(impl, s, cmds + [c]) ==
        if run.stop.Some? then run
        else
          var (s', r) := Exec(impl, run.state, c);
          if r.Ok? then Batch.Run(s', run.replies + [r.resp], None) else Batch.Run(s', run.replies, Some(r))
    decreases |cmds|
  {
    hide Exec;
    if cmds == [] {
      assert [] + [c] == [c] && [c][1..] == [];
    } else {
      assert (cmds + [c])[1..] == cmds[1..] + [c];
      DirectSnoc(impl, Exec(impl, s, cmds[0]).0, cmds[1..], c);
    }
  }

  function Start<M>(mem: Memory<M>, s: State): World<M> {
    var d := Lived(mem, s.calls);
    World(d.m, d.last, 0xFFFF_FFFF, 0, [], SUCCESS)
  }

  /** A list of operations, compiled into commands and run on a server that drives this memory, does to the
      memory and returns exactly what its operations do in order by themselves, and stops with the code of
      the first that fails. */
  lemma {:induction false} ListRunsAsPerformed<M>(mem: Memory<M>, s: State, ap: nat, base: u64, ops: seq<Op>, n: nat,
                                                  texts: Texts)
    requires n <= |ops| && ap < |s.devices|
    ensures var impl := Implementation(mem, texts);
      var run := Direct(impl, s, Compiled(ap, base, ops, n));
      var w := Performed(mem, ap, base, Start(mem, s), ops, n);
      && run.replies == w.outs && run.state.devices == s.devices
      && Lived(mem, run.state.calls) == Backend(w.m, w.last)
      && (if w.code == SUCCESS then run.stop.None? && w.mask == MaskAt(ops, n) && w.value == ValueAt(ops, n)
          else run.stop.Some? && run.stop.value.Refused? && run.stop.value.code == w.code)
    decreases n
  {
    NothingYet(ap, base, ops);
    hide Compiled, Direct, Perform, Exec, MaskAt, ValueAt, Lived, Meaning;
    var impl := Implementation(mem, texts);
    if n == 0 {
      DirectNone(impl, s);
    } else {
      ListRunsAsPerformed(mem, s, ap, base, ops, n - 1, texts);
      OneMore(ap, base, ops, n - 1);
      var w := Performed(mem, ap, base, Start(mem, s), ops, n - 1);
      var run := Direct(impl, s, Compiled(ap, base, ops, n - 1));
      if OnWire(ops[n - 1]) {
        DirectSnoc(impl, s, Compiled(ap, base, ops, n - 1), Meaning(ap, base, ops, n - 1));
        if w.code == SUCCESS { ExecIsPerform(mem, run.state, w, ap, base, ops, n - 1, texts); }
      } else {
        PerformLocal(mem, ap, base, w, ops[n - 1]);
      }
    }
  }

  lemma DirectNone(impl: Impl, s: State)
    ensures Direct(impl, s, []) == Batch.Run(s, [], None)
  {}

  lemma PerformLocal<M>(mem: Memory<M>, ap: nat, base: u64, w: World<M>, op: Op)
    requires !OnWire(op)
    ensures Perform(mem, ap, base, w, op) ==
      w.(mask := if op.code == POLL_MASK then op.data else w.mask,
         value := if op.code == POLL_VALUE then op.data else w.value)
  {}

  /** From end to end: where the batch gets through, the memory is left, and the client told, what the operations
      do and read by themselves; the call is a success exactly if none of them fails. */
  lemma ListServed<M>(mem: Memory<M>, s: State, ap: nat, base: u64, ops: seq<Op>, n: nat, junk: seq<byte>, cap: nat,
                      texts: Texts)
    requires n <= |ops| && ap < |s.devices|
    requires GoesThrough(Implementation(mem, texts), s, Compiled(ap, base, ops, n), junk, cap)
    ensures var impl := Implementation(mem, texts);
      var cmds := Compiled(ap, base, ops, n);
      var w := Performed(mem, ap, base, Start(mem, s), ops, n);
      var served := Serve(impl, s, Frame(|cmds|, BATCH_ABORT, Body(cmds, junk)), cap);
      && served.rsp.Some? && Lived(mem, served.state.calls) == Backend(w.m, w.last)
      && var o := Receive(|cmds|, Expected(cmds), served.rsp.value);
         && o.replies == w.outs && o.completed == |w.outs|
         && (o.code == SUCCESS <==> w.code == SUCCESS)
  {
    hide Implementation, Performed, Compiled, Direct, Responses, Delivered, Expecting, Expected, Serve, Receive;
    hide Frame, Body, Lived, Start, MaskAt, ValueAt;
    var impl := Implementation(mem, texts);
    var cmds := Compiled(ap, base, ops, n);
    ListRunsAsPerformed(mem, s, ap, base, ops, n, texts);
    BatchRefinement(impl, s, cmds, Expected(cmds), BATCH_ABORT, junk, cap);
    StopIsError(impl, s, cmds);
  }

  /** What a write sends: the bytes its pointer names, or the low bytes of its own data field. */
  lemma PayloadIs(op: Op, n: nat)
    requires n <= |op.memory| || (!op.indirect && n <= 4)
    ensures |Payload(op, n)| == n
    ensures if op.indirect || n > 4 then Payload(op, n) == op.memory[..n]
            else forall k :: 0 <= k < n ==> Payload(op, n)[k] == op.data / [1, 0x100, 0x1_0000, 0x100_0000][k] % 0x100
  {
    LeFour(op.data);
    hide Le;
  }
}
