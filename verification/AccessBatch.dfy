/**
  MEM_AP_AccessBatch (rddi-memap_cswp/env.cpp): a list of memory operations, some of which only set
  the mask and value of later polls, compiled into one CSWP batch.
 */
module AccessBatch {
  import opened Wire
  import opened Buffer
  import opened Commands
  import opened Server
  import opened Replies
  import opened Dispatch
  import opened Batch
  import opened Requests
  import opened Client
  import CommandServer

  const WRITE := 0
  const WRITE_RPT := 1
  const READ := 2
  const READ_RPT := 3
  const POLL_MASK := 4
  const POLL_VALUE := 5
  const POLL_EQ := 6
  const POLL_NE := 7
  const CHECK_EQ := 8
  const CHECK_NE := 9

  const NO_ADDR_INC := 1
  const MATCH_NE := 2
  const CHECK_LAST := 4

  const BADARG := 1
  const FAILED := 3
  const NOCONN := 0x30

  datatype Access = ACC_8 | ACC_16 | ACC_32 | ACC_64

  /** `memory` is what the data pointer of the operation points at: the caller's buffer if it is
      indirect, else the operation's own `data` field and what lies behind it. */
  datatype Op = Op(code: byte, indirect: bool, addr: u32, access: Access, flags: u32, count: u32, data: u32,
                   memory: seq<byte>)

  function AccessBytes(a: Access): nat {
    match a
    case ACC_8 => 1
    case ACC_16 => 2
    case ACC_32 => 4
    case ACC_64 => 8
  }

  function AccessCode(a: Access): nat {
    match a
    case ACC_8 => 1
    case ACC_16 => 2
    case ACC_32 => 3
    case ACC_64 => 4
  }

  // Each override of mapFlags: if its enable bit is set, a mark and the same field at its place in
  // the CSWP flags.  PROT has eight bits in MEM-AP flags and seven in CSWP flags.

  function Incr(f: u32): nat { if f / 0x80 % 2 == 1 then 0x100 + 0x2000 * (f / 0x1000 % 4) else 0 }
  function Prot(f: u32): nat { if f / 0x100 % 2 == 1 then 0x200 + 0x8000 * (f / 0x4000 % 256 % 128) else 0 }
  function Mode(f: u32): nat { if f / 0x200 % 2 == 1 then 0x400 + 0x40_0000 * (f / 0x40_0000 % 16) else 0 }
  function Kind(f: u32): nat { if f / 0x400 % 2 == 1 then 0x800 + 0x400_0000 * (f / 0x400_0000 % 16) else 0 }
  function Err(f: u32): nat { if f / 0x800 % 2 == 1 then 0x1000 + 0x4000_0000 * (f / 0x4000_0000 % 4) else 0 }

  /** mapFlags for incrementing accesses.  The fields do not overlap, so each `|` is a sum. */
  function MapFlags(f: u32): nat {
    Incr(f) + Prot(f) + Mode(f) + Kind(f) + Err(f)
  }

  /** The first `n` bytes at an operation's data pointer. */
  function Payload(op: Op, n: nat): seq<byte> {
    if !op.indirect && n <= 4 then LeLength(op.data, 4); Le(op.data, 4)[..n]
    else if n <= |op.memory| then op.memory[..n] else op.memory
  }

  /** What the caller owes: a write's data is there to be read. */
  predicate Supplied(op: Op) {
    && (op.code == WRITE ==> op.count <= |op.memory| || (!op.indirect && op.count <= 4))
    && (op.code == WRITE_RPT ==>
          AccessBytes(op.access) * op.count <= |op.memory| || (!op.indirect && AccessBytes(op.access) * op.count <= 4))
  }

  /** Operations that become a command; the rest are local or unknown. */
  predicate OnWire(op: Op) { op.code <= 9 && op.code != POLL_MASK && op.code != POLL_VALUE }
  predicate Local(op: Op) { op.code == POLL_MASK || op.code == POLL_VALUE }

  // ---------------------------------------------------------------- the meaning of a list

  /** The mask in force at operation i: the last one set before it. */
  function MaskAt(ops: seq<Op>, i: nat): u32
    requires i <= |ops|
  {
    if i == 0 then 0xFFFF_FFFF
    else if ops[i - 1].code == POLL_MASK then ops[i - 1].data else MaskAt(ops, i - 1)
  }

  function ValueAt(ops: seq<Op>, i: nat): u32
    requires i <= |ops|
  {
    if i == 0 then 0
    else if ops[i - 1].code == POLL_VALUE then ops[i - 1].data else ValueAt(ops, i - 1)
  }

  /** The command that operation i stands for. */
  function Meaning(ap: nat, base: u64, ops: seq<Op>, i: nat): Cmd
    requires i < |ops| && OnWire(ops[i])
  {
    var op := ops[i];
    var addr := Low64(base + op.addr);
    var access, flags := AccessCode(op.access), MapFlags(op.flags);
    var mask, value := Le(MaskAt(ops, i), 4), Le(ValueAt(ops, i), 4);
    var repeated := AccessBytes(op.access) * op.count;
    if op.code == WRITE then MemWrite(ap, addr, access, flags, Payload(op, op.count))
    else if op.code == WRITE_RPT then MemWrite(ap, addr, access, flags + NO_ADDR_INC, Payload(op, repeated))
    else if op.code == READ then MemRead(ap, addr, op.count, access, flags)
    else if op.code == READ_RPT then MemRead(ap, addr, repeated, access, flags + NO_ADDR_INC)
    else if op.code == POLL_EQ then MemPoll(ap, addr, access, flags, op.count, 0, mask, value)
    else if op.code == POLL_NE then MemPoll(ap, addr, access, flags + MATCH_NE, op.count, 0, mask, value)
    else if op.code == CHECK_EQ then MemPoll(ap, addr, access, flags + CHECK_LAST, 0, 0, mask, value)
    else MemPoll(ap, addr, access, flags + CHECK_LAST + MATCH_NE, 0, 0, mask, value)
  }

  /** The commands of the first n operations, and how many of those are local. */
  function Compiled(ap: nat, base: u64, ops: seq<Op>, n: nat): seq<Cmd>
    requires n <= |ops|
  {
    if n == 0 then []
    else Compiled(ap, base, ops, n - 1) + if OnWire(ops[n - 1]) then [Meaning(ap, base, ops, n - 1)] else []
  }

  function Locals(ops: seq<Op>, n: nat): nat
    requires n <= |ops|
  {
    if n == 0 then 0 else Locals(ops, n - 1) + if Local(ops[n - 1]) then 1 else 0
  }

  function Unknowns(ops: seq<Op>, n: nat): nat
    requires n <= |ops|
  {
    if n == 0 then 0 else Unknowns(ops, n - 1) + if !OnWire(ops[n - 1]) && !Local(ops[n - 1]) then 1 else 0
  }

  /** Every operation is counted once: as a command, as a local one, or not at all. */
  lemma {:induction false} EveryOperation(ap: nat, base: u64, ops: seq<Op>, n: nat)
    requires n <= |ops|
    ensures |Compiled(ap, base, ops, n)| + Locals(ops, n) + Unknowns(ops, n) == n
  {
    if n == 0 {
    } else {
      EveryOperation(ap, base, ops, n - 1);
    }
  }

  /** A later set wins: the mask in force is the default until one is set, then the data of the last
      operation that set it. */
  lemma {:induction false} MaskIsLatest(ops: seq<Op>, i: nat) returns (j: int)
    requires i <= |ops|
    ensures -1 <= j < i && (forall k :: j < k < i ==> ops[k].code != POLL_MASK)
    ensures if j == -1 then MaskAt(ops, i) == 0xFFFF_FFFF
            else ops[j].code == POLL_MASK && MaskAt(ops, i) == ops[j].data
  {
    if i == 0 { j := -1; }
    else if ops[i - 1].code == POLL_MASK { j := i - 1; }
    else { j := MaskIsLatest(ops, i - 1); }
  }

  lemma {:induction false} ValueIsLatest(ops: seq<Op>, i: nat) returns (j: int)
    requires i <= |ops|
    ensures -1 <= j < i && (forall k :: j < k < i ==> ops[k].code != POLL_VALUE)
    ensures if j == -1 then ValueAt(ops, i) == 0
            else ops[j].code == POLL_VALUE && ValueAt(ops, i) == ops[j].data
  {
    if i == 0 { j := -1; }
    else if ops[i - 1].code == POLL_VALUE { j := i - 1; }
    else { j := ValueIsLatest(ops, i - 1); }
  }

  // ---------------------------------------------------------------- flags and portability

  lemma IncrParts(f: u32) returns (m: nat, v: nat)
    ensures Incr(f) == 0x100 * m + 0x2000 * v && m < 2 && v < 4 && v == if m == 1 then f / 0x1000 % 4 else 0
    ensures m == f / 0x80 % 2
  { m := f / 0x80 % 2; v := if m == 1 then f / 0x1000 % 4 else 0; }

  lemma ProtParts(f: u32) returns (m: nat, v: nat)
    ensures Prot(f) == 0x200 * m + 0x8000 * v && m < 2 && v < 128 && v == if m == 1 then f / 0x4000 % 256 % 128 else 0
    ensures m == f / 0x100 % 2
  { m := f / 0x100 % 2; v := if m == 1 then f / 0x4000 % 256 % 128 else 0; }

  lemma ModeParts(f: u32) returns (m: nat, v: nat)
    ensures Mode(f) == 0x400 * m + 0x40_0000 * v && m < 2 && v < 16 && v == if m == 1 then f / 0x40_0000 % 16 else 0
    ensures m == f / 0x200 % 2
  { m := f / 0x200 % 2; v := if m == 1 then f / 0x40_0000 % 16 else 0; }

  lemma KindParts(f: u32) returns (m: nat, v: nat)
    ensures Kind(f) == 0x800 * m + 0x400_0000 * v && m < 2 && v < 16 && v == if m == 1 then f / 0x400_0000 % 16 else 0
    ensures m == f / 0x400 % 2
  { m := f / 0x400 % 2; v := if m == 1 then f / 0x400_0000 % 16 else 0; }

  lemma ErrParts(f: u32) returns (m: nat, v: nat)
    ensures Err(f) == 0x1000 * m + 0x4000_0000 * v && m < 2 && v < 4 && v == if m == 1 then f / 0x4000_0000 % 4 else 0
    ensures m == f / 0x800 % 2
  { m := f / 0x800 % 2; v := if m == 1 then f / 0x4000_0000 % 4 else 0; }

  /** The top field is what is left of the word. */
  lemma TopField(f: u32)
    ensures f / 0x4000_0000 % 4 < 2 <==> f < 0x8000_0000
  {
    assert f / 0x4000_0000 < 4;
  }

  /** The flags fit the decoder unless the ERR override asks for a value above one. */
  lemma FlagBounds(f: u32)
    ensures 0 <= MapFlags(f) < 0x1_0000_0000
    ensures MapFlags(f) < VARINT_LIMIT <==> f / 0x800 % 2 == 0 || f < 0x8000_0000
  {
    var m1, v1 := IncrParts(f);
    var m2, v2 := ProtParts(f);
    var m3, v3 := ModeParts(f);
    var m4, v4 := KindParts(f);
    var m5, v5 := ErrParts(f);
    TopField(f);
    hide Incr, Prot, Mode, Kind, Err;
    assert MapFlags(f) - Err(f) < 0x3FFF_EFFF;
  }

  /** Each overridden field reaches its place in the CSWP flags unchanged, except that PROT loses its
      top bit, with its mark set; a field that is not overridden is zero there with its mark clear.  The
      three lowest bits are left free. */
  lemma FlagsCarried(f: u32)
    ensures var g := MapFlags(f);
      && g / 0x2000 % 4 == (if f / 0x80 % 2 == 1 then f / 0x1000 % 4 else 0)
      && g / 0x8000 % 128 == (if f / 0x100 % 2 == 1 then f / 0x4000 % 256 % 128 else 0)
      && g / 0x40_0000 % 16 == (if f / 0x200 % 2 == 1 then f / 0x40_0000 % 16 else 0)
      && g / 0x400_0000 % 16 == (if f / 0x400 % 2 == 1 then f / 0x400_0000 % 16 else 0)
      && g / 0x4000_0000 == (if f / 0x800 % 2 == 1 then f / 0x4000_0000 % 4 else 0)
      && g / 0x100 % 2 == f / 0x80 % 2 && g / 0x200 % 2 == f / 0x100 % 2 && g / 0x400 % 2 == f / 0x200 % 2
      && g / 0x800 % 2 == f / 0x400 % 2 && g / 0x1000 % 2 == f / 0x800 % 2
      && g % 0x100 == 0
  {
    var m1, v1 := IncrParts(f);
    var m2, v2 := ProtParts(f);
    var m3, v3 := ModeParts(f);
    var m4, v4 := KindParts(f);
    var m5, v5 := ErrParts(f);
    hide Incr, Prot, Mode, Kind, Err;
    Split(0x20 * m1 + 0x40 * m2 + 0x80 * m3 + 0x100 * m4 + 0x200 * m5, v1, v2, v3, v4, v5);
    SplitMarks(m1, m2, m3, m4, m5, v1 + 4 * (v2 + 128 * (v3 + 16 * (v4 + 16 * v5))));
  }

  lemma SplitMarks(a: nat, b: nat, c: nat, d: nat, e: nat, rest: nat)
    requires a < 2 && b < 2 && c < 2 && d < 2 && e < 2
    ensures var g := 0x100 * a + 0x200 * b + 0x400 * c + 0x800 * d + 0x1000 * e + 0x2000 * rest;
      && g / 0x100 % 2 == a && g / 0x200 % 2 == b && g / 0x400 % 2 == c && g / 0x800 % 2 == d && g / 0x1000 % 2 == e
      && g % 0x100 == 0
  {
    var g := 0x100 * a + 0x200 * b + 0x400 * c + 0x800 * d + 0x1000 * e + 0x2000 * rest;
    Mark(g, 0x100, 0, a, b + 2 * (c + 2 * (d + 2 * (e + 2 * rest))));
    Mark(g, 0x200, 0x100 * a, b, c + 2 * (d + 2 * (e + 2 * rest)));
    Mark(g, 0x400, 0x100 * a + 0x200 * b, c, d + 2 * (e + 2 * rest));
    Mark(g, 0x800, 0x100 * a + 0x200 * b + 0x400 * c, d, e + 2 * rest);
    Mark(g, 0x1000, 0x100 * a + 0x200 * b + 0x400 * c + 0x800 * d, e, rest);
  }

  /** The bit at k, from what is below it and what is above. */
  lemma Mark(g: nat, k: nat, low: nat, bit: nat, above: nat)
    requires low < k && bit < 2 && g == k * (bit + 2 * above) + low
    ensures g / k % 2 == bit && g % k == low
  {
    Quotient(g, k, low, bit + 2 * above);
  }

  lemma Quotient(g: nat, k: nat, low: nat, q: nat)
    requires low < k && g == k * q + low
    ensures g / k == q && g % k == low
  {
    var d := g / k;
    assert d < q ==> k * d <= k * (q - 1);
    assert d > q ==> k * d >= k * (q + 1);
    assert g == k * (g / k) + g % k;
  }

  lemma Split(m: nat, a: nat, b: nat, c: nat, d: nat, e: nat)
    requires m < 0x400 && a < 4 && b < 128 && c < 16 && d < 16 && e < 4
    ensures var g := 8 * m + 0x2000 * a + 0x8000 * b + 0x40_0000 * c + 0x400_0000 * d + 0x4000_0000 * e;
      && g / 0x2000 % 4 == a && g / 0x8000 % 128 == b && g / 0x40_0000 % 16 == c
      && g / 0x400_0000 % 16 == d && g / 0x4000_0000 == e && g % 8 == 0
  {
    var g := 8 * m + 0x2000 * a + 0x8000 * b + 0x40_0000 * c + 0x400_0000 * d + 0x4000_0000 * e;
    assert g / 0x4000_0000 == e;
    assert g / 0x400_0000 == d + 16 * e;
    assert g / 0x40_0000 == c + 16 * (d + 16 * e);
    assert g / 0x8000 == b + 128 * (c + 16 * (d + 16 * e));
    assert g / 0x2000 == a + 4 * (b + 128 * (c + 16 * (d + 16 * e)));
  }

  lemma LowThree(h: nat, low: nat)
    requires low < 8
    ensures var f := 0x100 * h + low;
      f % 2 == low % 2 && f / 2 % 2 == low / 2 % 2 && f / 4 % 2 == low / 4 % 2
  {
    var f := 0x100 * h + low;
    Mark(f, 2, low % 2, low / 2 % 2, low / 4 + 0x40 * h);
    Mark(f, 4, low % 4, low / 4, 0x20 * h);
  }

  lemma LowGone(g: nat, low: nat, unit: nat, j: nat)
    requires low < 8 && g % 0x100 == 0 && unit == 0x100 * j && j > 0
    ensures (g + low) / unit == g / unit
  {
    var h, q := g / 0x100, g / unit;
    assert g == unit * q + g % unit;
    assert unit * q == 0x100 * (j * q);
    assert g % unit == 0x100 * (h - j * q);
    assert h - j * q < j;
    Quotient(g + low, unit, g % unit + low, q);
  }

  /** Every number of the operation's command is below the decoder's limit; for the flags, that is
      unless the ERR override asks for a value above one. */
  predicate Small(ap: nat, op: Op) {
    var repeats := op.code == WRITE_RPT || op.code == READ_RPT;
    var size := (if repeats then AccessBytes(op.access) else 1) * op.count;
    && ap < VARINT_LIMIT && (op.flags / 0x800 % 2 == 0 || op.flags < 0x8000_0000)
    && (op.code != CHECK_EQ && op.code != CHECK_NE ==> size < VARINT_LIMIT)
  }

  /** The poll and increment bits do not change that. */
  lemma FlagsSmall(f: u32, extra: nat)
    requires extra < 8
    ensures MapFlags(f) + extra < VARINT_LIMIT <==> f / 0x800 % 2 == 0 || f < 0x8000_0000
  {
    FlagBounds(f);
    FlagsCarried(f);
    hide MapFlags;
  }

  lemma PortableMeaning(ap: nat, base: u64, ops: seq<Op>, i: nat)
    requires i < |ops| && OnWire(ops[i]) && Supplied(ops[i])
    ensures Portable(Meaning(ap, base, ops, i)) <==> Small(ap, ops[i])
  {
    hide Portable, Meaning, Small, Supplied;
    if ops[i].code < POLL_EQ { PortableAccess(ap, base, ops, i); } else { PortablePoll(ap, base, ops, i); }
  }

  lemma PortableAccess(ap: nat, base: u64, ops: seq<Op>, i: nat)
    requires i < |ops| && OnWire(ops[i]) && Supplied(ops[i]) && ops[i].code < POLL_EQ
    ensures Portable(Meaning(ap, base, ops, i)) <==> Small(ap, ops[i])
  {
    FlagsSmall(ops[i].flags, 0);
    FlagsSmall(ops[i].flags, NO_ADDR_INC);
    LeLength(ops[i].data, 4);
    hide MapFlags, Le, AccessBytes, AccessCode, MaskAt, ValueAt;
  }

  lemma PortablePoll(ap: nat, base: u64, ops: seq<Op>, i: nat)
    requires i < |ops| && OnWire(ops[i]) && ops[i].code >= POLL_EQ
    ensures Portable(Meaning(ap, base, ops, i)) <==> Small(ap, ops[i])
  {
    FlagsSmall(ops[i].flags, 0);
    FlagsSmall(ops[i].flags, MATCH_NE);
    FlagsSmall(ops[i].flags, CHECK_LAST);
    FlagsSmall(ops[i].flags, CHECK_LAST + MATCH_NE);
    LeLength(MaskAt(ops, i), 4);
    LeLength(ValueAt(ops, i), 4);
    hide MapFlags, Le, AccessBytes, AccessCode, MaskAt, ValueAt;
  }

  /** The commands of a list survive the wire exactly when each of its wire operations is small. */
  lemma {:induction false} CompiledPortable(ap: nat, base: u64, ops: seq<Op>, n: nat)
    requires n <= |ops| && forall op <- ops :: Supplied(op)
    ensures (forall c <- Compiled(ap, base, ops, n) :: Portable(c))
      <==> (forall i :: 0 <= i < n && OnWire(ops[i]) ==> Small(ap, ops[i]))
  {
    hide Portable, Small, Meaning, Supplied, OnWire;
    if n == 0 {
    } else {
      CompiledPortable(ap, base, ops, n - 1);
      if OnWire(ops[n - 1]) {
        PortableMeaning(ap, base, ops, n - 1);
        var c := Meaning(ap, base, ops, n - 1);
        assert forall x :: x in Compiled(ap, base, ops, n) <==> x in Compiled(ap, base, ops, n - 1) || x == c;
        assert c in Compiled(ap, base, ops, n);
      }
    }
  }

  lemma {:induction false} CompiledTypes(ap: nat, base: u64, ops: seq<Op>, n: nat)
    requires n <= |ops|
    ensures forall c <- Compiled(ap, base, ops, n) :: TypeOf(c) in {MEM_READ, MEM_WRITE, MEM_POLL}
  {
    if n == 0 {
    } else {
      CompiledTypes(ap, base, ops, n - 1);
      if OnWire(ops[n - 1]) { MeaningType(ap, base, ops, n - 1); }
      hide Meaning, TypeOf;
    }
  }

  lemma MeaningType(ap: nat, base: u64, ops: seq<Op>, i: nat)
    requires i < |ops| && OnWire(ops[i])
    ensures TypeOf(Meaning(ap, base, ops, i)) in {MEM_READ, MEM_WRITE, MEM_POLL} && !Meaning(ap, base, ops, i).RegWrite?
  {}

  lemma {:induction false} DirectFits(impl: Impl, s: State, cmds: seq<Cmd>)
    ensures var run := Direct(impl, s, cmds);
      |run.replies| <= |cmds| && forall i :: 0 <= i < |run.replies| ==> Fits(TypeOf(cmds[i]), run.replies[i])
    decreases |cmds|
  {
    hide Exec, Fits, TypeOf;
    if cmds == [] {
    } else {
      RefusalsAreErrors(impl, s, cmds[0]);
      DirectFits(impl, Exec(impl, s, cmds[0]).0, cmds[1..]);
    }
  }

  // ---------------------------------------------------------------- compiling into a client

  /** What the client expects back: no completion of these bounds the reply. */
  function Expected(cmds: seq<Cmd>): seq<Pending> {
    if cmds == [] then []
    else Expected(cmds[..|cmds| - 1]) + [Pending(TypeOf(cmds[|cmds| - 1]), 0, 0, 0, 0)]
  }

  lemma ExpectedSnoc(cmds: seq<Cmd>, c: Cmd)
    ensures Expected(cmds + [c]) == Expected(cmds) + [Pending(TypeOf(c), 0, 0, 0, 0)]
  {
    assert (cmds + [c])[..|cmds|] == cmds;
  }

  function Room(cmds: seq<Cmd>): nat { HEADER_SIZE + |Body(cmds, [])| }

  /** How many operations are handled: all, or up to the first whose command does not fit. */
  predicate Reached(cap: nat, ap: nat, base: u64, ops: seq<Op>, n: nat)
    requires n <= |ops|
  {
    && Room(Compiled(ap, base, ops, n)) <= cap
    && (n < |ops| ==> OnWire(ops[n]) && cap < Room(Compiled(ap, base, ops, n + 1)))
  }

  /** The batch gets through: see `Batch.Delivered` and `Batch.Expecting`. */
  predicate GoesThrough(impl: Impl, s: State, cmds: seq<Cmd>, junk: seq<byte>, cap: nat) {
    var run := Direct(impl, s, cmds);
    && Delivered(cmds, run, Responses(impl, s, cmds, []), junk, BATCH_ABORT, cap)
    && |run.replies| <= |cmds| && Expecting(Expected(cmds), cmds, run)
  }

  lemma EmptyIsStraight()
    ensures Straight([]) && Tail([]) == [] && SentOf([]) == []
  {}

  lemma NothingYet(ap: nat, base: u64, ops: seq<Op>)
    ensures Room([]) == HEADER_SIZE && Expected([]) == [] && Compiled(ap, base, ops, 0) == [] && Locals(ops, 0) == 0
    ensures MaskAt(ops, 0) == 0xFFFF_FFFF && ValueAt(ops, 0) == 0
  {}

  lemma OneMore(ap: nat, base: u64, ops: seq<Op>, i: nat)
    requires i < |ops|
    ensures Compiled(ap, base, ops, i + 1)
      == if OnWire(ops[i]) then Compiled(ap, base, ops, i) + [Meaning(ap, base, ops, i)] else Compiled(ap, base, ops, i)
    ensures Locals(ops, i + 1) == Locals(ops, i) + if Local(ops[i]) then 1 else 0
    ensures MaskAt(ops, i + 1) == if ops[i].code == POLL_MASK then ops[i].data else MaskAt(ops, i)
    ensures ValueAt(ops, i + 1) == if ops[i].code == POLL_VALUE then ops[i].data else ValueAt(ops, i)
    ensures Local(ops[i]) <==> ops[i].code == POLL_MASK || ops[i].code == POLL_VALUE
    ensures OnWire(ops[i]) ==> !Local(ops[i])
  {}

  lemma {:induction false} ExpectedAt(cmds: seq<Cmd>, i: nat)
    requires i < |cmds|
    ensures |Expected(cmds)| == |cmds| && Expected(cmds)[i] == Pending(TypeOf(cmds[i]), 0, 0, 0, 0)
  {
    hide TypeOf;
    if i < |cmds| - 1 { ExpectedAt(cmds[..|cmds| - 1], i); }
    else if |cmds| > 1 { ExpectedAt(cmds[..|cmds| - 1], 0); }
  }

  /** When a compiled batch gets through, in terms a caller knows: something was compiled, every wire
      operation is small, message and response fit, nothing worse than a refusal happens, and no
      answer is too long for a varint. */
  lemma GoesThroughWhen(impl: Impl, s: State, ap: nat, base: u64, ops: seq<Op>, n: nat, junk: seq<byte>, cap: nat)
    requires n <= |ops| && forall op <- ops :: Supplied(op)
    ensures var cmds := Compiled(ap, base, ops, n);
      var run := Direct(impl, s, cmds);
      GoesThrough(impl, s, cmds, junk, cap) <==>
        && 0 < |cmds| < VARINT_LIMIT
        && (forall i :: 0 <= i < n && OnWire(ops[i]) ==> Small(ap, ops[i]))
        && (run.stop.Some? ==> run.stop.value.Refused? && PlainCode(run.stop.value.code))
        && |Frame(|cmds|, BATCH_ABORT, Body(cmds, junk))| < 0x1_0000_0000
        && |Opening(|cmds|)| + |Responses(impl, s, cmds, [])| <= cap < 0x1_0000_0000
        && (forall r <- run.replies :: r.RData? ==> |r.data| < VARINT_LIMIT)
  {
    var cmds := Compiled(ap, base, ops, n);
    var run := Direct(impl, s, cmds);
    CompiledPortable(ap, base, ops, n);
    CompiledTypes(ap, base, ops, n);
    DirectFits(impl, s, cmds);
    MemoryExpecting(cmds, run);
    hide Compiled, Direct, Portable, Small, Frame, Body, Opening, Responses, OnWire, Expecting;
  }

  /** Of the answers to memory commands only the length of data can be too much. */
  lemma MemoryExpecting(cmds: seq<Cmd>, run: Batch.Run)
    requires |run.replies| <= |cmds| && forall c <- cmds :: TypeOf(c) in {MEM_READ, MEM_WRITE, MEM_POLL}
    requires forall i :: 0 <= i < |run.replies| ==> Fits(TypeOf(cmds[i]), run.replies[i])
    ensures Expecting(Expected(cmds), cmds, run)
      <==> forall r <- run.replies :: r.RData? ==> |r.data| < VARINT_LIMIT
  {
    hide Expected, TypeOf;
    if cmds == [] { ExpectedNone(); } else { ExpectedAt(cmds, 0); }
    forall i | 0 <= i < |cmds|
      ensures |Expected(cmds)| == |cmds| && Expected(cmds)[i] == Pending(TypeOf(cmds[i]), 0, 0, 0, 0)
    { ExpectedAt(cmds, i); }
    forall i | 0 <= i < |run.replies|
      ensures Holds(Expected(cmds)[i], run.replies[i]) <==>
          (run.replies[i].RData? ==> |run.replies[i].data| < VARINT_LIMIT)
    {
      assert cmds[i] in cmds && Fits(TypeOf(cmds[i]), run.replies[i]);
    }
  }

  lemma ExpectedNone()
    ensures Expected([]) == []
  {}

  lemma RoomLeft(was: seq<Piece>, c: Cmd)
    requires Straight(was) && Tail(was) == []
    ensures HEADER_SIZE + |Glue(was)| == Room(SentOf(was))
    ensures Room(SentOf(was) + [c]) == Room(SentOf(was)) + |Message(CommandFields(c), [])|
  {
    ListDescribesBuffer(was);
    BodySnoc(SentOf(was), c, []);
    hide Message, Body, SentOf, Glue, CommandFields;
  }

  lemma StraightOn(was: seq<Piece>, p: Piece, c: Cmd)
    requires Straight(was) && Tail(was) == [] && (p.Counted? ==> p == Counted(c, Message(CommandFields(c), [])))
    ensures Straight(was + [p]) && (p.Counted? ==> Tail(was + [p]) == [])
    ensures SentOf(was + [p]) == if p.Counted? then SentOf(was) + [c] else SentOf(was)
  {
    GlueSnoc(was, p);
    assert SentOf(was) + [] == SentOf(was);
    hide Message, CommandFields;
  }

  class MemAp {
    const client: Client
    var connected: bool
    var aps: nat

    constructor (client: Client)
      ensures this.client == client && !connected && aps == 0
    {
      this.client := client;
      connected, aps := false, 0;
    }

    /** The arguments of the client call for one operation, with the poll state the loop has gathered. */
    method Arguments(ap: nat, base: u64, op: Op, mask: u32, value: u32, ghost ops: seq<Op>, ghost i: nat)
      returns (c: Cmd)
      requires OnWire(op)
      requires i < |ops| && op == ops[i] && mask == MaskAt(ops, i) && value == ValueAt(ops, i)
      ensures c == Meaning(ap, base, ops, i)
    {
      hide Le, MapFlags, Payload, MaskAt, ValueAt, AccessBytes, AccessCode;
      var addr := Low64(base + op.addr);
      var access, flags := AccessCode(op.access), MapFlags(op.flags);
      var size := AccessBytes(op.access) * op.count;
      if op.code == WRITE {
        c := MemWrite(ap, addr, access, flags, Payload(op, op.count));
      } else if op.code == WRITE_RPT {
        c := MemWrite(ap, addr, access, flags + NO_ADDR_INC, Payload(op, size));
      } else if op.code == READ {
        c := MemRead(ap, addr, op.count, access, flags);
      } else if op.code == READ_RPT {
        c := MemRead(ap, addr, size, access, flags + NO_ADDR_INC);
      } else if op.code == POLL_EQ {
        c := MemPoll(ap, addr, access, flags, op.count, 0, Le(mask, 4), Le(value, 4));
      } else if op.code == POLL_NE {
        c := MemPoll(ap, addr, access, flags + MATCH_NE, op.count, 0, Le(mask, 4), Le(value, 4));
      } else if op.code == CHECK_EQ {
        c := MemPoll(ap, addr, access, flags + CHECK_LAST, 0, 0, Le(mask, 4), Le(value, 4));
      } else {
        c := MemPoll(ap, addr, access, flags + CHECK_LAST + MATCH_NE, 0, 0, Le(mask, 4), Le(value, 4));
      }
    }

    /** So far nothing failed: the buffer holds what is counted, and nothing else. */
    ghost predicate Unbroken()
      reads client, client.cmd, client.cmd.buf, client.hdr, client.rsp
    {
      && client.Open() && client.batchMode == BATCH_ABORT
      && Straight(client.written) && Tail(client.written) == [] && client.pending == Expected(client.sent)
    }

    method Send(c: Cmd) returns (res: int)
      requires Unbroken() && !c.RegWrite?
      modifies client`numCmds, client`pending, client`sent, client`written, client.cmd, client.cmd.buf
      ensures client.Open() && Straight(client.written) && client.pending == Expected(client.sent)
      ensures res == SUCCESS <==> Room(old(client.sent) + [c]) <= client.cmd.buf.Length
      ensures client.sent == (if res == SUCCESS then old(client.sent) + [c] else old(client.sent))
      ensures res == SUCCESS ==> Tail(client.written) == []
    {
      ghost var was := client.written;
      RoomLeft(was, c);
      hide Expected, Room, TypeOf, Glue, SentOf, Tail, Straight, Whole, Message, CommandFields;
      assert client.cmd.used == HEADER_SIZE + |client.cmd.Contents()[HEADER_SIZE..]|;
      ExpectedSnoc(client.sent, c);
      res := client.Request(c, Pending(TypeOf(c), 0, 0, 0, 0));
      StraightOn(was, client.written[|was|], c);
    }

    /** The switch: one operation on the wire, or into the poll state, or neither. */
    method CompileOne(ap: nat, base: u64, op: Op, mask: u32, value: u32, ghost ops: seq<Op>, ghost i: nat)
      returns (res: int, pollMask: u32, pollValue: u32, local: nat)
      requires Unbroken()
      requires i < |ops| && op == ops[i] && mask == MaskAt(ops, i) && value == ValueAt(ops, i)
      requires client.sent == Compiled(ap, base, ops, i)
      requires Room(client.sent) <= client.cmd.buf.Length
      modifies client`numCmds, client`pending, client`sent, client`written, client.cmd, client.cmd.buf
      ensures client.Open() && Straight(client.written) && client.pending == Expected(client.sent)
      ensures res == SUCCESS ==>
        && client.sent == Compiled(ap, base, ops, i + 1) && Room(client.sent) <= client.cmd.buf.Length
        && Tail(client.written) == []
        && pollMask == MaskAt(ops, i + 1) && pollValue == ValueAt(ops, i + 1) && Locals(ops, i) + local
          == Locals(ops, i + 1)
      ensures res != SUCCESS ==>
        client.sent == Compiled(ap, base, ops, i) && local == 0 && Reached(client.cmd.buf.Length, ap, base, ops, i)
    {
      hide Meaning, Room, Expected, Compiled, Locals, MaskAt, ValueAt, OnWire, Local, Straight, Tail;
      OneMore(ap, base, ops, i);
      res, pollMask, pollValue, local := SUCCESS, mask, value, 0;
      if OnWire(op) {
        var c := Arguments(ap, base, op, mask, value, ops, i);
        MeaningType(ap, base, ops, i);
        res := Send(c);
      } else if op.code == POLL_MASK {
        pollMask, local := op.data, 1;
      } else if op.code == POLL_VALUE {
        pollValue, local := op.data, 1;
      }
    }

    /** The loop: the batch holds exactly what the handled operations mean, each poll and check with
        the mask and value last set before it. */
    method CompileAll(ap: nat, base: u64, ops: seq<Op>) returns (localOps: nat, ghost n: nat)
      requires client.Valid() && client.batchMode == BATCH_NONE
      modifies client, client.cmd, client.cmd.buf
      ensures client.Open() && client.batchMode == BATCH_ABORT
      ensures n <= |ops| && Reached(client.cmd.buf.Length, ap, base, ops, n)
      ensures client.sent == Compiled(ap, base, ops, n) && client.pending == Expected(client.sent)
      ensures localOps == Locals(ops, n) && Straight(client.written) && (n == |ops| ==> Tail(client.written) == [])
    {
      NothingYet(ap, base, ops);
      EmptyIsStraight();
      hide Meaning, Room, Expected, Compiled, Locals, MaskAt, ValueAt, OnWire, Local, Straight, Tail;
      client.BatchBegin(true);
      localOps, n := 0, 0;
      var pollMask: u32, pollValue: u32 := 0xFFFF_FFFF, 0;
      var res, i := SUCCESS, 0;
      while i < |ops| && res == SUCCESS
        invariant i <= |ops| && client.Open() && client.batchMode == BATCH_ABORT
        invariant n == if res == SUCCESS then i else i - 1
        invariant client.sent == Compiled(ap, base, ops, n) && client.pending == Expected(client.sent)
        invariant Straight(client.written)
        invariant localOps == Locals(ops, n)
        invariant if res == SUCCESS
          then && Room(client.sent) <= client.cmd.buf.Length && Tail(client.written) == []
               && pollMask == MaskAt(ops, i) && pollValue == ValueAt(ops, i)
          else n < |ops| && Reached(client.cmd.buf.Length, ap, base, ops, n)
      {
        var local;
        res, pollMask, pollValue, local := CompileOne(ap, base, ops[i], pollMask, pollValue, ops, i);
        localOps := localOps + local;
        i := i + 1;
        n := if res == SUCCESS then i else i - 1;
      }
    }

    /** The call once its arguments are accepted.  `count` is what the caller's counter holds before it: it
        is only added to when nothing went on the wire. */
    method RunBatch(apNumber: nat, base: u64, ops: seq<Op>, count: nat,
                    server: CommandServer.CommandServer, scmd: CswpBuffer, srsp: CswpBuffer)
      returns (code: int, opsCompleted: nat, ghost n: nat)
      requires client.Valid() && client.batchMode == BATCH_NONE && server.Valid() && scmd.Valid() && srsp.Valid()
      requires {scmd, srsp} !! {client.cmd, client.hdr, client.rsp} && scmd != srsp
      requires {scmd.buf, srsp.buf} !! {client.cmd.buf, client.hdr.buf, client.rsp.buf} && scmd.buf != srsp.buf
      requires client.cmd.buf.Length <= scmd.buf.Length
        && 14 <= srsp.buf.Length <= client.rsp.buf.Length < 0x1_0000_0000
      modifies client, client.cmd, client.cmd.buf, client.hdr, client.hdr.buf, client.rsp, client.rsp.buf
      modifies server, scmd, scmd.buf, srsp, srsp.buf
      ensures client.Valid() && server.Valid() && client.batchMode == BATCH_NONE
      ensures
        && n <= |ops| && Reached(client.cmd.buf.Length, apNumber, base, ops, n)
        && client.sent == Compiled(apNumber, base, ops, n)
        && Straight(client.written)
        && (client.sent != [] ==>
              var (state, o) := Answered(server.impl, old(server.AsState()), |client.sent|, BATCH_ABORT,
                                         Glue(client.written), Expected(client.sent), srsp.buf.Length);
              && server.AsState() == state && opsCompleted == o.completed + Locals(ops, n)
              && code == if o.code == SUCCESS then SUCCESS else FAILED)
        && (client.sent != [] && code == SUCCESS ==>
              && opsCompleted + Unknowns(ops, n) == n
              && (opsCompleted == |ops| <==>
                    Room(Compiled(apNumber, base, ops, |ops|)) <= client.cmd.buf.Length && Unknowns(ops, |ops|) == 0))
        && (client.sent == [] ==>
              code == SUCCESS && opsCompleted == count + Locals(ops, n) && server.AsState() == old(server.AsState()))
        && (GoesThrough(server.impl, old(server.AsState()), client.sent, Tail(client.written), srsp.buf.Length) ==>
              var run := Direct(server.impl, old(server.AsState()), client.sent);
              && server.AsState() == run.state
              && opsCompleted == |run.replies| + Locals(ops, n)
              && (run.stop.None? <==> code == SUCCESS)
              && (code == SUCCESS || code == FAILED))
    {
      code := SUCCESS;
      hide Compiled, Body, Direct, Answered, Goes, GoesThrough, Seen, Straight, Glue, Tail, Reached, Expected, Room;
      hide Unknowns, Locals, SentOf, OnWire, Responses, Delivered;
      ghost var s := server.AsState();
      var localOps;
      localOps, n := CompileAll(apNumber, base, ops);
      ghost var written, cmds := client.written, client.sent;
      var o;
      o, opsCompleted := client.BatchEnd(server, scmd, srsp, count);
      opsCompleted := opsCompleted + localOps;
      if o.code != SUCCESS { code := FAILED; }
      HandledAll(client.cmd.buf.Length, apNumber, base, ops, n);
      AnsweredAll(server.impl, s, |cmds|, Glue(written), cmds, srsp.buf.Length);
      if GoesThrough(server.impl, s, cmds, Tail(written), srsp.buf.Length) {
        Outcomes(server.impl, s, written, srsp.buf.Length);
      }
    }

    method Run(apNumber: int, base: u64, ops: seq<Op>, count: nat,
               server: CommandServer.CommandServer, scmd: CswpBuffer, srsp: CswpBuffer)
      returns (code: int, opsCompleted: nat, ghost n: nat)
      requires client.Valid() && client.batchMode == BATCH_NONE && server.Valid() && scmd.Valid() && srsp.Valid()
      requires {scmd, srsp} !! {client.cmd, client.hdr, client.rsp} && scmd != srsp
      requires {scmd.buf, srsp.buf} !! {client.cmd.buf, client.hdr.buf, client.rsp.buf} && scmd.buf != srsp.buf
      requires client.cmd.buf.Length <= scmd.buf.Length
        && 14 <= srsp.buf.Length <= client.rsp.buf.Length < 0x1_0000_0000
      modifies client, client.cmd, client.cmd.buf, client.hdr, client.hdr.buf, client.rsp, client.rsp.buf
      modifies server, scmd, scmd.buf, srsp, srsp.buf
      ensures client.Valid() && server.Valid() && client.batchMode == BATCH_NONE
      ensures !connected ==> code == NOCONN && opsCompleted == count && server.AsState() == old(server.AsState())
      ensures connected && !(0 <= apNumber < aps) ==>
        code == BADARG && opsCompleted == count && server.AsState() == old(server.AsState())
      ensures connected && 0 <= apNumber < aps ==>
        && n <= |ops| && Reached(client.cmd.buf.Length, apNumber, base, ops, n)
        && client.sent == Compiled(apNumber, base, ops, n)
        && Straight(client.written)
        && (client.sent != [] ==>
              var (state, o) := Answered(server.impl, old(server.AsState()), |client.sent|, BATCH_ABORT,
                                         Glue(client.written), Expected(client.sent), srsp.buf.Length);
              && server.AsState() == state && opsCompleted == o.completed + Locals(ops, n)
              && code == if o.code == SUCCESS then SUCCESS else FAILED)
        && (client.sent != [] && code == SUCCESS ==>
              && opsCompleted + Unknowns(ops, n) == n
              && (opsCompleted == |ops| <==>
                    Room(Compiled(apNumber, base, ops, |ops|)) <= client.cmd.buf.Length && Unknowns(ops, |ops|) == 0))
        && (client.sent == [] ==>
              code == SUCCESS && opsCompleted == count + Locals(ops, n) && server.AsState() == old(server.AsState()))
        && (GoesThrough(server.impl, old(server.AsState()), client.sent, Tail(client.written), srsp.buf.Length) ==>
              var run := Direct(server.impl, old(server.AsState()), client.sent);
              && server.AsState() == run.state
              && opsCompleted == |run.replies| + Locals(ops, n)
              && (run.stop.None? <==> code == SUCCESS)
              && (code == SUCCESS || code == FAILED))
    {
      if !connected { return NOCONN, count, 0; }
      if apNumber < 0 || aps <= apNumber { return BADARG, count, 0; }
      hide Reached, Compiled, Straight, Answered, Glue, Expected, Locals, Unknowns, Room, GoesThrough, Tail, Direct;
      code, opsCompleted, n := RunBatch(apNumber, base, ops, count, server, scmd, srsp);
    }
  }

  lemma {:induction false} RoomGrows(ap: nat, base: u64, ops: seq<Op>, n: nat, m: nat)
    requires n <= m <= |ops|
    ensures Room(Compiled(ap, base, ops, n)) <= Room(Compiled(ap, base, ops, m))
    decreases m
  {
    if n == m {
    } else {
      hide Body, Meaning, Message, CommandFields, Compiled, OnWire;
      RoomGrows(ap, base, ops, n, m - 1);
      OneMore(ap, base, ops, m - 1);
      if OnWire(ops[m - 1]) { BodySnoc(Compiled(ap, base, ops, m - 1), Meaning(ap, base, ops, m - 1), []); }
    }
  }

  lemma {:induction false} NoneUnknown(ops: seq<Op>, n: nat, m: nat)
    requires n <= m <= |ops|
    ensures Unknowns(ops, n) <= Unknowns(ops, m)
    decreases m
  {
    if n == m {
    } else {
      NoneUnknown(ops, n, m - 1);
    }
  }

  /** All operations are handled exactly when the commands of all of them fit; and then all are counted,
      unless some are unknown. */
  lemma HandledAll(cap: nat, ap: nat, base: u64, ops: seq<Op>, n: nat)
    requires n <= |ops| && Reached(cap, ap, base, ops, n)
    ensures n == |ops| <==> Room(Compiled(ap, base, ops, |ops|)) <= cap
    ensures var counted := |Compiled(ap, base, ops, n)| + Locals(ops, n);
      && counted + Unknowns(ops, n) == n
      && (counted == |ops| <==> Room(Compiled(ap, base, ops, |ops|)) <= cap && Unknowns(ops, |ops|) == 0)
  {
    if n < |ops| { RoomGrows(ap, base, ops, n + 1, |ops|); }
    EveryOperation(ap, base, ops, n);
    hide Compiled, Room, Unknowns, Locals;
  }

  /** Whatever the answer, the client reports success only if every command was completed. */
  lemma AnsweredAll(impl: Impl, s: State, count: nat, body: seq<byte>, cmds: seq<Cmd>, cap: nat)
    ensures var o := Answered(impl, s, count, BATCH_ABORT, body, Expected(cmds), cap).1;
      o.code == SUCCESS ==> o.completed == |cmds|
  {
    hide Serve, Receive, Frame, Expected;
    ExpectedLength(cmds);
    var served := Serve(impl, s, Frame(count, BATCH_ABORT, body), cap);
    if served.rsp.Some? { ReceivedAll(count, Expected(cmds), served.rsp.value); }
  }

  lemma ReceivedAll(count: nat, ps: seq<Pending>, rsp: seq<byte>)
    ensures var o := Receive(count, ps, rsp); o.code == SUCCESS ==> o.completed == |ps|
  {
    hide Receive, Answers;
    var _ := ReceivedRun(count, ps, rsp);
  }

  lemma {:induction false} ExpectedLength(cmds: seq<Cmd>)
    ensures |Expected(cmds)| == |cmds|
  {
    hide TypeOf;
    if cmds == [] {
    } else {
      ExpectedLength(cmds[..|cmds| - 1]);
    }
  }

  // ------------------------------------------------------- a failing input

  const ONE_READ := Op(READ, false, 0, ACC_8, 0, 1, 0, [])
  const ONE_BYTE := MemRead(0, 0, 1, 1, 0)

  /** Two reads of one byte, and a buffer with room for the first: the second is not sent, the answer to the
      first completes it, and the call reports success with one of two operations done. */
  lemma OnlyTheFirstFits(impl: Impl, s: State, junk: seq<byte>)
    requires Exec(impl, s, ONE_BYTE).1.Ok? && |junk| < 100
    ensures var ops := [ONE_READ, ONE_READ];
      var cmds := Compiled(0, 0, ops, 1);
      var o := Answered(impl, s, |cmds|, BATCH_ABORT, Body(cmds, junk), Expected(cmds), 32).1;
      && Reached(40, 0, 0, ops, 1) && cmds != []
      && o.code == SUCCESS && o.completed + Locals(ops, 1) == 1 < |ops|
  {
    TwoReads();
    OneReadSize();
    hide Compiled, Answered, Body, Message, CommandFields, Exec, Expected, Meaning, Locals;
    BodySnoc([ONE_BYTE], ONE_BYTE, []);
    ReadBody([]);
    ReadAnswered(impl, s, junk);
  }

  lemma TwoReads()
    ensures var ops := [ONE_READ, ONE_READ];
      && Compiled(0, 0, ops, 1) == [ONE_BYTE] && Compiled(0, 0, ops, 2) == [ONE_BYTE] + [ONE_BYTE]
      && OnWire(ops[1]) && Locals(ops, 1) == 0
  {
    var ops := [ONE_READ, ONE_READ];
    ReadMeaning(ops, 0);
    ReadMeaning(ops, 1);
    hide Meaning;
    NothingYet(0, 0, ops);
    OneMore(0, 0, ops, 0);
    OneMore(0, 0, ops, 1);
    assert [] + [ONE_BYTE] == [ONE_BYTE];
  }

  lemma ReadMeaning(ops: seq<Op>, i: nat)
    requires i < |ops| && ops[i] == ONE_READ
    ensures Meaning(0, 0, ops, i) == ONE_BYTE
  {
    NoFlags();
    hide MapFlags, Le, Payload, MaskAt, ValueAt, AccessBytes;
    assert Low64(0) == 0;
    hide Low64;
  }

  lemma NoFlags()
    ensures MapFlags(0) == 0
  {
    assert Incr(0) == 0 && Prot(0) == 0;
    assert Mode(0) == 0 && Kind(0) == 0 && Err(0) == 0;
  }

  lemma OneReadSize()
    ensures |Message(CommandFields(ONE_BYTE), [])| == 14
  {
    LeLength(0, 8);
    assert |Varint(0)| == 1 && |Varint(1)| == 1 && |Varint(MEM_READ)| == 2;
    hide Varint, Le;
    assert |Message(Put(V(1), Put(V(1), Put(V(0), Done))), [])| == 3;
    assert |Message(TargetFields(Target(0, 0, 1, 1, 0), Done), [])| == 12;
  }

  lemma ReadBody(junk: seq<byte>)
    ensures |Body([ONE_BYTE], junk)| == 14 + |junk|
  {
    OneReadSize();
    MessageRest(CommandFields(ONE_BYTE), junk);
    assert [ONE_BYTE][1..] == [] && [ONE_BYTE][0] == ONE_BYTE;
    hide Message, CommandFields;
    assert Body([], junk) == junk;
  }

  /** One command that succeeds. */
  lemma DirectOne(impl: Impl, s: State, c: Cmd)
    requires Exec(impl, s, c).1.Ok?
    ensures var (s', r) := Exec(impl, s, c);
      && Direct(impl, s, [c]) == Batch.Run(s', [r.resp], None)
      && Responses(impl, s, [c], []) == Message(OkFields(TypeOf(c), r.resp), [])
  {
    hide Exec, Message, OkFields, TypeOf;
    var (s', r) := Exec(impl, s, c);
    assert [c][1..] == [] && [c][0] == c;
    assert Direct(impl, s', []) == Batch.Run(s', [], None);
    assert Responses(impl, s', [], []) == [];
    assert [r.resp] + [] == [r.resp];
  }

  lemma ReadDelivered(impl: Impl, s: State, junk: seq<byte>)
    requires Exec(impl, s, ONE_BYTE).1.Ok? && |junk| < 100
    ensures var run := Direct(impl, s, [ONE_BYTE]);
      && run.stop.None? && |run.replies| == 1
      && Delivered([ONE_BYTE], run, Responses(impl, s, [ONE_BYTE], []), junk, BATCH_ABORT, 32)
      && Expecting(Expected([ONE_BYTE]), [ONE_BYTE], run)
  {
    var resp := Exec(impl, s, ONE_BYTE).1.resp;
    assert resp.RData? && |resp.data| == 1;
    ReadReplySize(resp);
    ReadBody(junk);
    ReadFrame(Body([ONE_BYTE], junk));
    DirectOne(impl, s, ONE_BYTE);
    ExpectedAt([ONE_BYTE], 0);
    hide Exec, Message, OkFields, Body, Direct, Responses, Frame, Opening, Expected, CommandFields;
  }

  lemma ReadAnswered(impl: Impl, s: State, junk: seq<byte>)
    requires Exec(impl, s, ONE_BYTE).1.Ok? && |junk| < 100
    ensures var o := Answered(impl, s, 1, BATCH_ABORT, Body([ONE_BYTE], junk), Expected([ONE_BYTE]), 32).1;
      o.code == SUCCESS && o.completed == 1
  {
    hide Exec, Body, Direct, Responses, Expected, Delivered, Expecting, Answered;
    ReadDelivered(impl, s, junk);
    var cmds := [ONE_BYTE];
    AnsweredInFull(impl, s, cmds, Expected(cmds), junk, 32);
  }

  lemma AnsweredInFull(impl: Impl, s: State, cmds: seq<Cmd>, ps: seq<Pending>, junk: seq<byte>, cap: nat)
    requires var run := Direct(impl, s, cmds);
      && run.stop.None? && |run.replies| == |cmds|
      && Delivered(cmds, run, Responses(impl, s, cmds, []), junk, BATCH_ABORT, cap) && Expecting(ps, cmds, run)
    ensures var o := Answered(impl, s, |cmds|, BATCH_ABORT, Body(cmds, junk), ps, cap).1;
      o.code == SUCCESS && o.completed == |cmds|
  {
    hide Body, Direct, Responses, Frame, Serve, Receive, Delivered, Expecting, Answered;
    BatchRefinement(impl, s, cmds, ps, BATCH_ABORT, junk, cap);
    AnsweredIs(impl, s, |cmds|, BATCH_ABORT, Body(cmds, junk), ps, cap);
  }

  lemma AnsweredIs(impl: Impl, s: State, count: nat, mode: byte, body: seq<byte>, ps: seq<Pending>, cap: nat)
    ensures var served := Serve(impl, s, Frame(count, mode, body), cap);
      served.rsp.Some? ==>
        Answered(impl, s, count, mode, body, ps, cap) == (served.state, Receive(count, ps, served.rsp.value))
  {
    hide Serve, Receive, Frame;
  }

  lemma ReadFrame(body: seq<byte>)
    requires |body| < 200
    ensures |Frame(1, BATCH_ABORT, body)| < 300
  {
    assert |Varint(1)| == 1;
    hide Varint, Le;
    LeLength(4 + |Varint(1) + [BATCH_ABORT] + body|, 4);
  }

  lemma ReadReplySize(r: Resp)
    requires r.RData? && |r.data| == 1
    ensures |Message(OkFields(MEM_READ, r), [])| == 5 && |Opening(1)| == 5
  {
    assert |Varint(MEM_READ)| == 2 && |Varint(SUCCESS)| == 1 && |Varint(1)| == 1;
    hide Varint;
    assert Message(Put(Blob(r.data), Done), []) == r.data + [];
    assert |Message(Put(V(1), Put(Blob(r.data), Done)), [])| == 2;
    assert RespFields(r) == Put(V(1), Put(Blob(r.data), Done));
  }

  lemma {:induction false} StopIsError(impl: Impl, s: State, cmds: seq<Cmd>)
    ensures var run := Direct(impl, s, cmds);
      run.stop.Some? && run.stop.value.Refused? ==> run.stop.value.code != SUCCESS
    decreases |cmds|
  {
    hide Exec;
    if cmds == [] {
    } else {
      RefusalsAreErrors(impl, s, cmds[0]);
      StopIsError(impl, Exec(impl, s, cmds[0]).0, cmds[1..]);
    }
  }

  /** A batch that gets through is reported as a success exactly when no command was refused. */
  lemma Outcomes(impl: Impl, s: State, written: seq<Piece>, cap: nat)
    requires Straight(written) && GoesThrough(impl, s, SentOf(written), Tail(written), cap)
    ensures var cmds := SentOf(written);
      var run := Direct(impl, s, cmds);
      && Goes(impl, s, written, Expected(cmds), BATCH_ABORT, cap)
      && cmds != [] && (run.stop.Some? ==> run.stop.value.Refused? && |run.replies| < |cmds|)
      && (run.stop.None? <==> Seen(cmds, run).code == SUCCESS)
      && (run.stop.None? ==> |run.replies| == |cmds|)
  {
    RunLength(impl, s, SentOf(written));
    StopIsError(impl, s, SentOf(written));
    hide Direct, Responses, Frame, Portable, Body, SentOf, Tail, Straight, Expecting;
  }
}
