/**
  The CSWP wire encodings (cswp/cswp_buffer.c) on byte sequences: base-128
  varints, little-endian words, strings and blobs.  A parser takes the bytes
  that are still unread and returns what is left of them; `Buffer` shows that
  the in-place code computes exactly these functions.
 */
module Wire {

  type byte = x: int | 0 <= x < 0x100
  type u32 = x: int | 0 <= x < 0x1_0000_0000
  type u64 = x: int | 0 <= x < 0x1_0000_0000_0000_0000

  // A C string, without its terminator.
  type CString = s: seq<byte> | 0 !in s

  // Result codes (cswp_types.h)
  const SUCCESS := 0x0000
  const CANCELLED := 0x0002
  const BUFFER_FULL := 0x0010
  const BUFFER_EMPTY := 0x0011
  const OUTPUT_OVERFLOW := 0x0012
  const COMMS := 0x0020
  const UNSUPPORTED := 0x0023
  const INVALID_DEVICE := 0x0025

  // Not a code of the protocol: the C code has no defined result here.
  const UNDEFINED := -1

  // The first value that a varint cannot carry to the other side.
  const VARINT_LIMIT := 0x8000_0000

  type ErrorCode = c: int | c != SUCCESS witness -1

  /** What a decoder returns: a value and the bytes left, or a code and the bytes left. */
  datatype Parsed<+T> = Got(value: T, rest: seq<byte>) | Bad(code: ErrorCode, rest: seq<byte>) {
    predicate IsFailure() {
      Bad?
    }

    function PropagateFailure<U>(): Parsed<U>
      requires Bad?
    {
      Bad(code, rest)
    }

    function Extract(): (T, seq<byte>)
      requires Got?
    {
      (value, rest)
    }
  }

  // ---------------------------------------------------------------- varints

  function Varint(v: nat): seq<byte> {
    if v > 0x7F then [0x80 + v % 0x80] + Varint(v / 0x80) else [v]
  }

  function Pow128(n: nat): nat {
    if n == 0 then 1 else 0x80 * Pow128(n - 1)
  }

  lemma {:induction false} VarintFits(v: nat, n: nat)
    requires n > 0 && v < Pow128(n)
    ensures 1 <= |Varint(v)| <= n
  {
    if v <= 0x7F {
    } else {
      assert v / 0x80 < Pow128(n - 1);
      VarintFits(v / 0x80, n - 1);
    }
  }

  /** The ten bytes that the client reserves for a command count are enough for any 64-bit value. */
  lemma VarintSize(v: u64)
    ensures 1 <= |Varint(v)| <= 10
  {
    assert Pow128(2) == 0x4000;
    assert Pow128(4) == 0x1000_0000;
    assert Pow128(6) == 0x400_0000_0000;
    assert Pow128(8) == 0x100_0000_0000_0000;
    VarintFits(v, 10);
  }

  lemma VarintNonEmpty(v: nat)
    ensures |Varint(v)| >= 1
  {
  }

  /** The shift counts reached by the decoding loop that a 32-bit int can be shifted by. */
  predicate ShiftCount(s: nat) {
    s == 0 || s == 7 || s == 14 || s == 21 || s == 28
  }

  /** `x << s`, before any wrap-around. */
  function Shifted(x: nat, s: nat): nat
    requires ShiftCount(s)
  {
    if s == 0 then x
    else if s == 7 then 0x80 * x
    else if s == 14 then 0x4000 * x
    else if s == 21 then 0x20_0000 * x
    else 0x1000_0000 * x
  }

  /** `(b & 0x7F) << s` on a 32-bit int, widened to 64 bits: the sign bit is copied upwards. */
  function ShiftedInt(low: nat, s: nat): nat
    requires low < 0x80 && ShiftCount(s)
  {
    if s < 28 then Shifted(low, s)
    else
      var x := 0x1000_0000 * (low % 0x10);
      if x < 0x8000_0000 then x else x + 0xFFFF_FFFF_0000_0000
  }

  /** cswp_buffer_get_varint from shift count `s` on: a count past 31 has no defined result. */
  function VarintFrom(b: seq<byte>, acc: nat, s: nat): Parsed<nat> {
    if b == [] then Bad(BUFFER_EMPTY, b)
    else if !ShiftCount(s) then Bad(UNDEFINED, b[1..])
    else
      var v := acc + ShiftedInt(b[0] % 0x80, s);
      if b[0] < 0x80 then Got(v, b[1..]) else VarintFrom(b[1..], v, s + 7)
  }

  function ParseVarint(b: seq<byte>): Parsed<nat> {
    VarintFrom(b, 0, 0)
  }

  /** The decoder has no defined result exactly when a sixth byte follows five that all say that more
      follow; it fails otherwise only where the bytes end. */
  lemma VarintUndefined(b: seq<byte>)
    ensures var r := ParseVarint(b);
      && (r.Bad? && r.code == UNDEFINED <==> |b| >= 6 && forall i :: 0 <= i < 5 ==> b[i] >= 0x80)
      && (r.Bad? ==> r.code == UNDEFINED || r.code == BUFFER_EMPTY)
  {
    VarintFromUndefined(b, 0, 0, 5);
  }

  lemma {:induction false} VarintFromUndefined(b: seq<byte>, acc: nat, s: nat, left: nat)
    requires s == 35 - 7 * left && left <= 5
    ensures var r := VarintFrom(b, acc, s);
      && (r.Bad? && r.code == UNDEFINED <==> |b| > left && forall i :: 0 <= i < left ==> b[i] >= 0x80)
      && (r.Bad? ==> r.code == UNDEFINED || r.code == BUFFER_EMPTY)
    decreases left
  {
    if b == [] || left == 0 {
    } else {
      VarintFromUndefined(b[1..], acc + ShiftedInt(b[0] % 0x80, s), s + 7, left - 1);
      assert forall i :: 0 < i < |b| ==> b[i] == b[1..][i - 1];
      assert forall i :: 0 <= i < |b| - 1 ==> b[1..][i] == b[i + 1];
    }
  }

  /** What one turn of the loop takes off an encoded value, and what it leaves. */
  lemma ShiftSplit(high: nat, low: nat, s: nat)
    requires low < 0x80 && ShiftCount(s)
    ensures s < 28 ==> Shifted(0x80 * high + low, s) == Shifted(low, s) + Shifted(high, s + 7)
    ensures Shifted(0x80 * high + low, s) < VARINT_LIMIT ==>
      ShiftedInt(low, s) == Shifted(low, s) && (s == 28 ==> high == 0)
    ensures Shifted(0x80 * high + low, s) >= VARINT_LIMIT && s < 28 ==> Shifted(high, s + 7) >= VARINT_LIMIT
  {
  }

  lemma {:induction false} VarintFromExact(v: nat, rest: seq<byte>, acc: nat, s: nat)
    requires ShiftCount(s) && Shifted(v, s) < VARINT_LIMIT
    ensures VarintFrom(Varint(v) + rest, acc, s) == Got(acc + Shifted(v, s), rest)
    decreases v
  {
    var b := Varint(v) + rest;
    var high, low := v / 0x80, v % 0x80;
    ShiftSplit(high, low, s);
    assert v == 0x80 * high + low;
    if v <= 0x7F {
      assert b[1..] == rest;
    } else {
      assert b[1..] == Varint(v / 0x80) + rest;
      VarintFromExact(high, rest, acc + Shifted(low, s), s + 7);
    }
  }

  lemma {:induction false} VarintFromLossy(v: nat, rest: seq<byte>, acc: nat, s: nat)
    requires ShiftCount(s) && acc < Shifted(1, s) && Shifted(v, s) >= VARINT_LIMIT
    ensures var r := VarintFrom(Varint(v) + rest, acc, s);
      r.Got? ==> r.value != acc + Shifted(v, s)
    decreases v
  {
    var b := Varint(v) + rest;
    var high, low := v / 0x80, v % 0x80;
    ShiftSplit(high, low, s);
    assert v == 0x80 * high + low;
    if v <= 0x7F {
    } else {
      assert b[1..] == Varint(v / 0x80) + rest;
      VarintNonEmpty(v / 0x80);
      if s < 28 {
        VarintFromLossy(high, rest, acc + Shifted(low, s), s + 7);
      }
    }
  }

  /** Decoding an encoded varint gives it back, and stops at the next field, exactly below 2^31. */
  lemma VarintRoundTrip(v: nat, rest: seq<byte>)
    ensures ParseVarint(Varint(v) + rest) == Got(v, rest) <==> v < VARINT_LIMIT
  {
    if v < VARINT_LIMIT {
      VarintFromExact(v, rest, 0, 0);
    } else {
      VarintFromLossy(v, rest, 0, 0);
    }
  }

  // ------------------------------------------------- words, strings, blobs

  function Le(v: nat, n: nat): seq<byte> {
    if n == 0 then [] else [v % 0x100] + Le(v / 0x100, n - 1)
  }

  function FromLe(b: seq<byte>): nat {
    if b == [] then 0 else b[0] + 0x100 * FromLe(b[1..])
  }

  function Pow256(n: nat): nat {
    if n == 0 then 1 else 0x100 * Pow256(n - 1)
  }

  lemma {:induction false} FromLeSnoc(b: seq<byte>, x: byte)
    ensures FromLe(b + [x]) == FromLe(b) + Pow256(|b|) * x
  {
    if b == [] {
      assert FromLe([x]) == x + 0x100 * FromLe([]);
    } else {
      var p := Pow256(|b| - 1);
      assert (b + [x])[1..] == b[1..] + [x];
      FromLeSnoc(b[1..], x);
      assert 0x100 * (p * x) == (0x100 * p) * x;
    }
  }

  lemma {:induction false} LeRoundTrip(v: nat, n: nat)
    requires v < Pow256(n)
    ensures |Le(v, n)| == n && FromLe(Le(v, n)) == v
  {
    if n == 0 {
    } else {
      assert v / 0x100 < Pow256(n - 1);
      LeRoundTrip(v / 0x100, n - 1);
      assert Le(v, n)[1..] == Le(v / 0x100, n - 1);
    }
  }

  lemma {:induction false} LeLength(v: nat, n: nat)
    ensures |Le(v, n)| == n
  {
    if n == 0 {
    } else {
      LeLength(v / 0x100, n - 1);
    }
  }

  /** The four shifts by which a length is written into a header. */
  lemma LeFour(v: nat)
    ensures Le(v, 4) == [v % 0x100, v / 0x100 % 0x100, v / 0x1_0000 % 0x100, v / 0x100_0000 % 0x100]
  {
    var a := v / 0x100;
    var b := a / 0x100;
    assert b == v / 0x1_0000;
    assert b / 0x100 == v / 0x100_0000;
    assert Le(b, 2) == [b % 0x100] + Le(b / 0x100, 1);
  }

  lemma Pow256Values()
    ensures Pow256(4) == 0x1_0000_0000 && Pow256(8) == 0x1_0000_0000_0000_0000
  {
    assert Pow256(2) == 0x1_0000;
    assert Pow256(4) == 0x1_0000_0000;
    assert Pow256(6) == 0x1_0000_0000_0000;
  }

  function ParseWord(b: seq<byte>, n: nat): Parsed<nat> {
    if |b| < n then Bad(BUFFER_EMPTY, b) else Got(FromLe(b[..n]), b[n..])
  }

  function ParseData(b: seq<byte>, n: nat): Parsed<seq<byte>> {
    if |b| < n then Bad(BUFFER_EMPTY, b) else Got(b[..n], b[n..])
  }

  /** The C string held in a byte array that ends in a terminator. */
  function Terminated(b: seq<byte>): CString {
    if b == [] || b[0] == 0 then [] else [b[0]] + Terminated(b[1..])
  }

  lemma {:induction false} TerminatedIdentity(s: CString)
    ensures Terminated(s) == s
  {
    if s == [] {
    } else {
      assert s == [s[0]] + s[1..];
      TerminatedIdentity(s[1..]);
    }
  }

  /** cswp_buffer_get_string into a buffer of `size` bytes: one is kept for the terminator. */
  function ParseString(b: seq<byte>, size: nat): Parsed<CString> {
    var (len, r) :- ParseVarint(b);
    if |r| < len then Bad(BUFFER_EMPTY, r)
    else if len >= size then Bad(OUTPUT_OVERFLOW, r)
    else Got(Terminated(r[..len]), r[len..])
  }

  // ------------------------------------------------------ fields of a message

  /** One checked `cswp_buffer_put_*` call. */
  datatype Field =
    | V(v: nat)
    | W32(w: u32)
    | W64(d: u64)
    | Str(s: CString)
    | Blob(b: seq<byte>)

  /** The sequence of puts made by one encoder. */
  datatype Fields = Done | Put(f: Field, next: Fields)

  function Bytes(f: Field): seq<byte> {
    match f
    case V(v) => Varint(v)
    case W32(w) => Le(w, 4)
    case W64(d) => Le(d, 8)
    case Str(s) => Varint(|s|) + s
    case Blob(b) => b
  }

  function Message(fs: Fields, rest: seq<byte>): seq<byte> {
    match fs
    case Done => rest
    case Put(f, next) => Bytes(f) + Message(next, rest)
  }

  lemma {:induction false} MessageRest(fs: Fields, rest: seq<byte>)
    ensures Message(fs, rest) == Message(fs, []) + rest
  {
    match fs
    case Done =>
    case Put(f, next) => MessageRest(next, rest);
  }

  lemma StringRoundTrip(s: CString, rest: seq<byte>, size: nat)
    requires |s| < VARINT_LIMIT
    ensures ParseString(Bytes(Str(s)) + rest, size)
         == if |s| < size then Got(s, rest) else Bad(OUTPUT_OVERFLOW, s + rest)
  {
    var b := Bytes(Str(s)) + rest;
    assert b == Varint(|s|) + (s + rest);
    VarintRoundTrip(|s|, s + rest);
    assert (s + rest)[..|s|] == s && (s + rest)[|s|..] == rest;
    TerminatedIdentity(s);
  }

  lemma WordRoundTrip(v: nat, n: nat, rest: seq<byte>)
    requires v < Pow256(n)
    ensures ParseWord(Le(v, n) + rest, n) == Got(v, rest)
  {
    LeRoundTrip(v, n);
    assert (Le(v, n) + rest)[..n] == Le(v, n) && (Le(v, n) + rest)[n..] == rest;
  }

  // Reading the first field of a message.

  lemma TakeV(v: nat, next: Fields, rest: seq<byte>)
    requires v < VARINT_LIMIT
    ensures ParseVarint(Message(Put(V(v), next), rest)) == Got(v, Message(next, rest))
  {
    VarintRoundTrip(v, Message(next, rest));
  }

  lemma TakeW32(w: u32, next: Fields, rest: seq<byte>)
    ensures ParseWord(Message(Put(W32(w), next), rest), 4) == Got(w, Message(next, rest))
  {
    Pow256Values();
    WordRoundTrip(w, 4, Message(next, rest));
  }

  lemma TakeW64(d: u64, next: Fields, rest: seq<byte>)
    ensures ParseWord(Message(Put(W64(d), next), rest), 8) == Got(d, Message(next, rest))
  {
    Pow256Values();
    WordRoundTrip(d, 8, Message(next, rest));
  }

  lemma TakeStr(s: CString, size: nat, next: Fields, rest: seq<byte>)
    requires |s| < size && |s| < VARINT_LIMIT
    ensures ParseString(Message(Put(Str(s), next), rest), size) == Got(s, Message(next, rest))
  {
    StringRoundTrip(s, Message(next, rest), size);
  }

  lemma TakeBlob(b: seq<byte>, next: Fields, rest: seq<byte>)
    ensures ParseData(Message(Put(Blob(b), next), rest), |b|) == Got(b, Message(next, rest))
  {
    var r := Message(next, rest);
    assert (b + r)[..|b|] == b && (b + r)[|b|..] == r;
  }
}
