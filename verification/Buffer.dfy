/**
  CSWP_BUFFER (cswp/cswp_buffer.c): a fixed array with a fill mark and a cursor.
  Every put and get is shown to do to the array what `Wire` says on sequences.
 */
module Buffer {
  import opened Wire

  /** The bytes a writer holds after a put, and the code it returned. */
  datatype Outcome = Outcome(data: seq<byte>, code: int)

  /** One put into a buffer of `cap` bytes holding `data`.  A string whose length fits but
      whose text does not leaves the length behind. */
  function PutOne(data: seq<byte>, cap: nat, f: Field): Outcome {
    if f.Str? then
      var len := Varint(|f.s|);
      if cap < |data| + |len| then Outcome(data, BUFFER_FULL)
      else if cap < |data| + |len| + |f.s| then Outcome(data + len, BUFFER_FULL)
      else Outcome(data + len + f.s, SUCCESS)
    else if cap < |data| + |Bytes(f)| then Outcome(data, BUFFER_FULL)
    else Outcome(data + Bytes(f), SUCCESS)
  }

  /** A straight-line encoder: puts until one fails. */
  function PutAll(data: seq<byte>, cap: nat, fs: Fields): Outcome
    decreases fs
  {
    match fs
    case Done => Outcome(data, SUCCESS)
    case Put(f, next) =>
      var o := PutOne(data, cap, f);
      if o.code != SUCCESS then o else PutAll(o.data, cap, next)
  }

  lemma PutOneExact(data: seq<byte>, cap: nat, f: Field) returns (piece: seq<byte>)
    requires |data| <= cap
    ensures var o := PutOne(data, cap, f);
      && o.data == data + piece && |o.data| <= cap && piece <= Bytes(f)
      && (o.code == SUCCESS <==> |data| + |Bytes(f)| <= cap)
      && (if o.code == SUCCESS then piece == Bytes(f) else o.code == BUFFER_FULL && piece < Bytes(f))
  {
    var o := PutOne(data, cap, f);
    if o.code == SUCCESS {
      piece := Bytes(f);
      assert f.Str? ==> data + Varint(|f.s|) + f.s == data + (Varint(|f.s|) + f.s);
    } else if f.Str? && |o.data| > |data| {
      piece := Varint(|f.s|);
    } else {
      piece := [];
      VarintNonEmpty(if f.Str? then |f.s| else 0);
      assert data + [] == data;
    }
  }

  /** An encoder succeeds exactly when its whole message fits, appends exactly that message, and
      otherwise leaves a proper prefix of it behind what was there. */
  lemma {:induction false} PutAllExact(data: seq<byte>, cap: nat, fs: Fields) returns (piece: seq<byte>)
    requires |data| <= cap
    ensures var o := PutAll(data, cap, fs);
      && o.data == data + piece && |o.data| <= cap && piece <= Message(fs, [])
      && (o.code == SUCCESS <==> |data| + |Message(fs, [])| <= cap)
      && (if o.code == SUCCESS then piece == Message(fs, []) else o.code == BUFFER_FULL && piece < Message(fs, []))
    decreases fs
  {
    hide PutOne, Bytes;
    match fs
    case Done =>
      piece := [];
      assert data + [] == data;
    case Put(f, next) =>
      piece := PutOneExact(data, cap, f);
      var o := PutOne(data, cap, f);
      if o.code == SUCCESS {
        var more := PutAllExact(o.data, cap, next);
        assert data + Bytes(f) + more == data + (Bytes(f) + more);
        piece := Bytes(f) + more;
      } else {
        assert piece < Bytes(f) + Message(next, []);
      }
  }

  lemma NoWord()
    ensures FromLe([]) == 0
  {}

  class CswpBuffer {
    const buf: array<byte>
    var used: nat
    var pos: nat

    ghost predicate Valid()
      reads this
    {
      pos <= used <= buf.Length
    }

    /** The state in which the C code writes: the cursor is at the fill mark. */
    ghost predicate Writing()
      reads this
    {
      Valid() && pos == used
    }

    ghost function Contents(): seq<byte>
      requires Valid()
      reads this, buf
    {
      buf[..used]
    }

    function Unread(): seq<byte>
      requires Valid()
      reads this, buf
    {
      buf[pos..used]
    }

    constructor (size: nat)
      ensures Writing() && Contents() == [] && buf.Length == size && fresh(buf)
    {
      buf := new byte[size](_ => 0);
      used, pos := 0, 0;
    }

    method Clear()
      modifies this
      ensures Writing() && Contents() == []
    {
      used := 0;
      pos := 0;
    }

    /** Starts writing behind `n` bytes that are left to be filled in later. */
    method Reserve(n: nat)
      requires n <= buf.Length
      modifies this
      ensures Writing() && used == n
    {
      pos := n;
      used := n;
    }

    /** A message that a transport has placed in the buffer. */
    method Load(data: seq<byte>)
      requires |data| <= buf.Length
      modifies this, buf
      ensures Valid() && pos == 0 && Contents() == data && Unread() == data
    {
      used, pos := 0, 0;
      var _ := PutBytes(data);
      pos := 0;
    }

    method Seek(p: nat)
      requires Valid() && p <= used
      modifies this`pos
      ensures Valid() && pos == p
    {
      pos := p;
    }

    method PutByte(b: byte)
      requires pos < buf.Length
      modifies this`pos, buf
      ensures pos == old(pos) + 1 && buf[..pos] == old(buf[..pos]) + [b]
    {
      buf[pos] := b;
      pos := pos + 1;
    }

    method PutBytes(data: seq<byte>) returns (res: int)
      requires Writing()
      modifies this, buf
      ensures Writing() && Outcome(Contents(), res) == PutOne(old(Contents()), buf.Length, Blob(data))
    {
      if buf.Length - used < |data| {
        return BUFFER_FULL;
      }
      for i := 0 to |data|
        invariant used == old(used) && pos == used + i <= buf.Length
        invariant buf[..pos] == old(Contents()) + data[..i]
      {
        PutByte(data[i]);
        assert data[..i + 1] == data[..i] + [data[i]];
      }
      assert data[..|data|] == data;
      used := pos;
      return SUCCESS;
    }

    method PutVarint(val: nat) returns (res: int)
      requires Writing()
      modifies this, buf
      ensures Writing() && Outcome(Contents(), res) == PutOne(old(Contents()), buf.Length, V(val))
    {
      var rq := 1;
      var tmp := val;
      while tmp > 0x7F
        invariant rq - 1 + |Varint(tmp)| == |Varint(val)|
      {
        tmp := tmp / 0x80;
        rq := rq + 1;
      }
      if buf.Length - used < rq {
        return BUFFER_FULL;
      }
      var v := val;
      while v > 0x7F
        invariant used == old(used) <= pos && pos + |Varint(v)| == used + rq <= buf.Length
        invariant buf[..pos] + Varint(v) == old(Contents()) + Varint(val)
      {
        ghost var before := buf[..pos];
        assert before + Varint(v) == before + [0x80 + v % 0x80] + Varint(v / 0x80);
        PutByte(0x80 + v % 0x80);
        v := v / 0x80;
      }
      PutByte(v);
      used := pos;
      return SUCCESS;
    }

    /** cswp_buffer_put_uint32 and cswp_buffer_put_uint64: `n` bytes, the lowest first. */
    method PutWord(val: nat, n: nat) returns (res: int)
      requires Writing()
      modifies this, buf
      ensures Writing() && Outcome(Contents(), res) == PutOne(old(Contents()), buf.Length, Blob(Le(val, n)))
    {
      LeLength(val, n);
      if buf.Length - used < n {
        return BUFFER_FULL;
      }
      var v: nat, left: nat := val, n;
      while left > 0
        invariant left <= n && used == old(used) && pos == used + (n - left) <= buf.Length
        invariant buf[..pos] + Le(v, left) == old(Contents()) + Le(val, n)
      {
        ghost var before := buf[..pos];
        assert before + Le(v, left) == before + [v % 0x100] + Le(v / 0x100, left - 1);
        PutByte(v % 0x100);
        v, left := v / 0x100, left - 1;
      }
      used := pos;
      return SUCCESS;
    }

    /** Writes into bytes that are already there, wherever the cursor is. */
    method Overwrite(at: nat, data: seq<byte>)
      requires at + |data| <= buf.Length
      modifies buf
      ensures buf[..at] == old(buf[..at]) && buf[at..at + |data|] == data
      ensures buf[at + |data|..] == old(buf[at + |data|..])
    {
      for i := 0 to |data|
        invariant buf[..at] == old(buf[..at]) && buf[at..at + i] == data[..i]
        invariant buf[at + |data|..] == old(buf[at + |data|..])
      {
        buf[at + i] := data[i];
        assert buf[at..at + i + 1] == buf[at..at + i] + [data[i]];
      }
    }

    method Inject(at: nat, data: seq<byte>)
      requires Valid() && at + |data| <= used
      modifies buf
      ensures Contents() == old(Contents()[..at]) + data + old(Contents()[at + |data|..])
    {
      Overwrite(at, data);
      assert Contents()[..at] == buf[..at];
      assert Contents()[at..at + |data|] == buf[at..at + |data|];
      assert Contents()[at + |data|..] == buf[at + |data|..][..used - at - |data|];
    }

    /** Overwrites the first four bytes with a length, wherever the cursor is. */
    method PatchLength(val: u32)
      requires Valid() && used >= 4
      modifies buf
      ensures Contents() == Le(val, 4) + old(Contents())[4..]
    {
      buf[0] := val % 0x100;
      buf[1] := val / 0x100 % 0x100;
      buf[2] := val / 0x1_0000 % 0x100;
      buf[3] := val / 0x100_0000 % 0x100;
      LeFour(val);
    }

    method PutString(s: CString) returns (res: int)
      requires Writing()
      modifies this, buf
      ensures Writing() && Outcome(Contents(), res) == PutOne(old(Contents()), buf.Length, Str(s))
    {
      res := PutVarint(|s|);
      if res != SUCCESS {
        return;
      }
      ghost var mid := Contents();
      res := PutBytes(s);
      assert Varint(|s|) + s == Bytes(Str(s));
    }

    method PutField(f: Field) returns (res: int)
      requires Writing()
      modifies this, buf
      ensures Writing() && Outcome(Contents(), res) == PutOne(old(Contents()), buf.Length, f)
    {
      match f
      case V(v) => res := PutVarint(v);
      case W32(w) => res := PutWord(w, 4);
      case W64(d) => res := PutWord(d, 8);
      case Str(s) => res := PutString(s);
      case Blob(b) => res := PutBytes(b);
    }

    /** The body of an encoder: `__CSWP_CHECK` around each put. */
    method PutFields(fs: Fields) returns (res: int)
      requires Writing()
      modifies this, buf
      ensures Writing() && Outcome(Contents(), res) == PutAll(old(Contents()), buf.Length, fs)
      ensures used >= old(used)
    {
      var todo := fs;
      res := SUCCESS;
      while todo.Put?
        invariant Writing() && used >= old(used)
        invariant res == SUCCESS && PutAll(Contents(), buf.Length, todo) == PutAll(old(Contents()), buf.Length, fs)
        decreases todo
      {
        res := PutField(todo.f);
        if res != SUCCESS {
          return;
        }
        todo := todo.next;
      }
    }

    method GetVarint() returns (r: Parsed<nat>)
      requires Valid()
      modifies this`pos
      ensures Valid() && r == ParseVarint(old(Unread())) && r.rest == Unread()
    {
      var v: nat, s: nat := 0, 0;
      while true
        invariant Valid()
        invariant VarintFrom(Unread(), v, s) == ParseVarint(old(Unread()))
        decreases used - pos
      {
        if used - pos < 1 {
          return Bad(BUFFER_EMPTY, Unread());
        }
        var b := buf[pos];
        assert Unread() == [b] + buf[pos + 1..used];
        pos := pos + 1;
        if !ShiftCount(s) {
          return Bad(UNDEFINED, Unread());
        }
        v := v + ShiftedInt(b % 0x80, s);
        if b < 0x80 {
          break;
        }
        s := s + 7;
      }
      r := Got(v, Unread());
    }

    method GetWord(n: nat) returns (r: Parsed<nat>)
      requires Valid()
      modifies this`pos
      ensures Valid() && r == ParseWord(old(Unread()), n) && r.rest == Unread()
    {
      if used - pos < n {
        return Bad(BUFFER_EMPTY, Unread());
      }
      hide FromLe, Pow256;
      ghost var word := buf[pos..pos + n];
      assert |Unread()| == used - pos && forall i :: 0 <= i < n ==> Unread()[i] == word[i];
      assert Unread()[..n] == word && Unread()[n..] == buf[pos + n..used];
      NoWord();
      var v: nat := 0;
      for i := 0 to n
        invariant pos == old(pos) && v == FromLe(word[..i])
      {
        FromLeSnoc(word[..i], word[i]);
        assert word[..i + 1] == word[..i] + [word[i]];
        v := v + Pow256(i) * buf[pos + i];
      }
      assert word[..n] == word;
      pos := pos + n;
      r := Got(v, Unread());
    }

    method GetData(n: nat) returns (r: Parsed<seq<byte>>)
      requires Valid()
      modifies this`pos
      ensures Valid() && r == ParseData(old(Unread()), n) && r.rest == Unread()
    {
      if used - pos < n {
        return Bad(BUFFER_EMPTY, Unread());
      }
      var data := buf[pos..pos + n];
      assert Unread()[..n] == data && Unread()[n..] == buf[pos + n..used];
      pos := pos + n;
      r := Got(data, Unread());
    }

    method GetString(size: nat) returns (r: Parsed<CString>)
      requires Valid()
      modifies this`pos
      ensures Valid() && r == ParseString(old(Unread()), size) && r.rest == Unread()
    {
      var n := GetVarint();
      if n.Bad? {
        return Bad(n.code, n.rest);
      }
      if used - pos < n.value {
        return Bad(BUFFER_EMPTY, Unread());
      }
      if n.value >= size {
        return Bad(OUTPUT_OVERFLOW, Unread());
      }
      var data := buf[pos..pos + n.value];
      assert Unread()[..n.value] == data && Unread()[n.value..] == buf[pos + n.value..used];
      pos := pos + n.value;
      r := Got(Terminated(data), Unread());
    }
  }
}
