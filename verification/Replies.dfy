/**
  The client's half of a reply (cswp/client/cswp_client_commands.c and the
  completion functions of cswp_client.c): one pending entry takes one response
  off the front of the response buffer.
 */
module Replies {
  import opened Wire
  import opened Buffer
  import opened Commands
  import opened Server

  /** A pending response: the expected type, and how many entries and how many bytes of each the caller
      made room for; for a device list the same again for the types. */
  datatype Pending = Pending(t: nat, entries: nat, bytes: nat, kinds: nat, kindBytes: nat)

  /** A string that is dropped when the caller gave no buffer for it. */
  function ParseOptional(b: seq<byte>, size: nat): Parsed<CString> {
    if size > 0 then ParseString(b, size)
    else
      var (len, b) :- ParseVarint(b);
      // the C code moves its cursor without looking at what is left
      if len <= |b| then Got([], b[len..]) else Bad(UNDEFINED, b)
  }

  /** The result of reading a name is overwritten by that of reading its type. */
  function ParseDevices(n: nat, size: nat, kindSize: nat, b: seq<byte>): Parsed<seq<Device>>
    decreases n
  {
    if n == 0 then Got([], b)
    else
      var name := ParseString(b, size);
      var (kind, b) :- ParseString(name.rest, kindSize);
      var (more, b) :- ParseDevices(n - 1, size, kindSize, b);
      Got([Device(if name.Got? then name.value else [], kind)] + more, b)
  }

  function ParseRegInfo(b: seq<byte>): Parsed<RegInfo> {
    var (id, b) :- ParseVarint(b);
    var (name, b) :- ParseString(b, 256);
    var (size, b) :- ParseVarint(b);
    var (display, b) :- ParseString(b, 256);
    var (description, b) :- ParseString(b, 1024);
    Got(RegInfo(id, name, size, display, description), b)
  }

  function ParseRegInfos(n: nat, b: seq<byte>): Parsed<seq<RegInfo>>
    decreases n
  {
    if n == 0 then Got([], b)
    else
      var (r, b) :- ParseRegInfo(b);
      var (more, b) :- ParseRegInfos(n - 1, b);
      Got([r] + more, b)
  }

  function ParseWords(n: nat, b: seq<byte>): Parsed<seq<u32>>
    decreases n
  {
    if n == 0 then Got([], b)
    else
      var (w, b) :- ParseWord(b, 4);
      var (more, b) :- ParseWords(n - 1, b);
      Got([Low32(w)] + more, b)
  }

  /** The result of cswp_buffer_get_direct is not looked at: when the response is too short its pointer
      stays unset, and the copy reads from anywhere. */
  function ParseBlob(b: seq<byte>): Parsed<seq<byte>> {
    var (n, b) :- ParseVarint(b);
    if |b| < n then Bad(UNDEFINED, b) else ParseData(b, n)
  }

  /** The completion function registered for a command. */
  function Complete(p: Pending, b: seq<byte>): Parsed<Resp> {
    if p.t == INIT then
      var (protocol, b) :- ParseVarint(b);
      var (id, b) :- ParseOptional(b, p.bytes);
      var (version, b) :- ParseVarint(b);
      Got(RInit(protocol, id, version), b)
    else if p.t == GET_DEVICES then
      var (n, b) :- ParseVarint(b);
      if p.entries < n || p.kinds < n then Bad(OUTPUT_OVERFLOW, b)
      else
        var (ds, b) :- ParseDevices(n, p.bytes, p.kindBytes, b);
        Got(RDevices(ds), b)
    else if p.t == GET_DESCRIPTION then
      var (format, b) :- ParseVarint(b);
      var (n, b) :- ParseVarint(b);
      var (data, b) :- ParseData(b, if p.bytes < n then p.bytes else n);
      if p.bytes < n then Bad(OUTPUT_OVERFLOW, b) else Got(RDescription(Description(format, data)), b)
    else if p.t == DEVICE_OPEN then
      var (text, b) :- ParseOptional(b, p.bytes);
      Got(RText(text), b)
    else if p.t == GET_CONFIG then
      var (text, b) :- ParseString(b, p.bytes);
      Got(RText(text), b)
    else if p.t == GET_CAPABILITIES then
      var (first, b) :- ParseVarint(b);
      var (second, b) :- ParseVarint(b);
      Got(RCapabilities(first, second), b)
    else if p.t == REG_LIST then
      var (n, b) :- ParseVarint(b);
      if p.entries < n then Bad(OUTPUT_OVERFLOW, b)
      else
        var (rs, b) :- ParseRegInfos(n, b);
        Got(RRegs(rs), b)
    else if p.t == REG_READ then
      var (n, b) :- ParseVarint(b);
      if p.entries < n then Bad(OUTPUT_OVERFLOW, b)
      else
        var (ws, b) :- ParseWords(n, b);
        Got(RValues(ws), b)
    else if p.t == MEM_READ || p.t == MEM_POLL then
      var (data, b) :- ParseBlob(b);
      Got(RData(data), b)
    else Got(RNone, b)
  }

  function ParseHeader(b: seq<byte>): Parsed<(nat, nat)> {
    var (t, b) :- ParseVarint(b);
    var (code, b) :- ParseVarint(b);
    Got((t, code), b)
  }

  /** cswp_client_process_response */
  function TakeReply(p: Pending, b: seq<byte>): Parsed<Resp> {
    var (h, b) :- ParseHeader(b);
    if h.0 != p.t then Bad(COMMS, b)
    else if h.1 != SUCCESS then Bad(h.1, b)
    else Complete(p, b)
  }

  // ------------------------------------------------------------ round trips

  /** The kind of reply that belongs to a command type. */
  predicate Fits(t: nat, r: Resp) {
    match r
    case RInit(_, _, _) => t == INIT
    case RDevices(_) => t == GET_DEVICES
    case RDescription(_) => t == GET_DESCRIPTION
    case RText(_) => t == DEVICE_OPEN || t == GET_CONFIG
    case RCapabilities(_, _) => t == GET_CAPABILITIES
    case RRegs(_) => t == REG_LIST
    case RValues(_) => t == REG_READ
    case RData(_) => t == MEM_READ || t == MEM_POLL
    case RNone =>
      t !in {INIT, GET_DEVICES, GET_DESCRIPTION, DEVICE_OPEN, GET_CONFIG, GET_CAPABILITIES, REG_LIST, REG_READ,
             MEM_READ, MEM_POLL}
  }

  predicate PortableRegInfo(r: RegInfo) {
    r.id < VARINT_LIMIT && |r.name| < 256 && r.size < VARINT_LIMIT && |r.display| < 256 && |r.description| < 1024
  }

  /** The caller's buffers and the varint decoder can hold the reply. */
  predicate Holds(p: Pending, r: Resp) {
    match r
    case RInit(protocol, id, version) =>
      protocol < VARINT_LIMIT && |id| < p.bytes && |id| < VARINT_LIMIT && version < VARINT_LIMIT
    case RDevices(ds) =>
      |ds| <= p.entries && |ds| <= p.kinds && |ds| < VARINT_LIMIT &&
      forall d :: d in ds ==>
        |d.name| < p.bytes && |d.kind| < p.kindBytes && |d.name| < VARINT_LIMIT && |d.kind| < VARINT_LIMIT
    case RDescription(d) => d.format < VARINT_LIMIT && |d.data| <= p.bytes && |d.data| < VARINT_LIMIT
    case RText(text) => |text| < p.bytes && |text| < VARINT_LIMIT
    case RCapabilities(a, b) => a < VARINT_LIMIT && b < VARINT_LIMIT
    case RRegs(rs) => |rs| <= p.entries && |rs| < VARINT_LIMIT && forall r :: r in rs ==> PortableRegInfo(r)
    case RValues(ws) => |ws| <= p.entries && |ws| < VARINT_LIMIT
    case RData(data) => |data| < VARINT_LIMIT
    case RNone => true
  }

  lemma {:induction false} DevicesRoundTrip(ds: seq<Device>, size: nat, kindSize: nat, rest: seq<byte>)
    requires forall d :: d in ds ==>
        |d.name| < size && |d.kind| < kindSize && |d.name| < VARINT_LIMIT && |d.kind| < VARINT_LIMIT
    ensures ParseDevices(|ds|, size, kindSize, Message(DeviceFields(ds), rest)) == Got(ds, rest)
  {
    if ds == [] {
    } else {
      var more := DeviceFields(ds[1..]);
      assert ds[0] in ds;
      TakeStr(ds[0].name, size, Put(Str(ds[0].kind), more), rest);
      TakeStr(ds[0].kind, kindSize, more, rest);
      DevicesRoundTrip(ds[1..], size, kindSize, rest);
      assert ds == [ds[0]] + ds[1..];
    }
  }

  lemma RegInfoRoundTrip(r: RegInfo, next: Fields, rest: seq<byte>)
    requires PortableRegInfo(r)
    ensures ParseRegInfo(Message(RegInfoFields(r, next), rest)) == Got(r, Message(next, rest))
  {
    var f5 := Put(Str(r.description), next);
    var f4 := Put(Str(r.display), f5);
    var f3 := Put(V(r.size), f4);
    TakeV(r.id, Put(Str(r.name), f3), rest);
    TakeStr(r.name, 256, f3, rest);
    TakeV(r.size, f4, rest);
    TakeStr(r.display, 256, f5, rest);
    TakeStr(r.description, 1024, next, rest);
  }

  lemma {:induction false} RegInfosRoundTrip(rs: seq<RegInfo>, rest: seq<byte>)
    requires forall r :: r in rs ==> PortableRegInfo(r)
    ensures ParseRegInfos(|rs|, Message(RegInfosFields(rs), rest)) == Got(rs, rest)
  {
    if rs == [] {
    } else {
      assert rs[0] in rs;
      RegInfoRoundTrip(rs[0], RegInfosFields(rs[1..]), rest);
      RegInfosRoundTrip(rs[1..], rest);
      assert rs == [rs[0]] + rs[1..];
    }
  }

  lemma {:induction false} WordsRoundTrip(ws: seq<u32>, rest: seq<byte>)
    ensures ParseWords(|ws|, Message(WordsFields(ws), rest)) == Got(ws, rest)
  {
    if ws == [] {
    } else {
      TakeW32(ws[0], WordsFields(ws[1..]), rest);
      WordsRoundTrip(ws[1..], rest);
      assert ws == [ws[0]] + ws[1..];
    }
  }

  /** A completion function undoes the server's encoder, and stops where the next response starts. */
  lemma ReplyRoundTrip(p: Pending, r: Resp, rest: seq<byte>)
    requires Fits(p.t, r) && Holds(p, r)
    ensures Complete(p, Message(RespFields(r), rest)) == Got(r, rest)
  {
    match r
    case RInit(protocol, id, version) =>
      TakeV(protocol, Put(Str(id), Put(V(version), Done)), rest);
      TakeStr(id, p.bytes, Put(V(version), Done), rest);
      TakeV(version, Done, rest);
    case RDevices(ds) =>
      TakeV(|ds|, DeviceFields(ds), rest);
      DevicesRoundTrip(ds, p.bytes, p.kindBytes, rest);
    case RDescription(d) =>
      TakeV(d.format, Put(V(|d.data|), Put(Blob(d.data), Done)), rest);
      TakeV(|d.data|, Put(Blob(d.data), Done), rest);
      TakeBlob(d.data, Done, rest);
    case RText(text) =>
      TakeStr(text, p.bytes, Done, rest);
    case RCapabilities(a, b) =>
      TakeV(a, Put(V(b), Done), rest);
      TakeV(b, Done, rest);
    case RRegs(rs) =>
      TakeV(|rs|, RegInfosFields(rs), rest);
      RegInfosRoundTrip(rs, rest);
    case RValues(ws) =>
      TakeV(|ws|, WordsFields(ws), rest);
      WordsRoundTrip(ws, rest);
    case RData(data) =>
      TakeV(|data|, Put(Blob(data), Done), rest);
      TakeBlob(data, Done, rest);
    case RNone =>
  }

  // ------------------------------------------- any answer against the room for it

  /** Where the count of a list, or the length of a description, stands in an answer. */
  function CountIn(t: nat, b: seq<byte>): Parsed<nat> {
    if t == GET_DESCRIPTION then
      var (_, b) :- ParseVarint(b);
      ParseVarint(b)
    else ParseVarint(b)
  }

  /** The caller has less room than the answer announces. */
  predicate Exceeds(p: Pending, n: nat) {
    if p.t == GET_DEVICES then n > p.entries || n > p.kinds
    else if p.t == GET_DESCRIPTION then n > p.bytes
    else n > p.entries
  }

  /** Whatever the bytes: an answer that announces more than the caller has room for is an overflow, not a
      shorter list; only a description that is cut short besides is reported as that. */
  lemma TooMuch(p: Pending, b: seq<byte>)
    requires p.t in {GET_DEVICES, GET_DESCRIPTION, REG_LIST, REG_READ}
    ensures var n := CountIn(p.t, b);
      var r := Complete(p, b);
      && (n.Bad? ==> r.Bad? && r.code == n.code)
      && (n.Got? && Exceeds(p, n.value) ==>
            r.Bad? && r.code == if p.t == GET_DESCRIPTION && |n.rest| < p.bytes then BUFFER_EMPTY else OUTPUT_OVERFLOW)
  {
    hide ParseVarint;
  }

  /** What stands in the caller's arrays: text with its terminator, or nothing where there is no array. */
  predicate InRoom(text: CString, size: nat) {
    |text| < size || (text == [] && size == 0)
  }

  /** The arrays of a register description. */
  predicate TextsFit(g: RegInfo) {
    |g.name| < 256 && |g.display| < 256 && |g.description| < 1024
  }

  /** The i-th of the little-endian words in `b`. */
  predicate WordAt(b: seq<byte>, i: nat, w: u32) {
    4 * i + 4 <= |b| && w == FromLe(b[4 * i..4 * i + 4])
  }

  /** Whatever the bytes: an answer that completes its entry is of the entry's kind, fits the caller's room, and
      has exactly the length it announces. */
  lemma CompletedFits(p: Pending, b: seq<byte>)
    ensures var r := Complete(p, b);
      var n := CountIn(p.t, b);
      r.Got? ==>
        && Fits(p.t, r.value)
        && (p.t == GET_DEVICES ==>
              && n == Got(|r.value.list|, n.rest) && !Exceeds(p, |r.value.list|)
              && forall d <- r.value.list :: (d.name == [] || |d.name| < p.bytes) && |d.kind| < p.kindBytes)
        && (p.t == REG_LIST ==>
              && n == Got(|r.value.regs|, n.rest) && !Exceeds(p, |r.value.regs|)
              && forall g <- r.value.regs :: TextsFit(g))
        && (p.t == INIT ==> InRoom(r.value.serverId, p.bytes))
        && (p.t == DEVICE_OPEN ==> InRoom(r.value.text, p.bytes))
        && (p.t == GET_CONFIG ==> |r.value.text| < p.bytes)
        && (r.value.RNone? ==> r.rest == b)
  {
    hide ParseVarint, ParseDevices, ParseRegInfos, ParseWords, FromLe, Terminated;
    var n := CountIn(p.t, b);
    if p.t == GET_DEVICES && n.Got? { DevicesFit(n.value, p.bytes, p.kindBytes, n.rest); }
    if p.t == REG_LIST && n.Got? { RegInfosFit(n.value, n.rest); }
    TerminatedFits();
  }

  lemma TerminatedFits()
    ensures forall b: seq<byte> :: |Terminated(b)| <= |b|
  {
    forall b: seq<byte> ensures |Terminated(b)| <= |b| { TerminatedShort(b); }
  }

  lemma {:induction false} TerminatedShort(b: seq<byte>)
    ensures |Terminated(b)| <= |b|
  {
    if b == [] || b[0] == 0 {
    } else {
      TerminatedShort(b[1..]);
    }
  }

  lemma {:induction false} DevicesFit(n: nat, size: nat, kindSize: nat, b: seq<byte>)
    ensures var r := ParseDevices(n, size, kindSize, b);
      r.Got? ==> |r.value| == n
                 && forall d <- r.value :: (d.name == [] || |d.name| < size) && |d.kind| < kindSize
    decreases n
  {
    hide ParseVarint, Terminated;
    if n == 0 {
    } else {
      var name := ParseString(b, size);
      var kind := ParseString(name.rest, kindSize);
      TerminatedFits();
      if kind.Got? { DevicesFit(n - 1, size, kindSize, kind.rest); }
    }
  }

  lemma RegInfoFits(b: seq<byte>)
    ensures var r := ParseRegInfo(b);
      r.Got? ==> TextsFit(r.value)
  {
    hide ParseVarint, Terminated;
    TerminatedFits();
  }

  lemma {:induction false} RegInfosFit(n: nat, b: seq<byte>)
    ensures var r := ParseRegInfos(n, b);
      r.Got? ==> |r.value| == n && forall g <- r.value :: TextsFit(g)
    decreases n
  {
    hide ParseRegInfo, TextsFit;
    if n == 0 {
    } else {
      var r := ParseRegInfo(b);
      RegInfoFits(b);
      if r.Got? { RegInfosFit(n - 1, r.rest); }
    }
  }

  lemma {:induction false} WordsAre(n: nat, b: seq<byte>)
    ensures var r := ParseWords(n, b);
      && (r.Got? <==> 4 * n <= |b|)
      && (r.Bad? ==> r.code == BUFFER_EMPTY)
      && (r.Got? ==> |r.value| == n && r.rest == b[4 * n..] && forall i :: 0 <= i < n ==> WordAt(b, i, r.value[i]))
    decreases n
  {
    if n == 0 {
    } else if |b| >= 4 {
      WordsAre(n - 1, b[4..]);
      FourBytes(b[..4]);
      hide FromLe;
      var more := ParseWords(n - 1, b[4..]);
      if more.Got? {
        assert b[4..][4 * (n - 1)..] == b[4 * n..];
        forall i | 0 <= i < n ensures WordAt(b, i, ParseWords(n, b).value[i])
        {
          if i > 0 {
            assert WordAt(b[4..], i - 1, more.value[i - 1]);
            assert b[4..][4 * (i - 1)..4 * (i - 1) + 4] == b[4 * i..4 * i + 4];
          }
        }
      }
    }
  }

  lemma FourBytes(b: seq<byte>)
    requires |b| == 4
    ensures 0 <= FromLe(b) < 0x1_0000_0000
  {
    assert FromLe(b[1..][1..][1..][1..]) == 0;
    assert FromLe(b[1..][1..][1..]) < 0x100;
    assert FromLe(b[1..][1..]) < 0x1_0000;
  }

  /** Whatever the bytes: a read of registers completes exactly if the words announced fit the caller's array and
      are all there; then they are its values, and the next answer is read behind them.  Memory data and a
      description are the announced number of bytes likewise. */
  lemma DataIsThere(p: Pending, b: seq<byte>)
    requires p.t in {REG_READ, GET_DESCRIPTION, MEM_READ, MEM_POLL}
    ensures var r := Complete(p, b);
      var n := CountIn(p.t, b);
      var width := if p.t == REG_READ then 4 else 1;
      && (r.Got? <==>
            && n.Got? && width * n.value <= |n.rest|
            && (p.t == MEM_READ || p.t == MEM_POLL || !Exceeds(p, n.value)))
      && (r.Got? ==>
            && r.rest == n.rest[width * n.value..]
            && (p.t == REG_READ ==>
                  r.value.RValues? && |r.value.values| == n.value
                  && forall i :: 0 <= i < n.value ==> WordAt(n.rest, i, r.value.values[i]))
            && (p.t == GET_DESCRIPTION ==>
                  r.value == RDescription(Description(ParseVarint(b).value, n.rest[..n.value])))
            && (p.t == MEM_READ || p.t == MEM_POLL ==> r.value == RData(n.rest[..n.value])))
  {
    hide ParseVarint, ParseWords, WordAt;
    var n := CountIn(p.t, b);
    if p.t == REG_READ && n.Got? { WordsAre(n.value, n.rest); }
  }

  /** A text against the array for it, any lengths: it arrives if it fits with its terminator; a target's
      description is dropped if the caller has no array; everything else is an overflow. */
  lemma TextAgainstRoom(p: Pending, text: CString, rest: seq<byte>)
    requires p.t in {DEVICE_OPEN, GET_CONFIG} && |text| < VARINT_LIMIT
    ensures Complete(p, Message(RespFields(RText(text)), rest))
         == if |text| < p.bytes then Got(RText(text), rest)
            else if p.t == DEVICE_OPEN && p.bytes == 0 then Got(RText([]), rest)
            else Bad(OUTPUT_OVERFLOW, text + rest)
  {
    hide ParseVarint, ParseString, Varint, Message;
    var b := Bytes(Str(text)) + rest;
    TextMessage(text, rest);
    StringRoundTrip(text, rest, p.bytes);
    VarintRoundTrip(|text|, text + rest);
    assert b == Varint(|text|) + (text + rest) && (text + rest)[|text|..] == rest;
    assert p.bytes == 0 ==> ParseOptional(b, 0) == Got([], rest);
  }

  lemma TextMessage(text: CString, rest: seq<byte>)
    ensures Message(RespFields(RText(text)), rest) == Bytes(Str(text)) + rest
  {}

  // --------------------------------------------- answers cut short

  /** A memory reply of the right type that reports success has no defined result exactly when the count in
      it, which can be read, is more than the bytes that are left, or cannot be read for its length. */
  lemma ShortData(p: Pending, b: seq<byte>)
    requires p.t == MEM_READ || p.t == MEM_POLL
    ensures var h := ParseHeader(b);
      var r := TakeReply(p, b);
      h.Got? ==>
        (r.Bad? && r.code == UNDEFINED <==>
          && h.value == (p.t, SUCCESS)
          && var n := ParseVarint(h.rest); if n.Got? then n.value > |n.rest| else n.code == UNDEFINED)
  {
    hide ParseVarint;
  }

  /** Two bytes announced and one sent. */
  lemma OneByteShort(p: Pending)
    requires p.t == MEM_READ
    ensures var b := Varint(MEM_READ) + [SUCCESS, 2, 7];
      var r := TakeReply(p, b);
      r.Bad? && r.code == UNDEFINED
  {
    var b := Varint(MEM_READ) + [SUCCESS, 2, 7];
    VarintRoundTrip(MEM_READ, [SUCCESS, 2, 7]);
    assert Varint(SUCCESS) + [2, 7] == [SUCCESS, 2, 7] && Varint(2) + [7] == [2, 7];
    VarintRoundTrip(SUCCESS, [2, 7]);
    VarintRoundTrip(2, [7]);
    hide ParseVarint, Varint;
    assert ParseHeader(b) == Got((MEM_READ, SUCCESS), [2, 7]);
    ShortData(p, b);
  }
}
