/**
  The commands of the protocol: what the client's encoders put
  (cswp/client/cswp_client_commands.c) and what the server's decoders read back
  (cswp/server/cswp_server_commands.c and the decoding parts of
  cswp_server_cmdint.c).
 */
module Commands {
  import opened Wire

  datatype Device = Device(name: CString, kind: CString)

  datatype RegValue = RegValue(id: nat, value: u32)

  datatype Cmd =
    | Init(version: nat, clientId: CString)
    | Term
    | ClientInfo(message: CString)
    | SetDevices(devices: seq<Device>)
    | GetDevices
    | GetDescription
    | Open(dev: nat)
    | Close(dev: nat)
    | SetConfig(dev: nat, name: CString, value: CString)
    | GetConfig(dev: nat, name: CString)
    | GetCapabilities(dev: nat)
    | RegList(dev: nat)
    | RegRead(dev: nat, ids: seq<nat>)
    | RegWrite(dev: nat, regs: seq<RegValue>)
    | MemRead(dev: nat, addr: u64, size: nat, access: nat, flags: nat)
    | MemWrite(dev: nat, addr: u64, access: nat, flags: nat, data: seq<byte>)
    | MemPoll(dev: nat, addr: u64, access: nat, flags: nat, tries: nat, interval: nat,
              mask: seq<byte>, wanted: seq<byte>)

  // Command identifiers (cswp_types.h)
  const NONE := 0
  const INIT := 0x1
  const TERM := 0x2
  const CLIENT_INFO := 0x5
  const SET_DEVICES := 0x10
  const GET_DEVICES := 0x11
  const GET_DESCRIPTION := 0x12
  const DEVICE_OPEN := 0x100
  const DEVICE_CLOSE := 0x101
  const SET_CONFIG := 0x102
  const GET_CONFIG := 0x103
  const GET_CAPABILITIES := 0x104
  const REG_LIST := 0x200
  const REG_READ := 0x201
  const REG_WRITE := 0x202
  const MEM_READ := 0x300
  const MEM_WRITE := 0x301
  const MEM_POLL := 0x302
  const ASYNC_MESSAGE := 0x1000

  function TypeOf(c: Cmd): nat {
    match c
    case Init(_, _) => INIT
    case Term => TERM
    case ClientInfo(_) => CLIENT_INFO
    case SetDevices(_) => SET_DEVICES
    case GetDevices => GET_DEVICES
    case GetDescription => GET_DESCRIPTION
    case Open(_) => DEVICE_OPEN
    case Close(_) => DEVICE_CLOSE
    case SetConfig(_, _, _) => SET_CONFIG
    case GetConfig(_, _) => GET_CONFIG
    case GetCapabilities(_) => GET_CAPABILITIES
    case RegList(_) => REG_LIST
    case RegRead(_, _) => REG_READ
    case RegWrite(_, _) => REG_WRITE
    case MemRead(_, _, _, _, _) => MEM_READ
    case MemWrite(_, _, _, _, _) => MEM_WRITE
    case MemPoll(_, _, _, _, _, _, _, _) => MEM_POLL
  }

  // ------------------------------------------------------ the client's side

  function DeviceFields(ds: seq<Device>): Fields {
    if ds == [] then Done
    else Put(Str(ds[0].name), Put(Str(ds[0].kind), DeviceFields(ds[1..])))
  }

  function IdFields(ids: seq<nat>): Fields {
    if ids == [] then Done else Put(V(ids[0]), IdFields(ids[1..]))
  }

  function RegFields(rs: seq<RegValue>): Fields {
    if rs == [] then Done
    else Put(V(rs[0].id), Put(W32(rs[0].value), RegFields(rs[1..])))
  }

  /** The part shared by the memory commands. */
  datatype Target = Target(dev: nat, addr: u64, size: nat, access: nat, flags: nat)

  function TargetFields(m: Target, next: Fields): Fields {
    Put(V(m.dev), Put(W64(m.addr), Put(V(m.size), Put(V(m.access), Put(V(m.flags), next)))))
  }

  function PollTail(c: Cmd): Fields
    requires c.MemPoll?
  {
    Put(V(c.tries), Put(V(c.interval), Put(Blob(c.mask), Put(Blob(c.wanted), Done))))
  }

  /** What follows the command identifier. */
  function BodyFields(c: Cmd): Fields {
    match c
    case Init(version, id) => Put(V(version), Put(Str(id), Done))
    case Term => Done
    case ClientInfo(m) => Put(Str(m), Done)
    case SetDevices(ds) => Put(V(|ds|), DeviceFields(ds))
    case GetDevices => Done
    case GetDescription => Done
    case Open(dev) => Put(V(dev), Done)
    case Close(dev) => Put(V(dev), Done)
    case SetConfig(dev, name, value) => Put(V(dev), Put(Str(name), Put(Str(value), Done)))
    case GetConfig(dev, name) => Put(V(dev), Put(Str(name), Done))
    case GetCapabilities(dev) => Put(V(dev), Done)
    case RegList(dev) => Put(V(dev), Done)
    case RegRead(dev, ids) => Put(V(dev), Put(V(|ids|), IdFields(ids)))
    case RegWrite(dev, rs) => Put(V(dev), Put(V(|rs|), RegFields(rs)))
    case MemRead(dev, addr, size, access, flags) =>
      TargetFields(Target(dev, addr, size, access, flags), Done)
    case MemWrite(dev, addr, access, flags, data) =>
      TargetFields(Target(dev, addr, |data|, access, flags), Put(Blob(data), Done))
    case MemPoll(dev, addr, access, flags, tries, interval, mask, value) =>
      TargetFields(Target(dev, addr, |mask|, access, flags), PollTail(c))
  }

  function CommandFields(c: Cmd): Fields {
    Put(V(TypeOf(c)), BodyFields(c))
  }

  /** The arguments arrive: varints below 2^31, strings that fit the server's arrays, one mask byte per value byte. */
  predicate Portable(c: Cmd) {
    match c
    case Init(version, id) => version < VARINT_LIMIT && |id| < 256
    case Term => true
    case ClientInfo(m) => |m| < 1024
    case SetDevices(ds) => |ds| < VARINT_LIMIT && forall d :: d in ds ==> |d.name| < 256 && |d.kind| < 256
    case GetDevices => true
    case GetDescription => true
    case Open(dev) => dev < VARINT_LIMIT
    case Close(dev) => dev < VARINT_LIMIT
    case SetConfig(dev, name, value) => dev < VARINT_LIMIT && |name| < 256 && |value| < 256
    case GetConfig(dev, name) => dev < VARINT_LIMIT && |name| < 256
    case GetCapabilities(dev) => dev < VARINT_LIMIT
    case RegList(dev) => dev < VARINT_LIMIT
    case RegRead(dev, ids) => dev < VARINT_LIMIT && |ids| < VARINT_LIMIT && forall i :: i in ids ==> i < VARINT_LIMIT
    case RegWrite(dev, rs) => dev < VARINT_LIMIT && |rs| < VARINT_LIMIT && forall r :: r in rs ==> r.id < VARINT_LIMIT
    case MemRead(dev, _, size, access, flags) =>
      dev < VARINT_LIMIT && size < VARINT_LIMIT && access < VARINT_LIMIT && flags < VARINT_LIMIT
    case MemWrite(dev, _, access, flags, data) =>
      dev < VARINT_LIMIT && |data| < VARINT_LIMIT && access < VARINT_LIMIT && flags < VARINT_LIMIT
    case MemPoll(dev, _, access, flags, tries, interval, mask, value) =>
      && dev < VARINT_LIMIT && |mask| < VARINT_LIMIT && access < VARINT_LIMIT && flags < VARINT_LIMIT
      && tries < VARINT_LIMIT && interval < VARINT_LIMIT && |value| == |mask|
  }

  // ------------------------------------------------------ the server's side

  /** The commands whose handlers decode every argument before they act. */
  predicate Eager(t: nat) {
    t != SET_DEVICES && t != REG_READ && t != REG_WRITE
  }

  /** A varint that the C code stores in an `unsigned`. */
  function Low32(v: nat): u32 {
    if v < 0x1_0000_0000 then v else v % 0x1_0000_0000
  }

  /** A decoded uint64. */
  function Low64(v: nat): u64 {
    if v < 0x1_0000_0000_0000_0000 then v else v % 0x1_0000_0000_0000_0000
  }

  function ParseDev(b: seq<byte>, make: nat -> Cmd): Parsed<Cmd> {
    var (dev, b) :- ParseVarint(b);
    Got(make(dev), b)
  }

  function ParsePlace(b: seq<byte>): Parsed<(nat, nat, nat)> {
    var (dev, b) :- ParseVarint(b);
    var (addr, b) :- ParseWord(b, 8);
    var (size, b) :- ParseVarint(b);
    Got((dev, addr, size), b)
  }

  function ParseTarget(b: seq<byte>): Parsed<Target> {
    var (p, b) :- ParsePlace(b);
    var (access, b) :- ParseVarint(b);
    var (flags, b) :- ParseVarint(b);
    Got(Target(p.0, Low64(p.1), p.2, Low32(access), Low32(flags)), b)
  }

  function ParseMemRead(b: seq<byte>): Parsed<Cmd> {
    var (m, b) :- ParseTarget(b);
    Got(MemRead(m.dev, m.addr, m.size, m.access, m.flags), b)
  }

  function ParseMemWrite(b: seq<byte>): Parsed<Cmd> {
    var (m, b) :- ParseTarget(b);
    var (data, b) :- ParseData(b, m.size);
    Got(MemWrite(m.dev, m.addr, m.access, m.flags, data), b)
  }

  function ParsePollTail(m: Target, b: seq<byte>): Parsed<Cmd> {
    var (tries, b) :- ParseVarint(b);
    var (interval, b) :- ParseVarint(b);
    var (mask, b) :- ParseData(b, m.size);
    var (value, b) :- ParseData(b, m.size);
    Got(MemPoll(m.dev, m.addr, m.access, m.flags, Low32(tries), Low32(interval), mask, value), b)
  }

  function ParseMemPoll(b: seq<byte>): Parsed<Cmd> {
    var (m, b) :- ParseTarget(b);
    ParsePollTail(m, b)
  }

  /** The arguments of a command that is decoded in one go; `Bad` with code UNSUPPORTED for an unknown identifier. */
  function ParseBody(t: nat, b: seq<byte>): Parsed<Cmd>
    requires Eager(t)
  {
    if t == INIT then
      var (version, b) :- ParseVarint(b);
      var (id, b) :- ParseString(b, 256);
      Got(Init(version, id), b)
    else if t == TERM then Got(Term, b)
    else if t == CLIENT_INFO then
      var (m, b) :- ParseString(b, 1024);
      Got(ClientInfo(m), b)
    else if t == GET_DEVICES then Got(GetDevices, b)
    else if t == GET_DESCRIPTION then Got(GetDescription, b)
    else if t == DEVICE_OPEN then ParseDev(b, (dev: nat) => Open(dev))
    else if t == DEVICE_CLOSE then ParseDev(b, (dev: nat) => Close(dev))
    else if t == SET_CONFIG then
      var (dev, b) :- ParseVarint(b);
      var (name, b) :- ParseString(b, 256);
      var (value, b) :- ParseString(b, 256);
      Got(SetConfig(dev, name, value), b)
    else if t == GET_CONFIG then
      var (dev, b) :- ParseVarint(b);
      var (name, b) :- ParseString(b, 256);
      Got(GetConfig(dev, name), b)
    else if t == GET_CAPABILITIES then ParseDev(b, (dev: nat) => GetCapabilities(dev))
    else if t == REG_LIST then ParseDev(b, (dev: nat) => RegList(dev))
    else if t == MEM_READ then ParseMemRead(b)
    else if t == MEM_WRITE then ParseMemWrite(b)
    else if t == MEM_POLL then ParseMemPoll(b)
    else Bad(UNSUPPORTED, b)
  }

  lemma NoRegs(rest: seq<byte>)
    ensures Message(RegFields([]), rest) == rest
  {
  }

  lemma FirstReg(rs: seq<RegValue>)
    requires rs != []
    ensures RegFields(rs) == Put(V(rs[0].id), Put(W32(rs[0].value), RegFields(rs[1..])))
  {
  }

  lemma HeaderRoundTrip(c: Cmd, rest: seq<byte>)
    ensures ParseVarint(Message(CommandFields(c), rest)) == Got(TypeOf(c), Message(BodyFields(c), rest))
  {
    TakeV(TypeOf(c), BodyFields(c), rest);
  }

  lemma PlaceRoundTrip(dev: nat, addr: u64, size: nat, next: Fields, rest: seq<byte>)
    requires dev < VARINT_LIMIT && size < VARINT_LIMIT
    ensures ParsePlace(Message(Put(V(dev), Put(W64(addr), Put(V(size), next))), rest))
      == Got((dev, addr, size), Message(next, rest))
  {
    TakeV(dev, Put(W64(addr), Put(V(size), next)), rest);
    TakeW64(addr, Put(V(size), next), rest);
    TakeV(size, next, rest);
  }

  lemma TargetRoundTrip(m: Target, next: Fields, rest: seq<byte>)
    requires m.dev < VARINT_LIMIT && m.size < VARINT_LIMIT && m.access < VARINT_LIMIT && m.flags < VARINT_LIMIT
    ensures ParseTarget(Message(TargetFields(m, next), rest)) == Got(m, Message(next, rest))
  {
    PlaceRoundTrip(m.dev, m.addr, m.size, Put(V(m.access), Put(V(m.flags), next)), rest);
    TakeV(m.access, Put(V(m.flags), next), rest);
    TakeV(m.flags, next, rest);
  }

  lemma MemReadRoundTrip(c: Cmd, rest: seq<byte>)
    requires c.MemRead? && Portable(c)
    ensures ParseMemRead(Message(BodyFields(c), rest)) == Got(c, rest)
  {
    TargetRoundTrip(Target(c.dev, c.addr, c.size, c.access, c.flags), Done, rest);
  }

  lemma MemWriteRoundTrip(c: Cmd, rest: seq<byte>)
    requires c.MemWrite? && Portable(c)
    ensures ParseMemWrite(Message(BodyFields(c), rest)) == Got(c, rest)
  {
    TargetRoundTrip(Target(c.dev, c.addr, |c.data|, c.access, c.flags), Put(Blob(c.data), Done), rest);
    TakeBlob(c.data, Done, rest);
  }

  lemma PollTailRoundTrip(c: Cmd, rest: seq<byte>)
    requires c.MemPoll? && Portable(c)
    ensures ParsePollTail(Target(c.dev, c.addr, |c.mask|, c.access, c.flags), Message(PollTail(c), rest))
      == Got(c, rest)
  {
    var f4 := Put(Blob(c.wanted), Done);
    var f3 := Put(Blob(c.mask), f4);
    var f2 := Put(V(c.interval), f3);
    TakeV(c.tries, f2, rest);
    TakeV(c.interval, f3, rest);
    TakeBlob(c.mask, f4, rest);
    TakeBlob(c.wanted, Done, rest);
  }

  lemma MemPollRoundTrip(c: Cmd, rest: seq<byte>)
    requires c.MemPoll? && Portable(c)
    ensures ParseMemPoll(Message(BodyFields(c), rest)) == Got(c, rest)
  {
    TargetRoundTrip(Target(c.dev, c.addr, |c.mask|, c.access, c.flags), PollTail(c), rest);
    PollTailRoundTrip(c, rest);
  }

  lemma TextRoundTrip(c: Cmd, rest: seq<byte>)
    requires (c.SetConfig? || c.GetConfig? || c.Init? || c.ClientInfo?) && Portable(c)
    ensures ParseBody(TypeOf(c), Message(BodyFields(c), rest)) == Got(c, rest)
  {
    match c
    case Init(version, id) =>
      TakeV(version, Put(Str(id), Done), rest);
      TakeStr(id, 256, Done, rest);
    case ClientInfo(m) =>
      TakeStr(m, 1024, Done, rest);
    case SetConfig(dev, name, value) =>
      TakeV(dev, Put(Str(name), Put(Str(value), Done)), rest);
      TakeStr(name, 256, Put(Str(value), Done), rest);
      TakeStr(value, 256, Done, rest);
    case GetConfig(dev, name) =>
      TakeV(dev, Put(Str(name), Done), rest);
      TakeStr(name, 256, Done, rest);
    case _ =>
  }

  lemma DeviceRoundTrip(c: Cmd, rest: seq<byte>)
    requires (c.Open? || c.Close? || c.GetCapabilities? || c.RegList?) && Portable(c)
    ensures ParseBody(TypeOf(c), Message(BodyFields(c), rest)) == Got(c, rest)
  {
    TakeV(c.dev, Done, rest);
  }

  /** The server's decoder undoes the client's encoder, and stops where the next command starts. */
  lemma CommandRoundTrip(c: Cmd, rest: seq<byte>)
    requires Portable(c) && Eager(TypeOf(c))
    ensures ParseBody(TypeOf(c), Message(BodyFields(c), rest)) == Got(c, rest)
  {
    match c
    case MemRead(_, _, _, _, _) => MemReadRoundTrip(c, rest);
    case MemWrite(_, _, _, _, _) => MemWriteRoundTrip(c, rest);
    case MemPoll(_, _, _, _, _, _, _, _) => MemPollRoundTrip(c, rest);
    case SetConfig(_, _, _) => TextRoundTrip(c, rest);
    case GetConfig(_, _) => TextRoundTrip(c, rest);
    case Init(_, _) => TextRoundTrip(c, rest);
    case ClientInfo(_) => TextRoundTrip(c, rest);
    case Open(_) => DeviceRoundTrip(c, rest);
    case Close(_) => DeviceRoundTrip(c, rest);
    case GetCapabilities(_) => DeviceRoundTrip(c, rest);
    case RegList(_) => DeviceRoundTrip(c, rest);
    case _ =>
  }
}
