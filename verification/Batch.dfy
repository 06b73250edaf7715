/**
  A batch from end to end: the request a client sends, the server's loop over
  it (target/cswp_server/cswp_server.c), the response, and what the client makes
  of that response.
 */
module Batch {
  import opened Wire
  import opened Buffer
  import opened Commands
  import opened Server
  import opened Replies
  import opened Dispatch

  // ------------------------------------------------------- running directly

  /** Running commands one after the other until one is not answered with a success. */
  datatype Run = Run(state: State, replies: seq<Resp>, stop: Option<Result>)

  function Direct(impl: Impl, s: State, cmds: seq<Cmd>): Run
    decreases |cmds|
  {
    if cmds == [] then Run(s, [], None)
    else
      var (s, r) := Exec(impl, s, cmds[0]);
      if r.Ok? then
        var more := Direct(impl, s, cmds[1..]);
        Run(more.state, [r.resp] + more.replies, more.stop)
      else Run(s, [], Some(r))
  }

  function CodeOf(r: Result): int {
    match r
    case Ok(_) => SUCCESS
    case Refused(_, code) => code
    case Silent => UNSUPPORTED
    case Crash => UNDEFINED
  }

  // ------------------------------------------------------------- the request

  /** The encoded commands, followed by `rest`. */
  function Body(cmds: seq<Cmd>, rest: seq<byte>): seq<byte> {
    if cmds == [] then rest else Message(CommandFields(cmds[0]), Body(cmds[1..], rest))
  }

  /** What cswp_client_transact sends for a body it holds: length, count, batch mode, body. */
  function Frame(count: nat, mode: byte, body: seq<byte>): seq<byte> {
    var tail := Varint(count) + [mode] + body;
    Le(4 + |tail|, 4) + tail
  }

  // -------------------------------------------------------------- the server

  datatype Served = Served(state: State, rest: seq<byte>, out: seq<byte>, code: int, left: nat)

  /** The loop over the commands of one request.  On an aborting failure the command that failed is still
      counted in `left`. */
  function ServeLoop(impl: Impl, s: State, left: nat, abort: bool, b: seq<byte>, out: seq<byte>, cap: nat,
      code: int): Served
    decreases left
  {
    if left == 0 || b == [] then Served(s, b, out, code, left)
    else
      var h := Handle(impl, s, b, out, cap);
      if h.code != SUCCESS && abort then Served(h.state, h.rest, h.out, h.code, left)
      else ServeLoop(impl, h.state, left - 1, abort, h.rest, h.out, cap, h.code)
  }

  // "Cancelled"
  const CANCELLED_TEXT: CString := [67, 97, 110, 99, 101, 108, 108, 101, 100]

  function CancelledFields(): Fields {
    Put(V(NONE), Put(V(CANCELLED), Put(Str(CANCELLED_TEXT), Done)))
  }

  function CancelRest(out: seq<byte>, cap: nat, n: nat): seq<byte>
    decreases n
  {
    if n == 0 then out else CancelRest(PutAll(out, cap, CancelledFields()).data, cap, n - 1)
  }

  /** A command that was cancelled is answered under no command's type, with the code for it; no entry is
      completed by that. */
  lemma CancelledRead(p: Pending, more: seq<byte>)
    requires p.t != NONE
    ensures var b := Message(CancelledFields(), more);
      var h := ParseHeader(b);
      && h.Got? && h.value == (0, 2)
      && ParseString(h.rest, 1024) == Got(CANCELLED_TEXT, more)
      && TakeReply(p, b).Bad? && TakeReply(p, b).code == COMMS
  {
    TakeV(NONE, Put(V(CANCELLED), Put(Str(CANCELLED_TEXT), Done)), more);
    TakeV(CANCELLED, Put(Str(CANCELLED_TEXT), Done), more);
    TakeStr(CANCELLED_TEXT, 1024, Done, more);
    hide ParseVarint, ParseString, Message, Complete;
  }

  function Opening(count: nat): seq<byte> {
    [0, 0, 0, 0] + Varint(count)
  }

  /** The same, put into a buffer of `cap` bytes; neither put is checked. */
  function OpeningIn(count: nat, cap: nat): seq<byte> {
    PutOne(PutOne([], cap, W32(0)).data, cap, V(count)).data
  }

  lemma OpeningFits(count: nat, cap: nat)
    requires |Opening(count)| <= cap
    ensures OpeningIn(count, cap) == Opening(count)
  {
    assert Le(0, 4) == [0, 0, 0, 0];
  }

  /** What comes of a request: the new server state, and the response if one is ever sent. */
  datatype Service = Service(state: State, rsp: Option<seq<byte>>)

  /** Handling a body of `count` commands.  The loop that cancels the rest counts in an `unsigned`, and
      does not end if the 64-bit count is out of its reach. */
  function Respond(impl: Impl, s: State, count: nat, mode: byte, b: seq<byte>, cap: nat): Service {
    var v := ServeLoop(impl, s, count, mode != 0, b, OpeningIn(count, cap), cap, SUCCESS);
    var cancel := v.code != SUCCESS && mode != 0;
    if cancel && count >= 0x1_0000_0000 then Service(v.state, None)
    else
      var out := if cancel then CancelRest(v.out, cap, v.left) else v.out;
      Service(v.state, Some(Le(|out|, 4) + if |out| >= 4 then out[4..] else []))
  }

  /** process_commands on one message; a message too short for its header leaves the C variables unset. */
  function Serve(impl: Impl, s: State, req: seq<byte>, cap: nat): Service {
    var size := ParseWord(req, 4);
    if size.Bad? then Service(s, None)
    else
      var n := ParseVarint(size.rest);
      if n.Bad? || n.rest == [] then Service(s, None)
      else Respond(impl, s, n.value, n.rest[0], n.rest[1..], cap)
  }

  // -------------------------------------------------------------- the client

  /** How an exchange ended: how many operations completed, their results, and the code returned. */
  datatype Finished = Finished(completed: nat, replies: seq<Resp>, code: int)

  function TakeReplies(ps: seq<Pending>, b: seq<byte>): Finished {
    if ps == [] then Finished(0, [], SUCCESS)
    else
      var r := TakeReply(ps[0], b);
      if r.Bad? then Finished(0, [], r.code)
      else
        var more := TakeReplies(ps[1..], r.rest);
        Finished(1 + more.completed, [r.value] + more.replies, more.code)
  }

  /** The receiving half of cswp_client_transact, for a request of `count` commands.  The results of
      reading the length and the count are not looked at: where they fail, C compares what was never set. */
  function Receive(count: nat, ps: seq<Pending>, rsp: seq<byte>): Finished {
    var size := ParseWord(rsp, 4);
    if size.Bad? then Finished(0, [], UNDEFINED)
    else if size.value > |rsp| then Finished(0, [], COMMS)
    else
      var n := ParseVarint(size.rest);
      if n.Bad? then Finished(0, [], UNDEFINED)
      else if n.value != count then Finished(0, [], COMMS)
      else TakeReplies(ps, n.rest)
  }

  /** A response completes its entry: its type is the entry's, its code is success, and its completion
      function stores the rest. */
  predicate Answers(p: Pending, b: seq<byte>, r: Resp, rest: seq<byte>) {
    var h := ParseHeader(b);
    h.Got? && h.value == (p.t, SUCCESS) && Complete(p, h.rest) == Got(r, rest)
  }

  /** On any bytes the completed operations are the longest run of responses that complete their entries,
      each read from where the one before it ended; the code is success if that is all of them, and else
      the code with which the next one failed. */
  lemma {:induction false} LongestRun(ps: seq<Pending>, b: seq<byte>) returns (at: seq<seq<byte>>)
    ensures var o := TakeReplies(ps, b);
      && |at| == o.completed + 1 && at[0] == b && |o.replies| == o.completed <= |ps|
      && (forall i :: 0 <= i < o.completed ==> Answers(ps[i], at[i], o.replies[i], at[i + 1]))
      && if o.completed == |ps| then o.code == SUCCESS
         else
           var next := TakeReply(ps[o.completed], at[o.completed]);
           && next.Bad? && next.code == o.code
           && forall r, rest :: !Answers(ps[o.completed], at[o.completed], r, rest)
  {
    hide ParseHeader, Complete;
    if ps == [] {
      at := [b];
    } else {
      var r := TakeReply(ps[0], b);
      if r.Bad? {
        at := [b];
      } else {
        var more := LongestRun(ps[1..], r.rest);
        at := [b] + more;
      }
    }
  }

  /** The whole receiving half, on any bytes: success means that every entry was completed, and the
      completed ones are the longest run in a response that is long enough, as long as it says, and counts
      as many replies as are expected; in any other response none. */
  lemma ReceivedRun(count: nat, ps: seq<Pending>, rsp: seq<byte>) returns (at: seq<seq<byte>>)
    ensures var o := Receive(count, ps, rsp);
      var size := ParseWord(rsp, 4);
      var n := ParseVarint(size.rest);
      && |at| == o.completed + 1 && |o.replies| == o.completed <= |ps|
      && (forall i :: 0 <= i < o.completed ==> Answers(ps[i], at[i], o.replies[i], at[i + 1]))
      && (o.code == SUCCESS ==> o.completed == |ps|)
      && if size.Got? && size.value <= |rsp| && n.Got? && n.value == count
         then && at[0] == n.rest
              && forall r, rest :: o.completed < |ps| ==> !Answers(ps[o.completed], at[o.completed], r, rest)
         else o.completed == 0 && o.code != SUCCESS
  {
    var n := ParseVarint(ParseWord(rsp, 4).rest);
    at := LongestRun(ps, n.rest);
    hide TakeReplies, TakeReply, Answers, ParseWord, ParseVarint;
    if Receive(count, ps, rsp) != TakeReplies(ps, n.rest) { at := [rsp]; }
  }

  // --------------------------------------------------------------- the proof

  /** The responses written for a batch, followed by `rest`. */
  function Responses(impl: Impl, s: State, cmds: seq<Cmd>, rest: seq<byte>): seq<byte>
    decreases |cmds|
  {
    if cmds == [] then rest
    else
      var (s, r) := Exec(impl, s, cmds[0]);
      match r
      case Ok(resp) => Message(OkFields(TypeOf(cmds[0]), resp), Responses(impl, s, cmds[1..], rest))
      case Refused(t, code) => Message(ErrorFields(impl, t, code), rest)
      case _ => rest
  }

  lemma {:induction false} ResponsesRest(impl: Impl, s: State, cmds: seq<Cmd>, rest: seq<byte>)
    ensures Responses(impl, s, cmds, rest) == Responses(impl, s, cmds, []) + rest
    decreases |cmds|
  {
    if cmds == [] {
    } else {
      var (s', r) := Exec(impl, s, cmds[0]);
      match r
      case Ok(resp) =>
        var fs := OkFields(TypeOf(cmds[0]), resp);
        ResponsesRest(impl, s', cmds[1..], rest);
        MessageRest(fs, Responses(impl, s', cmds[1..], rest));
        MessageRest(fs, Responses(impl, s', cmds[1..], []));
      case Refused(t, code) =>
        MessageRest(ErrorFields(impl, t, code), rest);
      case _ =>
    }
  }

  /** One encoded command through the whole handler, when the reply fits. */
  lemma HandleExec(impl: Impl, s: State, c: Cmd, rest: seq<byte>, out: seq<byte>, cap: nat)
    requires Portable(c) && !Exec(impl, s, c).1.Crash?
    requires |out| + |Responses(impl, s, [c], [])| <= cap
    ensures var (s', r) := Exec(impl, s, c);
      var h := Handle(impl, s, Message(CommandFields(c), rest), out, cap);
      && h.state == s' && h.out == out + Responses(impl, s, [c], [])
      && (if r.Ok? then h.code == SUCCESS && h.rest == rest else h.code == CodeOf(r) != SUCCESS)
  {
    HeaderRoundTrip(c, rest);
    DecideExec(impl, s, c, rest);
    RefusalsAreErrors(impl, s, c);
    var (s', r) := Exec(impl, s, c);
    var fs := if r.Ok? then OkFields(TypeOf(c), r.resp) else ErrorFields(impl, r.t, r.code);
    assert Responses(impl, s, [c], []) == Message(fs, []);
    var _ := PutAllExact(out, cap, fs);
  }

  lemma CommandNonEmpty(c: Cmd)
    ensures Message(CommandFields(c), []) != []
  {
    VarintNonEmpty(TypeOf(c));
  }

  /** The server's loop over an encoded batch runs its commands directly, and appends exactly their
      responses; bytes after the last command are left alone. */
  lemma {:induction false} ServeDirect(impl: Impl, s: State, cmds: seq<Cmd>, abort: bool, rest: seq<byte>,
      out: seq<byte>, cap: nat)
    requires forall c :: c in cmds ==> Portable(c)
    requires Direct(impl, s, cmds).stop != Some(Crash)
    requires abort || |cmds| <= 1 || Direct(impl, s, cmds).stop.None?
    requires |out| + |Responses(impl, s, cmds, [])| <= cap
    ensures var run := Direct(impl, s, cmds);
      var v := ServeLoop(impl, s, |cmds|, abort, Body(cmds, rest), out, cap, SUCCESS);
      && v.state == run.state && v.out == out + Responses(impl, s, cmds, [])
      && (if run.stop.None? then v.code == SUCCESS && v.left == 0 && v.rest == rest
          else v.code == CodeOf(run.stop.value) != SUCCESS && (abort ==> v.left == |cmds| - |run.replies|))
    decreases |cmds|
  {
    hide Exec, Handle, Message;
    if cmds == [] {
      assert out + [] == out;
    } else {
      var c := cmds[0];
      var (s', r) := Exec(impl, s, c);
      var b := Body(cmds, rest);
      MessageRest(CommandFields(c), Body(cmds[1..], rest));
      CommandNonEmpty(c);
      RefusalsAreErrors(impl, s, c);
      if r.Ok? {
        var fs := OkFields(TypeOf(c), r.resp);
        MessageRest(fs, Responses(impl, s', cmds[1..], []));
        assert Responses(impl, s, [c], []) == Message(fs, []);
        HandleExec(impl, s, c, Body(cmds[1..], rest), out, cap);
        ServeDirect(impl, s', cmds[1..], abort, rest, out + Message(fs, []), cap);
      } else {
        assert Responses(impl, s, [c], []) == Responses(impl, s, cmds, []);
        HandleExec(impl, s, c, Body(cmds[1..], rest), out, cap);
        if !abort {
          assert cmds[1..] == [];
        }
      }
    }
  }

  /** The pending entries of a batch, in encoding order, with room for what the run returns. */
  predicate Expecting(ps: seq<Pending>, cmds: seq<Cmd>, run: Run)
    requires |run.replies| <= |cmds|
  {
    && |ps| == |cmds|
    && (forall i :: 0 <= i < |cmds| ==> ps[i].t == TypeOf(cmds[i]))
    && (forall i :: 0 <= i < |run.replies| ==> Holds(ps[i], run.replies[i]))
  }

  lemma {:induction false} RunLength(impl: Impl, s: State, cmds: seq<Cmd>)
    ensures var run := Direct(impl, s, cmds);
      |run.replies| <= |cmds| && (run.stop.None? <==> |run.replies| == |cmds|)
    decreases |cmds|
  {
    if cmds == [] || !Exec(impl, s, cmds[0]).1.Ok? {
    } else {
      RunLength(impl, Exec(impl, s, cmds[0]).0, cmds[1..]);
    }
  }

  /** What the client makes of a response, from the run that produced it. */
  function Seen(cmds: seq<Cmd>, run: Run): Finished
    requires run.stop.Some? ==> run.stop.value.Refused? && |run.replies| < |cmds|
  {
    Finished(|run.replies|, run.replies,
             if run.stop.None? then SUCCESS else ClientCode(TypeOf(cmds[|run.replies|]), run.stop.value))
  }

  lemma {:induction false} TakeDirect(impl: Impl, s: State, cmds: seq<Cmd>, ps: seq<Pending>, rest: seq<byte>)
    requires var run := Direct(impl, s, cmds);
      && |run.replies| <= |cmds| && Expecting(ps, cmds, run)
      && (run.stop.Some? ==> run.stop.value.Refused? && PlainCode(run.stop.value.code) && |run.replies| < |cmds|)
    ensures TakeReplies(ps, Responses(impl, s, cmds, rest)) == Seen(cmds, Direct(impl, s, cmds))
    decreases |cmds|
  {
    hide Exec, TakeReply, Message, OkFields, ErrorFields, Holds, Fits;
    if cmds == [] {
    } else {
      var (s', r) := Exec(impl, s, cmds[0]);
      RefusalsAreErrors(impl, s, cmds[0]);
      if r.Ok? {
        var more := Responses(impl, s', cmds[1..], rest);
        var run, run' := Direct(impl, s, cmds), Direct(impl, s', cmds[1..]);
        assert run.replies[0] == r.resp && run.replies[1..] == run'.replies;
        TakeOk(ps[0], r.resp, more);
        RunLength(impl, s', cmds[1..]);
        assert forall i :: 0 <= i < |run'.replies| ==> ps[1..][i] == ps[i + 1] && run'.replies[i] == run.replies[i + 1];
        TakeDirect(impl, s', cmds[1..], ps[1..], rest);
        assert cmds[1..][|run'.replies|..] == cmds[|run.replies|..];
      } else {
        TakeRefused(impl, ps[0], r, rest);
      }
    }
  }

  lemma {:induction false} CancelKeeps(out: seq<byte>, cap: nat, n: nat)
    requires |out| <= cap
    ensures out <= CancelRest(out, cap, n) && |CancelRest(out, cap, n)| <= cap
    decreases n
  {
    if n == 0 {
    } else {
      var _ := PutAllExact(out, cap, CancelledFields());
      CancelKeeps(PutAll(out, cap, CancelledFields()).data, cap, n - 1);
    }
  }

  lemma FrameParses(count: nat, mode: byte, body: seq<byte>)
    requires count < VARINT_LIMIT && |Frame(count, mode, body)| < 0x1_0000_0000
    ensures var f := Frame(count, mode, body);
      && |f| >= 4 && ParseWord(f, 4) == Got(|f|, f[4..])
      && ParseVarint(f[4..]) == Got(count, [mode] + body)
  {
    hide ParseVarint, Varint, Le, FromLe;
    var tail := Varint(count) + [mode] + body;
    var f := Frame(count, mode, body);
    LeLength(4 + |tail|, 4);
    Pow256Values();
    assert f[4..] == tail;
    WordRoundTrip(4 + |tail|, 4, tail);
    assert tail == Varint(count) + ([mode] + body);
    VarintRoundTrip(count, [mode] + body);
  }

  lemma ReceiveParses(count: nat, ps: seq<Pending>, out: seq<byte>, rest: seq<byte>)
    requires count < VARINT_LIMIT && |out| < 0x1_0000_0000 && out == Opening(count) + rest
    ensures Receive(count, ps, Le(|out|, 4) + out[4..]) == TakeReplies(ps, rest)
  {
    hide TakeReplies, ParseVarint, Varint, Le, FromLe;
    var rsp := Le(|out|, 4) + out[4..];
    Pow256Values();
    LeLength(|out|, 4);
    WordRoundTrip(|out|, 4, out[4..]);
    assert out[4..] == Varint(count) + rest;
    VarintRoundTrip(count, rest);
  }

  /** The batch reaches its server: what the run may be, and how large the messages. */
  predicate Delivered(cmds: seq<Cmd>, run: Run, responses: seq<byte>, junk: seq<byte>, mode: byte, cap: nat) {
    && 0 < |cmds| < VARINT_LIMIT && (mode != 0 || |cmds| == 1 || run.stop.None?)
    && (forall c :: c in cmds ==> Portable(c))
    && (run.stop.Some? ==> run.stop.value.Refused? && PlainCode(run.stop.value.code))
    && |Frame(|cmds|, mode, Body(cmds, junk))| < 0x1_0000_0000
    && |Opening(|cmds|)| + |responses| <= cap < 0x1_0000_0000
  }

  /** The response to an encoded batch: its responses, then what was written about cancelled commands. */
  lemma ResponseToBatch(impl: Impl, s: State, cmds: seq<Cmd>, mode: byte, junk: seq<byte>, cap: nat)
    returns (tail: seq<byte>)
    requires Delivered(cmds, Direct(impl, s, cmds), Responses(impl, s, cmds, []), junk, mode, cap)
    ensures var out := Opening(|cmds|) + Responses(impl, s, cmds, tail);
      && 4 <= |out| <= cap
      && Respond(impl, s, |cmds|, mode, Body(cmds, junk), cap)
           == Service(Direct(impl, s, cmds).state, Some(Le(|out|, 4) + out[4..]))
  {
    hide Exec, Handle, Varint, Le, Responses, Body, ServeLoop;
    var n := |cmds|;
    var body := Body(cmds, junk);
    OpeningFits(n, cap);
    ServeDirect(impl, s, cmds, mode != 0, junk, Opening(n), cap);
    var v := ServeLoop(impl, s, n, mode != 0, body, Opening(n), cap, SUCCESS);
    var out := if v.code != SUCCESS && mode != 0 then CancelRest(v.out, cap, v.left) else v.out;
    CancelKeeps(v.out, cap, v.left);
    tail := out[|v.out|..];
    ResponsesRest(impl, s, cmds, tail);
    assert out == Opening(n) + Responses(impl, s, cmds, tail);
  }

  /** A batch of commands that is encoded, sent, decoded, dispatched, answered, sent back and decoded makes
      exactly the calls, and gives the client exactly the results, of running its commands directly up to
      the first one refused.  Bytes that a failed encoder left behind the last command change nothing. */
  lemma BatchRefinement(impl: Impl, s: State, cmds: seq<Cmd>, ps: seq<Pending>, mode: byte, junk: seq<byte>, cap: nat)
    requires Delivered(cmds, Direct(impl, s, cmds), Responses(impl, s, cmds, []), junk, mode, cap)
    requires |Direct(impl, s, cmds).replies| <= |cmds| && Expecting(ps, cmds, Direct(impl, s, cmds))
    ensures var run := Direct(impl, s, cmds);
      var served := Serve(impl, s, Frame(|cmds|, mode, Body(cmds, junk)), cap);
      && (run.stop.Some? ==> |run.replies| < |cmds|)
      && served.rsp.Some? && served.state == run.state
      && Receive(|cmds|, ps, served.rsp.value) == Seen(cmds, run)
  {
    hide Direct, Frame, Opening, Responses, Receive, TakeReplies, Body, Respond, Le;
    var n := |cmds|;
    var body := Body(cmds, junk);
    RunLength(impl, s, cmds);
    FrameParses(n, mode, body);
    assert ([mode] + body)[1..] == body;
    var tail := ResponseToBatch(impl, s, cmds, mode, junk, cap);
    var responses := Responses(impl, s, cmds, tail);
    ReceiveParses(n, ps, Opening(n) + responses, responses);
    TakeDirect(impl, s, cmds, ps, tail);
  }

  /** A batch that is sent again when no response is expected any more runs again, and the client reports
      success and nothing completed. */
  lemma BatchAgain(impl: Impl, s: State, cmds: seq<Cmd>, mode: byte, junk: seq<byte>, cap: nat)
    requires Delivered(cmds, Direct(impl, s, cmds), Responses(impl, s, cmds, []), junk, mode, cap)
    ensures var served := Serve(impl, s, Frame(|cmds|, mode, Body(cmds, junk)), cap);
      && served.rsp.Some? && served.state == Direct(impl, s, cmds).state
      && Receive(|cmds|, [], served.rsp.value) == Finished(0, [], SUCCESS)
  {
    hide Direct, Frame, Opening, Responses, Receive, Body, Respond, Le;
    var n := |cmds|;
    var body := Body(cmds, junk);
    FrameParses(n, mode, body);
    assert ([mode] + body)[1..] == body;
    var tail := ResponseToBatch(impl, s, cmds, mode, junk, cap);
    var responses := Responses(impl, s, cmds, tail);
    ReceiveParses(n, [], Opening(n) + responses, responses);
  }

  // ------------------------------------------- responses on an aborted batch

  function Copies(b: seq<byte>, n: nat): seq<byte> {
    if n == 0 then [] else b + Copies(b, n - 1)
  }

  lemma {:induction false} CancelCopies(out: seq<byte>, cap: nat, n: nat)
    requires |out| + |Copies(Message(CancelledFields(), []), n)| <= cap
    ensures CancelRest(out, cap, n) == out + Copies(Message(CancelledFields(), []), n)
    decreases n
  {
    if n == 0 {
      assert out + [] == out;
    } else {
      var m := Message(CancelledFields(), []);
      var _ := PutAllExact(out, cap, CancelledFields());
      CancelCopies(out + m, cap, n - 1);
      assert out + m + Copies(m, n - 1) == out + Copies(m, n);
    }
  }

  /** A response says it holds one response per command.  When the batch is aborted it holds one more:
      the command that failed is both answered and counted among the cancelled ones. */
  lemma ResponseCount(impl: Impl, s: State, cmds: seq<Cmd>, mode: byte, junk: seq<byte>, cap: nat)
    requires Delivered(cmds, Direct(impl, s, cmds), Responses(impl, s, cmds, []), junk, mode, cap)
    requires mode != 0
    requires var copies := Copies(Message(CancelledFields(), []), |cmds|);
      |Opening(|cmds|)| + |Responses(impl, s, cmds, [])| + |copies| <= cap
    ensures var run := Direct(impl, s, cmds);
      var served := Respond(impl, s, |cmds|, mode, Body(cmds, junk), cap).rsp;
      var cancelled := if run.stop.None? then 0 else |cmds| - |run.replies|;
      && |run.replies| <= |cmds|
      && (run.stop.Some? ==> |run.replies| + 1 + cancelled == |cmds| + 1)
      && served.Some? && var rsp := served.value;
      rsp == Le(|rsp|, 4) + Varint(|cmds|) + Responses(impl, s, cmds, [])
               + Copies(Message(CancelledFields(), []), cancelled)
  {
    hide Exec, Handle, Varint, Le, Message, Body, Responses, ServeLoop, Direct, Copies, CancelRest, Opening, Frame;
    hide CancelledFields, Respond, Portable;
    var run := Direct(impl, s, cmds);
    var n := |cmds|;
    var cancelled := if run.stop.None? then 0 else n - |run.replies|;
    var m := Message(CancelledFields(), []);
    RunLength(impl, s, cmds);
    ServeDirect(impl, s, cmds, true, junk, Opening(n), cap);
    var v := ServeLoop(impl, s, n, true, Body(cmds, junk), Opening(n), cap, SUCCESS);
    CopiesGrow(m, cancelled, n);
    CancelCopies(v.out, cap, cancelled);
    NoCopies(m);
    var out := v.out + Copies(m, cancelled);
    Patched(n, Responses(impl, s, cmds, []), Copies(m, cancelled));
    assert out == if v.code != SUCCESS then CancelRest(v.out, cap, v.left) else v.out;
    Responded(impl, s, n, mode, Body(cmds, junk), cap);
    assert Respond(impl, s, n, mode, Body(cmds, junk), cap).rsp == Some(Le(|out|, 4) + out[4..]);
  }

  lemma NoCopies(m: seq<byte>)
    ensures Copies(m, 0) == []
  {}

  lemma Responded(impl: Impl, s: State, n: nat, mode: byte, b: seq<byte>, cap: nat)
    requires mode != 0 && n < 0x1_0000_0000 && |Opening(n)| <= cap
    ensures var v := ServeLoop(impl, s, n, true, b, Opening(n), cap, SUCCESS);
      var out := if v.code != SUCCESS then CancelRest(v.out, cap, v.left) else v.out;
      |out| >= 4 ==> Respond(impl, s, n, mode, b, cap) == Service(v.state, Some(Le(|out|, 4) + out[4..]))
  {
    OpeningFits(n, cap);
    hide ServeLoop, CancelRest, Opening, Le;
  }

  /** A response with its length patched in. */
  lemma Patched(n: nat, responses: seq<byte>, cancelled: seq<byte>)
    ensures var out := Opening(n) + responses + cancelled;
      var rsp := Le(|out|, 4) + out[4..];
      |out| >= 4 && |rsp| == |out| && rsp == Le(|rsp|, 4) + Varint(n) + responses + cancelled
  {
    hide Varint, Le;
    LeLength(0, 4);
    var out := Opening(n) + responses + cancelled;
    LeLength(|out|, 4);
    assert out[4..] == Varint(n) + responses + cancelled;
  }

  lemma {:induction false} CopiesGrow(b: seq<byte>, k: nat, n: nat)
    requires k <= n
    ensures |Copies(b, k)| <= |Copies(b, n)|
    decreases n
  {
    if k == n {
    } else {
      CopiesGrow(b, k, n - 1);
    }
  }

  /** A request that can be read is left without a response if and only if it counts 2^32 commands or
      more, says that failures abort it, and one fails. */
  lemma CancelNeverEnds(impl: Impl, s: State, count: nat, mode: byte, b: seq<byte>, cap: nat)
    ensures Respond(impl, s, count, mode, b, cap).rsp.None?
      <==> count >= 0x1_0000_0000 && mode != 0
           && ServeLoop(impl, s, count, true, b, OpeningIn(count, cap), cap, SUCCESS).code != SUCCESS
  {
    hide ServeLoop, CancelRest, OpeningIn;
  }

  /** For instance: closing a device that does not exist, in a batch of one.  The response says it holds one
      reply; it holds the refusal, and a cancelled one. */
  lemma AbortedClose(impl: Impl, s: State, dev: nat, cap: nat)
    requires |s.devices| <= dev < VARINT_LIMIT && 2048 <= cap < 0x1_0000_0000
    ensures var rsp := Respond(impl, s, 1, 2, Body([Close(dev)], []), cap).rsp;
      && rsp.Some?
      && rsp.value == Le(|rsp.value|, 4) + Varint(1) + Message(ErrorFields(impl, DEVICE_OPEN, INVALID_DEVICE), [])
                      + Message(CancelledFields(), [])
  {
    hide Message, Direct, Responses, ErrorFields, Copies, Body, Varint, Le, Respond, CancelledFields, Frame;
    var cmds := [Close(dev)];
    CloseDirect(impl, s, dev);
    RefusalSize(impl, DEVICE_OPEN, INVALID_DEVICE);
    VarintSize(1);
    CloseSize(dev);
    OneCopy(Message(CancelledFields(), []));
    ResponseCount(impl, s, cmds, 2, [], cap);
  }

  lemma CloseDirect(impl: Impl, s: State, dev: nat)
    requires |s.devices| <= dev
    ensures var cmds := [Close(dev)];
      && Direct(impl, s, cmds) == Run(s, [], Some(Refused(DEVICE_OPEN, INVALID_DEVICE)))
      && Responses(impl, s, cmds, []) == Message(ErrorFields(impl, DEVICE_OPEN, INVALID_DEVICE), [])
  {
    hide Message, ErrorFields;
    assert [Close(dev)][1..] == [];
  }

  lemma OneCopy(m: seq<byte>)
    ensures Copies(m, 1) == m
  {
    assert Copies(m, 1) == m + Copies(m, 0) && m + [] == m;
  }

  lemma RefusalSize(impl: Impl, t: u64, code: u64)
    requires code < VARINT_LIMIT
    ensures |Message(ErrorFields(impl, t, code), [])| <= 1053 && |Message(CancelledFields(), [])| <= 39
  {
    var text := Fit(impl.errorText(t, code), 1024);
    VarintSize(t);
    VarintSize(code);
    VarintSize(|text|);
    VarintSize(NONE);
    VarintSize(CANCELLED);
    VarintSize(9);
    hide Varint;
    assert Message(Put(Str(text), Done), []) == Varint(|text|) + text + [];
    assert Message(Put(Str(CANCELLED_TEXT), Done), []) == Varint(9) + CANCELLED_TEXT + [];
  }

  lemma CloseSize(dev: u64)
    ensures |Frame(1, 2, Body([Close(dev)], []))| < 100
  {
    VarintSize(dev);
    VarintSize(DEVICE_CLOSE);
    VarintSize(1);
    assert [Close(dev)][1..] == [];
    hide Varint;
    assert |Message(Put(V(dev), Done), [])| <= 10;
    assert |Message(CommandFields(Close(dev)), [])| <= 20;
    assert |Body([Close(dev)], [])| <= 20;
    LeLength(4 + |Varint(1) + [2] + Body([Close(dev)], [])|, 4);
    hide Le, Body;
  }
}
