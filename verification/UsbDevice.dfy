/**
  The transfer book-keeping of USBDeviceLinux (usb_client/usb_device_linux.cpp): a queue for
  transfers that do not fit, one in-flight deque for each endpoint, and a completed queue.
  libusb itself is an oracle: whether it accepts a submission, and which callbacks it makes.
 */
module UsbDevice {
  import opened Wire

  const MAX_URB_SIZE := 32768
  const MAX_IN_FLIGHT := 32

  datatype Status = SUCCEEDED | CANCELLED | FAILED
  datatype EndpointType = CONTROL | ISOCHRONOUS | BULK | INTERRUPT
  datatype Endpoint = Endpoint(address: byte, kind: EndpointType)

  /** A token with its libusb transfer; the token also stands for the transfer's address.
      `memory` names the buffer it fills. */
  datatype Transfer = Transfer(token: nat, endpoint: byte, memory: nat, status: Status, used: nat)

  type Flights = map<byte, seq<Transfer>>

  /** `waiting` is the control point of completeTransfer: inside its libusb loop or not.
      `asked` holds the tokens libusb was told to cancel.  The last three fields are histories:
      tokens handed back, tokens whose transfer was thrown away when resubmission failed, and
      tokens spent on a submission that raised. */
  datatype Usb = Usb(nextToken: nat, queued: seq<Transfer>, flights: Flights, count: int,
                     completed: seq<Transfer>, flag: bool, waiting: bool, asked: set<nat>,
                     returned: seq<nat>, dropped: seq<nat>, refused: seq<nat>)

  const FRESH := Usb(0, [], map[], 0, [], false, false, {}, [], [], [])

  function Flight(fs: Flights, address: byte): seq<Transfer> {
    if address in fs then fs[address] else []
  }

  // ---------------------------------------------------------------- operations

  /** The last endpoint record with this address. */
  function Find(eps: seq<Endpoint>, address: byte): (k: int)
    ensures -1 <= k < |eps|
    ensures 0 <= k ==> eps[k].address == address
    ensures k == -1 <==> forall i :: 0 <= i < |eps| ==> eps[i].address != address
  {
    if eps == [] then -1
    else if eps[|eps| - 1].address == address then |eps| - 1 else Find(eps[..|eps| - 1], address)
  }

  predicate Usable(eps: seq<Endpoint>, address: byte, direction: byte, size: nat) {
    var at := Find(eps, address);
    && 0 <= at && size <= MAX_URB_SIZE && direction == (if address < 128 then 0 else 128)
    && (eps[at].kind == BULK || eps[at].kind == INTERRUPT)
  }

  /** submitTransfer; `accepted` is libusb_submit_transfer's answer. */
  function Submit(u: Usb, eps: seq<Endpoint>, address: byte, direction: byte, memory: nat, size: nat,
                  accepted: bool): Usb
  {
    var v := u.(nextToken := u.nextToken + 1);
    if Usable(eps, address, direction, size)
    then Place(v, Transfer(u.nextToken, address, memory, SUCCEEDED, 0), accepted)
    else v.(refused := v.refused + [u.nextToken])
  }

  /** Straight to libusb if the endpoint has room, else into the queue. */
  function Place(u: Usb, t: Transfer, accepted: bool): Usb {
    var q := Flight(u.flights, t.endpoint);
    if MAX_IN_FLIGHT <= |q| then u.(queued := u.queued + [t], flights := u.flights[t.endpoint := q])
    else if accepted then u.(flights := u.flights[t.endpoint := q + [t]], count := u.count + 1)
    else u.(refused := u.refused + [t.token], flights := u.flights[t.endpoint := q])
  }

  /** cancelTransfers: ask libusb to cancel all it has, and complete the queue at once. */
  function Cancel(u: Usb): Usb {
    u.(asked := u.asked + AllTokens(u.flights), completed := u.completed + AllCancelled(u.queued), queued := [])
  }

  function AllTokens(fs: Flights): set<nat> {
    set a <- fs.Keys, t <- fs[a] :: t.token
  }

  function AllCancelled(q: seq<Transfer>): seq<Transfer> {
    if q == [] then [] else [q[0].(status := CANCELLED)] + AllCancelled(q[1..])
  }

  /** The last transfer of the deque with this token. */
  function LastAt(q: seq<Transfer>, token: nat): (k: int)
    ensures -1 <= k < |q|
    ensures k == -1 <==> forall i :: 0 <= i < |q| ==> q[i].token != token
    ensures 0 <= k ==> q[k].token == token
  {
    if q == [] then -1
    else if q[|q| - 1].token == token then |q| - 1 else LastAt(q[..|q| - 1], token)
  }

  /** transfer_complete.  `lucky` is how many resubmissions libusb takes before it refuses one. */
  function Callback(u: Usb, token: nat, address: byte, status: Status, used: nat, lucky: nat): Usb {
    Refill(Land(u, token, address, status, used), address, lucky)
  }

  function Land(u: Usb, token: nat, address: byte, status: Status, used: nat): Usb {
    var q := Flight(u.flights, address);
    var k := LastAt(q, token);
    if k < 0 then u.(flights := u.flights[address := q])
    else u.(completed := u.completed + [q[k].(status := status, used := used)],
            flights := u.flights[address := q[..k] + q[k + 1..]], count := u.count - 1, flag := true)
  }

  function Launched(u: Usb, address: byte): Usb
    requires u.queued != []
  {
    u.(queued := u.queued[1..], flights := u.flights[address := Flight(u.flights, address) + [u.queued[0]]],
       count := u.count + 1)
  }

  function Refill(u: Usb, address: byte, lucky: nat): Usb
    decreases |u.queued|
  {
    var q := Flight(u.flights, address);
    if MAX_IN_FLIGHT <= |q| || u.queued == [] then u
    else if lucky == 0 then u.(queued := u.queued[1..], dropped := u.dropped + [u.queued[0].token])
    else Refill(Launched(u, address), address, lucky - 1)
  }

  datatype Taken = None | Some(transfer: Transfer)

  predicate MustWait(u: Usb) { u.completed == [] && u.count > 0 }

  /** The end of completeTransfer: the front of the completed queue, or -1 (`None`). */
  function TakeFront(u: Usb): (Usb, Taken) {
    if u.completed == [] then (u, None)
    else (u.(completed := u.completed[1..], returned := u.returned + [u.completed[0].token]), Some(u.completed[0]))
  }

  /** One callback that libusb makes. */
  datatype Call = Call(token: nat, address: byte, status: Status, used: nat, lucky: nat)

  function Calls(u: Usb, calls: seq<Call>): Usb
    decreases |calls|
  {
    if calls == [] then u
    else
      var c := calls[0]; Calls(Callback(u, c.token, c.address, c.status, c.used, c.lucky), calls[1..])
  }

  /** The libusb loop: batch after batch of callbacks until the flag is up, or for good. */
  function Pump(u: Usb, batches: seq<seq<Call>>): Usb
    decreases |batches|
  {
    if u.flag || batches == [] then u else Pump(Calls(u, batches[0]), batches[1..])
  }

  datatype Completion = Stuck(usb: Usb) | Ended(usb: Usb, taken: Taken)

  function Complete(u: Usb, batches: seq<seq<Call>>): Completion {
    if !MustWait(u) then var (v, t) := TakeFront(u); Ended(v, t)
    else
      var v := Pump(u.(waiting := true), batches);
      if !v.flag then Stuck(v)
      else var (w, t) := TakeFront(v.(flag := false, waiting := false)); Ended(w, t)
  }

  // ---------------------------------------------------------------- book-keeping

  /** How often a token occurs in a queue, in the deques of some endpoints, and anywhere. */
  function Tally(q: seq<Transfer>, k: nat): nat {
    if q == [] then 0 else (if q[0].token == k then 1 else 0) + Tally(q[1..], k)
  }

  function InFlight(eps: seq<Endpoint>, fs: Flights, k: nat): nat {
    if eps == [] then 0 else Tally(Flight(fs, eps[0].address), k) + InFlight(eps[1..], fs, k)
  }

  function Flying(eps: seq<Endpoint>, fs: Flights): nat {
    if eps == [] then 0 else |Flight(fs, eps[0].address)| + Flying(eps[1..], fs)
  }

  function Places(u: Usb, eps: seq<Endpoint>, k: nat): nat {
    Tally(u.queued, k) + InFlight(eps, u.flights, k) + Tally(u.completed, k)
    + Among(u.returned, k) + Among(u.dropped, k) + Among(u.refused, k)
  }

  function Among(s: seq<nat>, k: nat): nat {
    if s == [] then 0 else (if s[|s| - 1] == k then 1 else 0) + Among(s[..|s| - 1], k)
  }

  lemma AmongSnoc(s: seq<nat>, x: nat, k: nat)
    ensures Among(s + [x], k) == Among(s, k) + if x == k then 1 else 0
  {
    assert (s + [x])[..|s|] == s;
  }

  lemma {:induction false} TallyJoin(p: seq<Transfer>, q: seq<Transfer>, k: nat)
    ensures Tally(p + q, k) == Tally(p, k) + Tally(q, k)
  {
    if p == [] { assert p + q == q; }
    else { assert (p + q)[0] == p[0] && (p + q)[1..] == p[1..] + q; TallyJoin(p[1..], q, k); }
  }

  lemma TallySnoc(q: seq<Transfer>, t: Transfer, k: nat)
    ensures Tally(q + [t], k) == Tally(q, k) + if t.token == k then 1 else 0
  {
    TallyJoin(q, [t], k);
    assert [t][1..] == [];
  }

  lemma TallyErase(q: seq<Transfer>, i: nat, k: nat)
    requires i < |q|
    ensures Tally(q, k) == Tally(q[..i] + q[i + 1..], k) + if q[i].token == k then 1 else 0
  {
    assert q == (q[..i] + [q[i]]) + q[i + 1..];
    TallyJoin(q[..i] + [q[i]], q[i + 1..], k);
    TallySnoc(q[..i], q[i], k);
    TallyJoin(q[..i], q[i + 1..], k);
  }

  lemma {:induction false} TallyCancelled(q: seq<Transfer>, k: nat)
    ensures Tally(AllCancelled(q), k) == Tally(q, k) && |AllCancelled(q)| == |q|
  {
    if q == [] {
    } else {
      TallyCancelled(q[1..], k);
      assert AllCancelled(q)[1..] == AllCancelled(q[1..]);
    }
  }

  ghost predicate Distinct(eps: seq<Endpoint>) {
    forall i, j :: 0 <= i < j < |eps| ==> eps[i].address != eps[j].address
  }

  predicate Listed(eps: seq<Endpoint>, address: byte) {
    exists e <- eps :: e.address == address
  }

  lemma {:induction false} InFlightUpdate(eps: seq<Endpoint>, fs: Flights, address: byte, q: seq<Transfer>, k: nat)
    requires Distinct(eps)
    ensures
      var gs := fs[address := q];
      if Listed(eps, address)
      then InFlight(eps, gs, k) + Tally(Flight(fs, address), k) == InFlight(eps, fs, k) + Tally(q, k)
        && Flying(eps, gs) + |Flight(fs, address)| == Flying(eps, fs) + |q|
      else InFlight(eps, gs, k) == InFlight(eps, fs, k) && Flying(eps, gs) == Flying(eps, fs)
  {
    if eps == [] {
    } else {
      InFlightUpdate(eps[1..], fs, address, q, k);
      assert eps == [eps[0]] + eps[1..];
      if eps[0].address == address {
        assert eps[0] in eps && !Listed(eps[1..], address);
      } else {
        assert Listed(eps, address) <==> Listed(eps[1..], address);
      }
    }
  }

  lemma {:induction false} FindLast(eps: seq<Endpoint>, k: nat)
    requires k < |eps| && forall j :: k < j < |eps| ==> eps[j].address != eps[k].address
    ensures Find(eps, eps[k].address) == k
  {
    if k < |eps| - 1 {
      assert eps[..|eps| - 1][k] == eps[k];
      FindLast(eps[..|eps| - 1], k);
    }
  }

  /** A submission spends a token.  It is taken if the last record of its address is a bulk or interrupt
      endpoint, the address is of the direction asked for, and it is for at most 32768 bytes: in flight if there
      is room there and libusb accepts it, in the queue if there is none.  Anything else is refused. */
  lemma SubmitTakes(u: Usb, eps: seq<Endpoint>, k: int, address: byte, direction: byte, memory: nat, size: nat,
                    accepted: bool)
    requires -1 <= k < |eps| && (k >= 0 ==> eps[k].address == address)
    requires forall j :: k < j < |eps| ==> eps[j].address != address
    ensures var v := Submit(u, eps, address, direction, memory, size, accepted);
      var q := Flight(u.flights, address);
      var t := Transfer(u.nextToken, address, memory, SUCCEEDED, 0);
      var good := k >= 0 && eps[k].kind in {BULK, INTERRUPT} && size <= 32768
                  && direction == (if address >= 128 then 128 else 0);
      var full := |q| >= 32;
      && v.nextToken == u.nextToken + 1 && v.completed == u.completed && v.asked == u.asked
      && v.queued == u.queued + (if good && full then [t] else [])
      && Flight(v.flights, address) == q + (if good && !full && accepted then [t] else [])
      && v.count == u.count + (if good && !full && accepted then 1 else 0)
      && v.refused == u.refused + (if good && (full || accepted) then [] else [u.nextToken])
      && (forall a: byte :: a != address ==> Flight(v.flights, a) == Flight(u.flights, a))
  {
    if k >= 0 { FindLast(eps, k); }
  }

  /** A callback completes the last transfer of the deque with its token, with the status and length that
      libusb gave it, and leaves the others in order; an unknown token completes nothing. */
  lemma LandMoves(u: Usb, token: nat, address: byte, status: Status, used: nat, k: int)
    requires -1 <= k < |Flight(u.flights, address)|
    requires k >= 0 ==> Flight(u.flights, address)[k].token == token
    requires forall j :: k < j < |Flight(u.flights, address)| ==> Flight(u.flights, address)[j].token != token
    ensures var q := Flight(u.flights, address);
      var v := Land(u, token, address, status, used);
      && v.queued == u.queued && v.asked == u.asked && v.nextToken == u.nextToken
      && (forall a: byte :: a != address ==> Flight(v.flights, a) == Flight(u.flights, a))
      && (if k < 0 then Flight(v.flights, address) == q && v.completed == u.completed && v.count == u.count
          else && Flight(v.flights, address) == q[..k] + q[k + 1..] && v.count == u.count - 1 && v.flag
               && v.completed == u.completed + [Transfer(token, q[k].endpoint, q[k].memory, status, used)])
  {
    LastIs(Flight(u.flights, address), token, k);
  }

  lemma {:induction false} LastIs(q: seq<Transfer>, token: nat, k: int)
    requires -1 <= k < |q| && (k >= 0 ==> q[k].token == token)
    requires forall j :: k < j < |q| ==> q[j].token != token
    ensures LastAt(q, token) == k
  {
    if k < |q| - 1 { LastIs(q[..|q| - 1], token, k); }
  }

  /** The refill moves transfers from the front of the queue to the end of the deque, in order, until the queue is
      empty or the deque is full; a transfer that libusb refuses is thrown away and ends it. */
  lemma {:induction false} RefillMoves(u: Usb, address: byte, lucky: nat) returns (k: nat)
    ensures k <= |u.queued| && k <= lucky
    ensures var q := Flight(u.flights, address);
      var v := Refill(u, address, lucky);
      var ended := k == |u.queued| || |q| + k >= 32;
      && (k > 0 ==> |q| + k <= 32)
      && Flight(v.flights, address) == q + u.queued[..k] && v.count == u.count + k && v.completed == u.completed
      && (forall a: byte :: a != address ==> Flight(v.flights, a) == Flight(u.flights, a))
      && (if ended then v.queued == u.queued[k..] && v.dropped == u.dropped
          else k == lucky && v.queued == u.queued[k + 1..] && v.dropped == u.dropped + [u.queued[k].token])
    decreases |u.queued|
  {
    hide Flight, Launched;
    var q := Flight(u.flights, address);
    if MAX_IN_FLIGHT <= |q| || u.queued == [] || lucky == 0 {
      k := 0;
      assert u.queued[0..] == u.queued;
      assert q + u.queued[..0] == q;
    } else {
      var w := Launched(u, address);
      LaunchedIs(u, address);
      RefillOn(u, address, lucky);
      var j := RefillMoves(w, address, lucky - 1);
      k := j + 1;
      RefillOneMore(u, w, Refill(w, address, lucky - 1), address, j);
    }
  }

  lemma LaunchedIs(u: Usb, address: byte)
    requires u.queued != []
    ensures var w := Launched(u, address);
      && w.queued == u.queued[1..] && w.count == u.count + 1 && w.completed == u.completed && w.dropped == u.dropped
      && Flight(w.flights, address) == Flight(u.flights, address) + [u.queued[0]]
      && forall a: byte :: a != address ==> Flight(w.flights, a) == Flight(u.flights, a)
  {}

  /** Queue and deque after one transfer moved, and j more. */
  lemma RefillOneMore(u: Usb, w: Usb, v: Usb, address: byte, j: nat)
    requires u.queued != [] && w == Launched(u, address) && j <= |w.queued|
    requires Flight(v.flights, address) == Flight(w.flights, address) + w.queued[..j]
    requires forall a: byte :: a != address ==> Flight(v.flights, a) == Flight(w.flights, a)
    ensures Flight(v.flights, address) == Flight(u.flights, address) + u.queued[..j + 1]
    ensures |Flight(w.flights, address)| == |Flight(u.flights, address)| + 1
    ensures forall a: byte :: a != address ==> Flight(v.flights, a) == Flight(u.flights, a)
    ensures w.queued[j..] == u.queued[j + 1..] && |w.queued| == |u.queued| - 1
    ensures j < |w.queued| ==> w.queued[j + 1..] == u.queued[j + 2..] && w.queued[j] == u.queued[j + 1]
  {
    var q := Flight(u.flights, address);
    assert q + [u.queued[0]] + u.queued[1..][..j] == q + u.queued[..j + 1];
  }

  lemma RefillOn(u: Usb, address: byte, lucky: nat)
    requires |Flight(u.flights, address)| < MAX_IN_FLIGHT && u.queued != [] && lucky > 0
    ensures Refill(u, address, lucky) == Refill(Launched(u, address), address, lucky - 1)
  {}

  /** Cancelling completes what is queued as cancelled, in order, and asks libusb to cancel what is in flight. */
  lemma CancelsAll(u: Usb)
    ensures var v := Cancel(u);
      && v.queued == [] && v.flights == u.flights && v.count == u.count
      && |v.completed| == |u.completed| + |u.queued| && u.completed <= v.completed
      && (forall i :: 0 <= i < |u.queued| ==>
            v.completed[|u.completed| + i]
              == Transfer(u.queued[i].token, u.queued[i].endpoint, u.queued[i].memory, CANCELLED, u.queued[i].used))
      && (forall n :: n in v.asked <==> n in u.asked || exists a <- u.flights, t <- u.flights[a] :: t.token == n)
  {
    CancelledAt(u.queued);
  }

  lemma {:induction false} CancelledAt(q: seq<Transfer>)
    ensures |AllCancelled(q)| == |q|
    ensures forall i :: 0 <= i < |q| ==> AllCancelled(q)[i] == q[i].(status := CANCELLED)
  {
    if q == [] {
    } else {
      CancelledAt(q[1..]);
      assert forall i :: 0 < i < |q| ==> q[i] == q[1..][i - 1];
    }
  }

  lemma UsableListed(eps: seq<Endpoint>, address: byte, direction: byte, size: nat)
    requires Usable(eps, address, direction, size)
    ensures Listed(eps, address)
  {
    assert eps[Find(eps, address)] in eps;
  }

  lemma SubmitPlaces(u: Usb, eps: seq<Endpoint>, address: byte, direction: byte, memory: nat, size: nat,
      accepted: bool, k: nat)
    requires Distinct(eps)
    ensures var v := Submit(u, eps, address, direction, memory, size, accepted);
      && Places(v, eps, k) == Places(u, eps, k) + (if k == u.nextToken then 1 else 0)
      && v.count - Flying(eps, v.flights) == u.count - Flying(eps, u.flights)
  {
    hide Tally, InFlight, Flying, Listed, Usable, Among, Place, Flight;
    if Usable(eps, address, direction, size) {
      UsableListed(eps, address, direction, size);
      PlacePlaces(u.(nextToken := u.nextToken + 1), eps, Transfer(u.nextToken, address, memory, SUCCEEDED, 0),
            accepted, k);
    } else {
      AmongSnoc(u.refused, u.nextToken, k);
    }
  }

  lemma PlacePlaces(u: Usb, eps: seq<Endpoint>, t: Transfer, accepted: bool, k: nat)
    requires Distinct(eps) && Listed(eps, t.endpoint)
    ensures var v := Place(u, t, accepted);
      && Places(v, eps, k) == Places(u, eps, k) + (if k == t.token then 1 else 0)
      && v.count - Flying(eps, v.flights) == u.count - Flying(eps, u.flights)
  {
    var q := Flight(u.flights, t.endpoint);
    hide Tally, InFlight, Flying, Listed, Among, Flight;
    if |q| < MAX_IN_FLIGHT && accepted {
      InFlightUpdate(eps, u.flights, t.endpoint, q + [t], k);
      TallySnoc(q, t, k);
    } else {
      InFlightUpdate(eps, u.flights, t.endpoint, q, k);
      TallySnoc(u.queued, t, k);
      AmongSnoc(u.refused, t.token, k);
    }
  }

  lemma CancelPlaces(u: Usb, eps: seq<Endpoint>, k: nat)
    ensures Places(Cancel(u), eps, k) == Places(u, eps, k)
  {
    TallyCancelled(u.queued, k);
    TallyJoin(u.completed, AllCancelled(u.queued), k);
  }

  lemma LandPlaces(u: Usb, eps: seq<Endpoint>, token: nat, address: byte, status: Status, used: nat, k: nat)
    requires Distinct(eps) && Listed(eps, address)
    ensures var v := Land(u, token, address, status, used);
      && Places(v, eps, k) == Places(u, eps, k)
      && v.count - Flying(eps, v.flights) == u.count - Flying(eps, u.flights)
  {
    var q := Flight(u.flights, address);
    var i := LastAt(q, token);
    hide Tally, InFlight, Flying, Listed, LastAt, Among, Flight;
    InFlightUpdate(eps, u.flights, address, q, k);
    if 0 <= i {
      TallyErase(q, i, k);
      InFlightUpdate(eps, u.flights, address, q[..i] + q[i + 1..], k);
      TallySnoc(u.completed, q[i].(status := status, used := used), k);
    }
  }

  lemma RefillOnce(u: Usb, address: byte, lucky: nat)
    ensures Refill(u, address, lucky) ==
      if MAX_IN_FLIGHT <= |Flight(u.flights, address)| || u.queued == [] then u
      else if lucky == 0 then u.(queued := u.queued[1..], dropped := u.dropped + [u.queued[0].token])
      else Refill(Launched(u, address), address, lucky - 1)
  {}

  lemma LaunchPlaces(u: Usb, eps: seq<Endpoint>, address: byte, k: nat)
    requires Distinct(eps) && Listed(eps, address) && u.queued != []
    ensures var v := Launched(u, address);
      && Places(v, eps, k) == Places(u, eps, k)
      && v.count - Flying(eps, v.flights) == u.count - Flying(eps, u.flights)
  {
    var q, t := Flight(u.flights, address), u.queued[0];
    assert Tally(u.queued, k) == (if t.token == k then 1 else 0) + Tally(u.queued[1..], k);
    hide Tally, InFlight, Flying, Listed, Flight, Among;
    InFlightUpdate(eps, u.flights, address, q + [t], k);
    TallySnoc(q, t, k);
  }

  lemma {:induction false} RefillPlaces(u: Usb, eps: seq<Endpoint>, address: byte, lucky: nat, k: nat)
    requires Distinct(eps) && Listed(eps, address)
    ensures var v := Refill(u, address, lucky);
      && Places(v, eps, k) == Places(u, eps, k)
      && v.count - Flying(eps, v.flights) == u.count - Flying(eps, u.flights)
    decreases |u.queued|
  {
    hide InFlight, Flying, Listed, Flight, Among;
    if MAX_IN_FLIGHT <= |Flight(u.flights, address)| || u.queued == [] {
    } else if lucky == 0 {
      AmongSnoc(u.dropped, u.queued[0].token, k);
    } else {
      hide Places, Launched;
      LaunchPlaces(u, eps, address, k);
      assert |Launched(u, address).queued| < |u.queued| by { LaunchShrinks(u, address); }
      RefillPlaces(Launched(u, address), eps, address, lucky - 1, k);
    }
  }

  lemma LaunchShrinks(u: Usb, address: byte)
    requires u.queued != []
    ensures |Launched(u, address).queued| < |u.queued|
  {}

  lemma TakePlaces(u: Usb, eps: seq<Endpoint>, k: nat)
    ensures Places(TakeFront(u).0, eps, k) == Places(u, eps, k)
  {
    if u.completed != [] { AmongSnoc(u.returned, u.completed[0].token, k); }
  }

  /** The books balance: each token ever allocated is in exactly one place, the counter is the
      number in flight, no deque is over the cap, and the flag is only up inside completeTransfer
      with something completed. */
  ghost predicate Books(u: Usb, eps: seq<Endpoint>) {
    && Tidy(u, eps)
    && u.count == Flying(eps, u.flights)
    && (forall k: nat :: Places(u, eps, k) == if k < u.nextToken then 1 else 0)
  }

  ghost predicate Tidy(u: Usb, eps: seq<Endpoint>) {
    && (forall a <- u.flights :: Listed(eps, a) && |u.flights[a]| <= MAX_IN_FLIGHT)
    && (u.flag ==> u.waiting && u.completed != [])
  }

  /** Books survive any step that moves tokens about without losing or making one. */
  lemma BooksMoved(u: Usb, v: Usb, eps: seq<Endpoint>)
    requires Books(u, eps) && Tidy(v, eps) && v.nextToken == u.nextToken
    requires v.count - Flying(eps, v.flights) == u.count - Flying(eps, u.flights)
    requires forall k: nat :: Places(v, eps, k) == Places(u, eps, k)
    ensures Books(v, eps)
  {}

  lemma BooksFresh(eps: seq<Endpoint>)
    ensures Books(FRESH, eps)
  {
    NothingInFlight(eps, 0);
    forall k: nat ensures Places(FRESH, eps, k) == 0 { NothingInFlight(eps, k); }
  }

  lemma {:induction false} NothingInFlight(eps: seq<Endpoint>, k: nat)
    ensures InFlight(eps, map[], k) == 0 && Flying(eps, map[]) == 0
  {
    if eps == [] {
    } else {
      NothingInFlight(eps[1..], k);
    }
  }

  lemma BooksSubmit(u: Usb, eps: seq<Endpoint>, address: byte, direction: byte, memory: nat, size: nat, accepted: bool)
    requires Distinct(eps) && Books(u, eps)
    ensures Books(Submit(u, eps, address, direction, memory, size, accepted), eps)
  {
    var v := Submit(u, eps, address, direction, memory, size, accepted);
    SubmitTidy(u, eps, address, direction, memory, size, accepted);
    hide Places, Flying, Tidy, Submit;
    SubmitPlaces(u, eps, address, direction, memory, size, accepted, 0);
    forall k: nat ensures Places(v, eps, k) == if k < v.nextToken then 1 else 0 {
      SubmitPlaces(u, eps, address, direction, memory, size, accepted, k);
    }
  }

  lemma SubmitTidy(u: Usb, eps: seq<Endpoint>, address: byte, direction: byte, memory: nat, size: nat, accepted: bool)
    requires Tidy(u, eps)
    ensures var v := Submit(u, eps, address, direction, memory, size, accepted);
      Tidy(v, eps) && v.nextToken == u.nextToken + 1
  {
    hide Usable, Listed;
    if Usable(eps, address, direction, size) { UsableListed(eps, address, direction, size); }
  }

  lemma BooksCancel(u: Usb, eps: seq<Endpoint>)
    requires Books(u, eps)
    ensures Books(Cancel(u), eps)
  {
    forall k: nat ensures Places(Cancel(u), eps, k) == Places(u, eps, k) { CancelPlaces(u, eps, k); }
    hide Places;
    BooksMoved(u, Cancel(u), eps);
  }

  lemma LandTidy(u: Usb, eps: seq<Endpoint>, c: Call)
    requires Tidy(u, eps) && u.waiting && Listed(eps, c.address)
    ensures var v := Land(u, c.token, c.address, c.status, c.used);
      Tidy(v, eps) && v.waiting && v.nextToken == u.nextToken
  {
    hide Listed, LastAt;
  }

  lemma BooksLand(u: Usb, eps: seq<Endpoint>, c: Call)
    requires Distinct(eps) && Books(u, eps) && u.waiting && Listed(eps, c.address)
    ensures var v := Land(u, c.token, c.address, c.status, c.used); Books(v, eps) && v.waiting
  {
    var v := Land(u, c.token, c.address, c.status, c.used);
    LandTidy(u, eps, c);
    hide Places, Flying, LastAt, Land, Tidy, Listed;
    LandPlaces(u, eps, c.token, c.address, c.status, c.used, 0);
    forall k: nat ensures Places(v, eps, k) == Places(u, eps, k) {
      LandPlaces(u, eps, c.token, c.address, c.status, c.used, k);
    }
    BooksMoved(u, v, eps);
  }

  lemma {:induction false} RefillTidy(u: Usb, eps: seq<Endpoint>, address: byte, lucky: nat)
    requires Tidy(u, eps) && Listed(eps, address)
    ensures var v := Refill(u, address, lucky);
      Tidy(v, eps) && v.waiting == u.waiting && v.flag == u.flag && v.completed == u.completed
      && v.nextToken == u.nextToken
    decreases |u.queued|
  {
    hide Listed;
    if MAX_IN_FLIGHT <= |Flight(u.flights, address)| || u.queued == [] || lucky == 0 {
    } else {
      RefillTidy(Launched(u, address), eps, address, lucky - 1);
    }
  }

  lemma BooksCallback(u: Usb, eps: seq<Endpoint>, c: Call)
    requires Distinct(eps) && Books(u, eps) && u.waiting && Listed(eps, c.address)
    ensures var v := Callback(u, c.token, c.address, c.status, c.used, c.lucky); Books(v, eps) && v.waiting
  {
    BooksLand(u, eps, c);
    var v := Land(u, c.token, c.address, c.status, c.used);
    var w := Refill(v, c.address, c.lucky);
    RefillTidy(v, eps, c.address, c.lucky);
    hide Places, Flying, Refill, Land;
    RefillPlaces(v, eps, c.address, c.lucky, 0);
    forall k: nat ensures Places(w, eps, k) == Places(v, eps, k) { RefillPlaces(v, eps, c.address, c.lucky, k); }
    BooksMoved(v, w, eps);
  }

  ghost predicate Known(eps: seq<Endpoint>, calls: seq<Call>) {
    forall c <- calls :: Listed(eps, c.address)
  }

  lemma {:induction false} BooksCalls(u: Usb, eps: seq<Endpoint>, calls: seq<Call>)
    requires Distinct(eps) && Books(u, eps) && u.waiting && Known(eps, calls)
    ensures var v := Calls(u, calls); Books(v, eps) && v.waiting
    decreases |calls|
  {
    hide Books, Callback, Listed;
    if calls == [] {
    } else {
      var c := calls[0];
      BooksCallback(u, eps, c);
      BooksCalls(Callback(u, c.token, c.address, c.status, c.used, c.lucky), eps, calls[1..]);
    }
  }

  lemma {:induction false} BooksPump(u: Usb, eps: seq<Endpoint>, batches: seq<seq<Call>>)
    requires Distinct(eps) && Books(u, eps) && u.waiting && forall b <- batches :: Known(eps, b)
    ensures var v := Pump(u, batches); Books(v, eps) && v.waiting
    decreases |batches|
  {
    hide Books, Calls, Known;
    if u.flag || batches == [] {
    } else {
      BooksCalls(u, eps, batches[0]);
      BooksPump(Calls(u, batches[0]), eps, batches[1..]);
    }
  }

  lemma BooksEnter(u: Usb, eps: seq<Endpoint>)
    requires Books(u, eps)
    ensures Books(u.(waiting := true), eps)
  {
    forall k: nat ensures Places(u.(waiting := true), eps, k) == Places(u, eps, k) {}
  }

  /** completeTransfer with one consumer: the books still balance, and -1 is the answer exactly
      when nothing was in flight or completed at entry. */
  lemma CompleteBooks(u: Usb, eps: seq<Endpoint>, batches: seq<seq<Call>>)
    requires Distinct(eps) && Books(u, eps) && !u.waiting && forall b <- batches :: Known(eps, b)
    ensures var c := Complete(u, batches);
      && Books(c.usb, eps) && (c.Stuck? <==> c.usb.waiting)
      && ((c.Ended? && c.taken == None) <==> (u.completed == [] && Flying(eps, u.flights) == 0))
      && (c.Stuck? ==> u.completed == [] && Flying(eps, u.flights) > 0)
  {
    hide Places, Pump, Listed, Flying;
    if MustWait(u) {
      var w := u.(waiting := true);
      BooksEnter(u, eps);
      BooksPump(w, eps, batches);
      var v := Pump(w, batches);
      if v.flag { BooksLeave(v, eps); }
    } else {
      BooksTake(u, eps);
    }
  }

  /** The end of a wait: the flag goes down and the front token is handed over. */
  lemma BooksLeave(v: Usb, eps: seq<Endpoint>)
    requires Books(v, eps) && v.flag
    ensures var (w, t) := TakeFront(v.(flag := false, waiting := false));
      Books(w, eps) && !w.waiting && t == Some(v.completed[0])
  {
    var x := v.(flag := false, waiting := false);
    forall k: nat ensures Places(x, eps, k) == Places(v, eps, k) {}
    hide Places, Flying, Listed;
    BooksMoved(v, x, eps);
    BooksTake(x, eps);
  }

  lemma BooksTake(u: Usb, eps: seq<Endpoint>)
    requires Books(u, eps) && !u.flag
    ensures Books(TakeFront(u).0, eps)
  {
    var v := TakeFront(u).0;
    forall k: nat ensures Places(v, eps, k) == Places(u, eps, k) { TakePlaces(u, eps, k); }
    hide Places, Flying, Listed;
    BooksMoved(u, v, eps);
  }

  // ---------------------------------------------------------------- runs

  /** What the client and libusb may do to one device, in any order. */
  datatype Step = Submission(address: byte, direction: byte, memory: nat, size: nat, accepted: bool)
                | Cancelling
                | Completing(batches: seq<seq<Call>>)

  /** Callers may not call completeTransfer while another call is stuck inside it. */
  function Apply(u: Usb, eps: seq<Endpoint>, s: Step): Usb {
    match s
    case Submission(a, d, m, n, ok) => Submit(u, eps, a, d, m, n, ok)
    case Cancelling => Cancel(u)
    case Completing(batches) =>
      if !u.waiting then Complete(u, batches).usb
      else
        var v := Pump(u, batches);
        if v.flag then TakeFront(v.(flag := false, waiting := false)).0 else v
  }

  function Run(u: Usb, eps: seq<Endpoint>, steps: seq<Step>): Usb
    decreases |steps|
  {
    if steps == [] then u else Run(Apply(u, eps, steps[0]), eps, steps[1..])
  }

  ghost predicate Sound(eps: seq<Endpoint>, steps: seq<Step>) {
    forall s <- steps :: s.Completing? ==> forall b <- s.batches :: Known(eps, b)
  }

  lemma BooksApply(u: Usb, eps: seq<Endpoint>, s: Step)
    requires Distinct(eps) && Books(u, eps)
    requires s.Completing? ==> forall b <- s.batches :: Known(eps, b)
    ensures Books(Apply(u, eps, s), eps)
  {
    hide Books, Submit, Cancel, Complete, Pump, TakeFront;
    match s
    case Submission(a, d, m, n, ok) => BooksSubmit(u, eps, a, d, m, n, ok);
    case Cancelling => BooksCancel(u, eps);
    case Completing(batches) =>
      if !u.waiting {
        CompleteBooks(u, eps, batches);
      } else {
        BooksPump(u, eps, batches);
        if Pump(u, batches).flag { BooksLeave(Pump(u, batches), eps); }
      }
  }

  lemma {:induction false} BooksRun(u: Usb, eps: seq<Endpoint>, steps: seq<Step>)
    requires Distinct(eps) && Books(u, eps) && Sound(eps, steps)
    ensures Books(Run(u, eps, steps), eps)
    decreases |steps|
  {
    hide Books, Apply;
    if steps == [] {
    } else {
      BooksApply(u, eps, steps[0]);
      BooksRun(Apply(u, eps, steps[0]), eps, steps[1..]);
    }
  }

  /** Over every run from a fresh device each token allocated so far is in exactly one place, once,
      and no other token is anywhere; the counter is the sum of the deques, none over the cap. */
  lemma EachTokenOnce(eps: seq<Endpoint>, steps: seq<Step>, token: nat)
    requires Distinct(eps) && Sound(eps, steps)
    ensures var u := Run(FRESH, eps, steps);
      && Tally(u.queued, token) + InFlight(eps, u.flights, token) + Tally(u.completed, token)
         + Among(u.returned, token) + Among(u.dropped, token) + Among(u.refused, token)
         == (if token < u.nextToken then 1 else 0)
      && u.count == Flying(eps, u.flights)
      && forall a :: |Flight(u.flights, a)| <= MAX_IN_FLIGHT
  {
    BooksFresh(eps);
    BooksRun(FRESH, eps, steps);
    assert Places(Run(FRESH, eps, steps), eps, token) == if token < Run(FRESH, eps, steps).nextToken then 1 else 0;
  }

  // ---------------------------------------------------------------- several endpoints

  /** Each transfer in flight is in the deque of its own endpoint. */
  ghost predicate Filed(fs: Flights) {
    forall a <- fs, t <- fs[a] :: t.endpoint == a
  }

  /** How many queued transfers one callback moves into flight. */
  function Moved(q: seq<Transfer>, queued: seq<Transfer>, lucky: nat): nat {
    if MAX_IN_FLIGHT <= |q| then 0
    else var room := MAX_IN_FLIGHT - |q|;
      var n := if room < |queued| then room else |queued|;
      if n < lucky then n else lucky
  }

  /** A refill keeps the deques in order exactly when every transfer it moves is for the endpoint
      whose callback ran: it looks only at the front of the one shared queue. */
  lemma {:induction false} RefillFiled(u: Usb, address: byte, lucky: nat)
    requires Filed(u.flights)
    ensures var n := Moved(Flight(u.flights, address), u.queued, lucky);
      Filed(Refill(u, address, lucky).flights) <==> forall i :: 0 <= i < n ==> u.queued[i].endpoint == address
    decreases |u.queued|
  {
    var q := Flight(u.flights, address);
    var n := Moved(q, u.queued, lucky);
    if |q| < MAX_IN_FLIGHT && u.queued != [] && lucky > 0 {
      var t := u.queued[0];
      var v := Launched(u, address);
      assert Moved(q + [t], v.queued, lucky - 1) == n - 1;
      if t.endpoint == address {
        RefillFiled(v, address, lucky - 1);
        assert forall i :: 0 <= i < n - 1 ==> v.queued[i] == u.queued[i + 1];
        assert forall i :: 0 < i < n ==> u.queued[i] == v.queued[i - 1];
      } else {
        assert t in v.flights[address];
        RefillGrows(v, address, lucky - 1);
      }
    }
  }

  lemma {:induction false} RefillGrows(u: Usb, address: byte, lucky: nat)
    ensures Flight(u.flights, address) <= Flight(Refill(u, address, lucky).flights, address)
    ensures forall a :: a != address ==> Flight(Refill(u, address, lucky).flights, a) == Flight(u.flights, a)
    decreases |u.queued|
  {
    if MAX_IN_FLIGHT <= |Flight(u.flights, address)| || u.queued == [] || lucky == 0 {
    } else {
      RefillGrows(Launched(u, address), address, lucky - 1);
    }
  }

  /** In flight under another endpoint than its own, and nowhere that a callback would look. */
  ghost predicate Misfiled(u: Usb, t: Transfer, where: byte) {
    && where in u.flights && t in u.flights[where] && t.endpoint != where && t.token < u.nextToken
    && (forall x <- Flight(u.flights, t.endpoint) :: x.token != t.token)
    && (forall x <- u.queued :: x.token != t.token)
  }

  /** libusb calls back for the transfer with the transfer's own endpoint. */
  ghost predicate Own(t: Transfer, calls: seq<Call>) {
    forall c <- calls :: c.token == t.token ==> c.address == t.endpoint
  }

  lemma MisfiledSubmit(u: Usb, eps: seq<Endpoint>, t: Transfer, where: byte,
                       address: byte, direction: byte, memory: nat, size: nat, accepted: bool)
    requires Misfiled(u, t, where)
    ensures Misfiled(Submit(u, eps, address, direction, memory, size, accepted), t, where)
  {
    hide Usable;
  }

  lemma MisfiledLand(u: Usb, t: Transfer, where: byte, c: Call)
    requires Misfiled(u, t, where) && (c.token == t.token ==> c.address == t.endpoint)
    ensures Misfiled(Land(u, c.token, c.address, c.status, c.used), t, where)
  {
    var q := Flight(u.flights, c.address);
    var k := LastAt(q, c.token);
    hide LastAt;
    if k >= 0 {
      Without(q, k);
      MisfiledThinned(u, Land(u, c.token, c.address, c.status, c.used), t, where, c.address, q[..k] + q[k + 1..]);
    }
  }

  lemma MisfiledThinned(u: Usb, v: Usb, t: Transfer, where: byte, address: byte, q: seq<Transfer>)
    requires Misfiled(u, t, where) && v.flights == u.flights[address := q]
    requires v.queued == u.queued && v.nextToken == u.nextToken
    requires forall x :: x in q ==> x in Flight(u.flights, address)
    requires address == where ==> t in q
    ensures Misfiled(v, t, where)
  {}

  lemma Without(q: seq<Transfer>, k: nat)
    requires k < |q|
    ensures forall x :: x in q && x != q[k] ==> x in q[..k] + q[k + 1..]
    ensures forall x :: x in q[..k] + q[k + 1..] ==> x in q
  {
    assert q == q[..k] + [q[k]] + q[k + 1..];
  }

  lemma {:induction false} MisfiledRefill(u: Usb, t: Transfer, where: byte, address: byte, lucky: nat)
    requires Misfiled(u, t, where)
    ensures Misfiled(Refill(u, address, lucky), t, where)
    decreases |u.queued|
  {
    if MAX_IN_FLIGHT <= |Flight(u.flights, address)| || u.queued == [] || lucky == 0 {
    } else {
      assert u.queued[0] in u.queued;
      MisfiledRefill(Launched(u, address), t, where, address, lucky - 1);
    }
  }

  lemma {:induction false} MisfiledCalls(u: Usb, t: Transfer, where: byte, calls: seq<Call>)
    requires Misfiled(u, t, where) && Own(t, calls)
    ensures Misfiled(Calls(u, calls), t, where)
    decreases |calls|
  {
    hide Misfiled, Land, Refill;
    if calls == [] {
    } else {
      var c := calls[0];
      MisfiledLand(u, t, where, c);
      MisfiledRefill(Land(u, c.token, c.address, c.status, c.used), t, where, c.address, c.lucky);
      MisfiledCalls(Callback(u, c.token, c.address, c.status, c.used, c.lucky), t, where, calls[1..]);
    }
  }

  lemma {:induction false} MisfiledPump(u: Usb, t: Transfer, where: byte, batches: seq<seq<Call>>)
    requires Misfiled(u, t, where) && forall b <- batches :: Own(t, b)
    ensures Misfiled(Pump(u, batches), t, where)
    decreases |batches|
  {
    hide Misfiled, Calls, Own;
    if u.flag || batches == [] {
    } else {
      MisfiledCalls(u, t, where, batches[0]);
      MisfiledPump(Calls(u, batches[0]), t, where, batches[1..]);
    }
  }

  lemma MisfiledTake(u: Usb, t: Transfer, where: byte, flag: bool, waiting: bool)
    requires Misfiled(u, t, where)
    ensures Misfiled(u.(flag := flag, waiting := waiting), t, where)
    ensures Misfiled(TakeFront(u.(flag := flag, waiting := waiting)).0, t, where)
  {}

  lemma MisfiledComplete(u: Usb, t: Transfer, where: byte, batches: seq<seq<Call>>)
    requires Misfiled(u, t, where) && forall b <- batches :: Own(t, b)
    ensures Misfiled(Complete(u, batches).usb, t, where)
  {
    MisfiledTake(u, t, where, u.flag, u.waiting);
    MisfiledTake(u, t, where, u.flag, true);
    MisfiledPump(u.(waiting := true), t, where, batches);
    MisfiledTake(Pump(u.(waiting := true), batches), t, where, false, false);
    hide Misfiled, Pump;
  }

  lemma MisfiledApply(u: Usb, eps: seq<Endpoint>, t: Transfer, where: byte, s: Step)
    requires Misfiled(u, t, where) && (s.Completing? ==> forall b <- s.batches :: Own(t, b))
    ensures Misfiled(Apply(u, eps, s), t, where)
  {
    match s
    case Submission(a, d, m, n, ok) => MisfiledSubmit(u, eps, t, where, a, d, m, n, ok);
    case Cancelling =>
    case Completing(batches) =>
      if !u.waiting {
        MisfiledComplete(u, t, where, batches);
      } else {
        MisfiledPump(u, t, where, batches);
        MisfiledTake(Pump(u, batches), t, where, false, false);
      }
      hide Misfiled, Complete, Pump, TakeFront;
  }

  lemma {:induction false} FlightCounted(eps: seq<Endpoint>, fs: Flights, address: byte, t: Transfer)
    requires Listed(eps, address) && t in Flight(fs, address)
    ensures Flying(eps, fs) > 0 && InFlight(eps, fs, t.token) > 0
  {
    if eps[0].address == address {
      TallyHas(Flight(fs, address), t);
    } else {
      assert eps == [eps[0]] + eps[1..];
      FlightCounted(eps[1..], fs, address, t);
    }
  }

  lemma {:induction false} TallyHas(q: seq<Transfer>, t: Transfer)
    requires t in q
    ensures Tally(q, t.token) > 0
  {
    if q[0].token == t.token {
    } else {
      assert t in q[1..];
      TallyHas(q[1..], t);
    }
  }

  /** A misfiled transfer is lost for good: as long as libusb calls back with a transfer's own endpoint, it
      is in the same deque after every run, counted and never handed back. */
  lemma {:induction false} MisfiledForever(u: Usb, eps: seq<Endpoint>, steps: seq<Step>, t: Transfer, where: byte)
    requires Distinct(eps) && Books(u, eps) && Sound(eps, steps) && Misfiled(u, t, where)
    requires forall s <- steps :: s.Completing? ==> forall b <- s.batches :: Own(t, b)
    ensures var v := Run(u, eps, steps);
      && Books(v, eps) && Misfiled(v, t, where) && v.count > 0 && Among(v.returned, t.token) == 0
    decreases |steps|
  {
    if steps == [] {
      FlightCounted(eps, u.flights, where, t);
      assert Places(u, eps, t.token) == 1;
    } else {
      hide Misfiled, Books, Apply;
      BooksApply(u, eps, steps[0]);
      MisfiledApply(u, eps, t, where, steps[0]);
      MisfiledForever(Apply(u, eps, steps[0]), eps, steps[1..], t, where);
    }
  }

  // A run that misfiles one: fill a deque, queue one more, and let another endpoint call back.

  function Repeated(s: Step, n: nat): seq<Step> {
    if n == 0 then [] else Repeated(s, n - 1) + [s]
  }

  lemma {:induction false} RunSnoc(u: Usb, eps: seq<Endpoint>, steps: seq<Step>, s: Step)
    ensures Run(u, eps, steps + [s]) == Apply(Run(u, eps, steps), eps, s)
    decreases |steps|
  {
    hide Apply;
    if steps == [] {
      assert [s][1..] == [];
    } else {
      assert (steps + [s])[1..] == steps[1..] + [s];
      RunSnoc(Apply(u, eps, steps[0]), eps, steps[1..], s);
    }
  }

  /** A device whose endpoint `a` has n transfers in flight, and that has done nothing else. */
  ghost predicate Loaded(u: Usb, a: byte, n: nat) {
    && u.nextToken == n && u.queued == [] && u.flights.Keys <= {a} && |Flight(u.flights, a)| == n
    && (forall x <- Flight(u.flights, a) :: x.endpoint == a && x.token < n)
    && u.count == n && u.completed == [] && !u.flag && !u.waiting
  }

  lemma {:induction false} Load(eps: seq<Endpoint>, a: byte, n: nat)
    requires Usable(eps, a, 128, 0) && n <= MAX_IN_FLIGHT
    ensures Loaded(Run(FRESH, eps, Repeated(Submission(a, 128, 0, 0, true), n)), a, n)
  {
    var s := Submission(a, 128, 0, 0, true);
    if n == 0 {
    } else {
      Load(eps, a, n - 1);
      RunSnoc(FRESH, eps, Repeated(s, n - 1), s);
      hide Usable, Run, Repeated;
    }
  }

  lemma MisfilingRun(eps: seq<Endpoint>, a: byte, b: byte)
    requires Usable(eps, a, 128, 0) && Usable(eps, b, 128, 0) && a != b
    ensures var steps := Repeated(Submission(a, 128, 0, 0, true), MAX_IN_FLIGHT)
        + [Submission(a, 128, 0, 0, true)] + [Submission(b, 128, 0, 0, true)]
        + [Completing([[Call(33, b, SUCCEEDED, 0, 1)]])];
      Misfiled(Run(FRESH, eps, steps), Transfer(32, a, 0, SUCCEEDED, 0), b)
  {
    var fill := Repeated(Submission(a, 128, 0, 0, true), MAX_IN_FLIGHT);
    var u := Run(FRESH, eps, fill);
    Load(eps, a, MAX_IN_FLIGHT);
    RunSnoc(FRESH, eps, fill, Submission(a, 128, 0, 0, true));
    RunSnoc(FRESH, eps, fill + [Submission(a, 128, 0, 0, true)], Submission(b, 128, 0, 0, true));
    RunSnoc(FRESH, eps, fill + [Submission(a, 128, 0, 0, true)] + [Submission(b, 128, 0, 0, true)],
            Completing([[Call(33, b, SUCCEEDED, 0, 1)]]));
    hide Run, Usable, Repeated;
    Misfile(u, eps, a, b);
  }

  lemma Queued(u: Usb, eps: seq<Endpoint>, a: byte, b: byte)
    requires Loaded(u, a, MAX_IN_FLIGHT) && Usable(eps, a, 128, 0) && Usable(eps, b, 128, 0) && a != b
    ensures var ta, tb := Transfer(32, a, 0, SUCCEEDED, 0), Transfer(33, b, 0, SUCCEEDED, 0);
      Apply(Apply(u, eps, Submission(a, 128, 0, 0, true)), eps, Submission(b, 128, 0, 0, true))
        == u.(nextToken := 34, queued := [ta], flights := u.flights[a := Flight(u.flights, a)][b := [tb]], count := 33)
  {
    hide Usable;
    var ta, tb := Transfer(32, a, 0, SUCCEEDED, 0), Transfer(33, b, 0, SUCCEEDED, 0);
    var u1 := Apply(u, eps, Submission(a, 128, 0, 0, true));
    assert [] + [ta] == [ta] && [] + [tb] == [tb];
    assert u1 == u.(nextToken := 33, queued := [ta], flights := u.flights[a := Flight(u.flights, a)]);
    assert Flight(u1.flights, b) == [];
  }

  lemma Misfile(u: Usb, eps: seq<Endpoint>, a: byte, b: byte)
    requires Loaded(u, a, MAX_IN_FLIGHT) && Usable(eps, a, 128, 0) && Usable(eps, b, 128, 0) && a != b
    ensures var u1 := Apply(u, eps, Submission(a, 128, 0, 0, true));
      var u2 := Apply(u1, eps, Submission(b, 128, 0, 0, true));
      Misfiled(Apply(u2, eps, Completing([[Call(33, b, SUCCEEDED, 0, 1)]])), Transfer(32, a, 0, SUCCEEDED, 0), b)
  {
    hide Usable;
    var ta, tb := Transfer(32, a, 0, SUCCEEDED, 0), Transfer(33, b, 0, SUCCEEDED, 0);
    var u2 := u.(nextToken := 34, queued := [ta], flights := u.flights[a := Flight(u.flights, a)][b := [tb]],
          count := 33);
    Queued(u, eps, a, b);
    MisfileCall(u2.(waiting := true), a, b);
    hide Calls;
    var calls := [Call(33, b, SUCCEEDED, 0, 1)];
    assert [calls][0] == calls && [calls][1..] == [];
    MisfiledTake(Calls(u2.(waiting := true), calls), ta, b, false, false);
    hide Misfiled;
    assert Pump(u2.(waiting := true), [calls]) == Calls(u2.(waiting := true), calls);
  }

  lemma MisfileCall(u: Usb, a: byte, b: byte)
    requires a != b && u.nextToken == 34 && u.queued == [Transfer(32, a, 0, SUCCEEDED, 0)]
    requires Flight(u.flights, b) == [Transfer(33, b, 0, SUCCEEDED, 0)]
    requires forall x <- Flight(u.flights, a) :: x.token < 32
    ensures var v := Calls(u, [Call(33, b, SUCCEEDED, 0, 1)]);
      v.flag && v.completed != [] && Misfiled(v, Transfer(32, a, 0, SUCCEEDED, 0), b)
  {
    var w := Land(u, 33, b, SUCCEEDED, 0);
    assert LastAt(Flight(u.flights, b), 33) == 0;
    assert Flight(w.flights, b) == [] && w.queued == u.queued && w.flag;
    var x := Launched(w, b);
    assert x.queued == [] && Flight(x.flights, b) == [] + [Transfer(32, a, 0, SUCCEEDED, 0)];
    RefillOnce(w, b, 1);
    RefillOnce(x, b, 0);
    assert [Call(33, b, SUCCEEDED, 0, 1)][1..] == [];
  }

  // ---------------------------------------------------------------- a queue left behind

  /** All that is left is in the queue. */
  ghost predicate Stranded(u: Usb, eps: seq<Endpoint>) {
    u.queued != [] && u.completed == [] && Flying(eps, u.flights) == 0
  }

  /** completeTransfer answers -1 with transfers still to be waited for exactly when all that is left is in
      the queue: nothing is in flight that could call back and move it on. */
  lemma StrandedExactly(u: Usb, eps: seq<Endpoint>, batches: seq<seq<Call>>)
    requires Distinct(eps) && Books(u, eps) && !u.waiting && forall b <- batches :: Known(eps, b)
    ensures var c := Complete(u, batches);
      (c.Ended? && c.taken == None && |c.usb.queued| + c.usb.count + |c.usb.completed| > 0)
        <==> Stranded(u, eps)
  {
    CompleteBooks(u, eps, batches);
    hide Flying, Places, Listed, Pump;
  }

  /** A refill that starts on an empty deque leaves it empty with a queue behind it exactly when libusb
      refuses the first resubmission and more than that one were queued. */
  lemma RefillStrands(u: Usb, address: byte, lucky: nat)
    requires Flight(u.flights, address) == []
    ensures var v := Refill(u, address, lucky);
      (Flight(v.flights, address) == [] && v.queued != []) <==> (lucky == 0 && |u.queued| > 1)
  {
    if u.queued != [] && lucky > 0 {
      RefillGrows(Launched(u, address), address, lucky - 1);
    }
  }

  /** No further call of completeTransfer gets it going again. */
  lemma {:induction false} StrandedStays(u: Usb, eps: seq<Endpoint>, steps: seq<Step>)
    requires Distinct(eps) && Books(u, eps) && !u.waiting && Sound(eps, steps) && Stranded(u, eps)
    requires forall s <- steps :: s.Completing?
    ensures Run(u, eps, steps) == u
    decreases |steps|
  {
    if steps == [] {
    } else {
      var s := steps[0];
      CompleteBooks(u, eps, s.batches);
      assert Apply(u, eps, s) == u;
      StrandedStays(u, eps, steps[1..]);
    }
  }

  // ---------------------------------------------------------------- the order of completions

  function Numbers(q: seq<Transfer>): (r: seq<nat>)
    ensures |r| == |q|
    ensures forall i :: 0 <= i < |q| ==> r[i] == q[i].token
  {
    if q == [] then [] else [q[0].token] + Numbers(q[1..])
  }

  /** The order in which completeTransfer will hand tokens back if libusb completes the
      transfers of an endpoint in the order they were submitted. */
  function Order(u: Usb, address: byte): seq<nat> {
    Numbers(u.completed) + Numbers(Flight(u.flights, address)) + Numbers(u.queued)
  }

  /** Cancelling keeps that order exactly when the queue or the flight is empty: queued transfers
      jump straight to the completed list, ahead of everything libusb still holds. */
  lemma CancelOrder(u: Usb, address: byte)
    requires forall x <- Flight(u.flights, address), y <- u.queued :: x.token != y.token
    ensures Order(Cancel(u), address) == Order(u, address)
      <==> u.queued == [] || Flight(u.flights, address) == []
  {
    var flight := Flight(u.flights, address);
    NumbersJoin(u.completed, AllCancelled(u.queued));
    NumbersCancelled(u.queued);
    assert Order(Cancel(u), address) == Numbers(u.completed) + Numbers(u.queued) + Numbers(flight) + Numbers([]);
    SwapOrder(Numbers(u.completed), Numbers(flight), Numbers(u.queued));
    if u.queued != [] && flight != [] { assert flight[0] in flight && u.queued[0] in u.queued; }
  }

  lemma SwapOrder(c: seq<nat>, f: seq<nat>, q: seq<nat>)
    requires f != [] && q != [] ==> f[0] != q[0]
    ensures c + q + f == c + f + q <==> q == [] || f == []
  {
    if q == [] || f == [] {
      assert c + q + f == c + f + q;
    } else {
      assert (c + q + f)[|c|] == q[0] && (c + f + q)[|c|] == f[0];
    }
  }

  lemma NumbersJoin(p: seq<Transfer>, q: seq<Transfer>)
    ensures Numbers(p + q) == Numbers(p) + Numbers(q)
  {}

  lemma {:induction false} NumbersCancelled(q: seq<Transfer>)
    ensures Numbers(AllCancelled(q)) == Numbers(q)
  {
    if q == [] {
    } else {
      NumbersCancelled(q[1..]);
      assert AllCancelled(q)[0].token == q[0].token && AllCancelled(q)[1..] == AllCancelled(q[1..]);
    }
  }

  // ---------------------------------------------------------------- the object

  class UsbDeviceLinux {
    var endpoints: seq<Endpoint>
    var nextToken: nat
    var queuedTransfers: seq<Transfer>
    var inFlightTransfers: Flights
    var inFlightCount: int
    var completedTransfers: seq<Transfer>
    var completedFlag: bool
    ghost var waiting: bool
    ghost var asked: set<nat>
    ghost var returned: seq<nat>
    ghost var dropped: seq<nat>
    ghost var refused: seq<nat>

    ghost function State(): Usb
      reads this
    {
      Usb(nextToken, queuedTransfers, inFlightTransfers, inFlightCount, completedTransfers, completedFlag, waiting,
          asked, returned, dropped, refused)
    }

    constructor (endpoints: seq<Endpoint>)
      ensures State() == FRESH && this.endpoints == endpoints
    {
      this.endpoints := endpoints;
      nextToken, inFlightCount := 0, 0;
      queuedTransfers, inFlightTransfers, completedTransfers := [], map[], [];
      completedFlag, waiting := false, false;
      asked, returned, dropped, refused := {}, [], [], [];
    }

    method PendingTransfers() returns (n: int)
      ensures n == |queuedTransfers| + inFlightCount + |completedTransfers|
    {
      n := |queuedTransfers| + inFlightCount + |completedTransfers|;
    }

    /** The endpoint search keeps the last match. */
    method FindEndpoint(address: byte) returns (at: int)
      ensures at == Find(endpoints, address)
    {
      at := -1;
      var i := 0;
      while i < |endpoints|
        invariant 0 <= i <= |endpoints|
        invariant at == Find(endpoints[..i], address)
      {
        assert endpoints[..i + 1][..i] == endpoints[..i];
        if endpoints[i].address == address { at := i; }
        i := i + 1;
      }
      assert endpoints[..i] == endpoints;
    }

    /** submitTransfer: `token` is -1 where the original raises. */
    method SubmitTransfer(address: byte, direction: byte, memory: nat, size: nat, accepted: bool) returns (token: int)
      modifies this
      ensures State() == Submit(old(State()), endpoints, address, direction, memory, size, accepted)
      ensures endpoints == old(endpoints)
      ensures token == if Usable(endpoints, address, direction, size)
          && (accepted || MAX_IN_FLIGHT <= |Flight(old(inFlightTransfers), address)|) then old(nextToken) else -1
    {
      var transfer := Transfer(nextToken, address, memory, SUCCEEDED, 0);
      nextToken := nextToken + 1;
      var at := FindEndpoint(address);
      if at < 0 || MAX_URB_SIZE < size || direction != (if address < 128 then 0 else 128)
         || (endpoints[at].kind != BULK && endpoints[at].kind != INTERRUPT) {
        refused := refused + [transfer.token];
        return -1;
      }
      var ok := PlaceTransfer(transfer, accepted);
      token := if ok then transfer.token else -1;
    }

    method PlaceTransfer(transfer: Transfer, accepted: bool) returns (ok: bool)
      modifies this
      ensures State() == Place(old(State()), transfer, accepted)
      ensures endpoints == old(endpoints)
      ensures ok <==> accepted || MAX_IN_FLIGHT <= |Flight(old(inFlightTransfers), transfer.endpoint)|
    {
      ok := true;
      var flight := Flight(inFlightTransfers, transfer.endpoint);
      if |flight| < MAX_IN_FLIGHT {
        if accepted {
          flight := flight + [transfer];
          inFlightCount := inFlightCount + 1;
        } else {
          refused := refused + [transfer.token];
          ok := false;
        }
      } else {
        queuedTransfers := queuedTransfers + [transfer];
      }
      inFlightTransfers := inFlightTransfers[transfer.endpoint := flight];
    }

    method CancelTransfers()
      modifies this
      ensures State() == Cancel(old(State())) && endpoints == old(endpoints)
    {
      AskLibusb();
      while queuedTransfers != []
        invariant completedTransfers + AllCancelled(queuedTransfers)
          == old(completedTransfers) + AllCancelled(old(queuedTransfers))
        invariant State() == old(State()).(asked := asked, queued := queuedTransfers, completed := completedTransfers)
        invariant endpoints == old(endpoints) && asked == old(asked) + AllTokens(old(inFlightTransfers))
        decreases |queuedTransfers|
      {
        var t := queuedTransfers[0].(status := CANCELLED);
        assert [t] + AllCancelled(queuedTransfers[1..]) == AllCancelled(queuedTransfers);
        queuedTransfers := queuedTransfers[1..];
        completedTransfers := completedTransfers + [t];
      }
    }

    /** Deque by deque, a cancel request for every transfer in it. */
    method AskLibusb()
      modifies this`asked
      ensures asked == old(asked) + AllTokens(inFlightTransfers)
    {
      var keys := inFlightTransfers.Keys;
      while keys != {}
        invariant keys <= inFlightTransfers.Keys
        invariant asked == old(asked)
          + set a <- inFlightTransfers.Keys - keys, t <- inFlightTransfers[a] :: t.token
        decreases |keys|
      {
        var a :| a in keys;
        ghost var before, done := asked, inFlightTransfers.Keys - keys;
        var flight, i := inFlightTransfers[a], 0;
        while i < |flight|
          invariant 0 <= i <= |flight|
          invariant asked == before + set t <- flight[..i] :: t.token
        {
          assert flight[..i + 1] == flight[..i] + [flight[i]];
          asked := asked + {flight[i].token};
          i := i + 1;
        }
        assert flight[..i] == flight;
        keys := keys - {a};
        assert inFlightTransfers.Keys - keys == done + {a};
      }
      assert inFlightTransfers.Keys - keys == inFlightTransfers.Keys;
    }

    method TransferComplete(c: Call)
      modifies this
      ensures State() == Callback(old(State()), c.token, c.address, c.status, c.used, c.lucky)
      ensures endpoints == old(endpoints)
    {
      hide Refill, LastAt;
      LandTransfer(c);
      ghost var landed := State();
      var lucky := c.lucky;
      while |Flight(inFlightTransfers, c.address)| < MAX_IN_FLIGHT && queuedTransfers != []
        invariant endpoints == old(endpoints)
        invariant Refill(State(), c.address, lucky) == Refill(landed, c.address, c.lucky)
        decreases |queuedTransfers|
      {
        RefillOnce(State(), c.address, lucky);
        var t := queuedTransfers[0];
        queuedTransfers := queuedTransfers[1..];
        if lucky == 0 {
          dropped := dropped + [t.token];
          return;
        }
        inFlightTransfers := inFlightTransfers[c.address := Flight(inFlightTransfers, c.address) + [t]];
        inFlightCount := inFlightCount + 1;
        lucky := lucky - 1;
      }
      RefillOnce(State(), c.address, lucky);
    }

    /** Its first half: find the transfer and move it to the completed queue. */
    method LandTransfer(c: Call)
      modifies this
      ensures State() == Land(old(State()), c.token, c.address, c.status, c.used)
      ensures endpoints == old(endpoints)
    {
      var flight := Flight(inFlightTransfers, c.address);
      var at := FindTransfer(flight, c.token);
      if at < 0 {
        inFlightTransfers := inFlightTransfers[c.address := flight];
      } else {
        completedTransfers := completedTransfers + [flight[at].(status := c.status, used := c.used)];
        inFlightTransfers := inFlightTransfers[c.address := flight[..at] + flight[at + 1..]];
        inFlightCount := inFlightCount - 1;
        completedFlag := true;
      }
    }

    method FindTransfer(flight: seq<Transfer>, token: nat) returns (at: int)
      ensures at == LastAt(flight, token)
    {
      at := -1;
      var i := 0;
      while i < |flight|
        invariant 0 <= i <= |flight|
        invariant at == LastAt(flight[..i], token)
      {
        assert flight[..i + 1][..i] == flight[..i];
        if flight[i].token == token { at := i; }
        i := i + 1;
      }
      assert flight[..i] == flight;
    }

    /** completeTransfer.  `blocked` means that libusb never raised the flag. */
    method CompleteTransfer(batches: seq<seq<Call>>) returns (blocked: bool, taken: Taken)
      requires !completedFlag && !waiting
      modifies this
      ensures endpoints == old(endpoints)
      ensures var c := Complete(old(State()), batches);
        State() == c.usb && (blocked <==> c.Stuck?) && (c.Ended? ==> taken == c.taken)
    {
      blocked, taken := false, None;
      if completedTransfers == [] && inFlightCount > 0 {
        waiting := true;
        ghost var begun := State();
        var i := 0;
        while !completedFlag
          invariant 0 <= i <= |batches| && endpoints == old(endpoints)
          invariant Pump(State(), batches[i..]) == Pump(begun, batches)
          decreases |batches| - i
        {
          if i == |batches| { return true, None; }
          HandleEvents(batches[i]);
          i := i + 1;
        }
        completedFlag := false;
        waiting := false;
      }
      if completedTransfers == [] { return; }
      taken := Some(completedTransfers[0]);
      returned := returned + [completedTransfers[0].token];
      completedTransfers := completedTransfers[1..];
    }

    /** One libusb_handle_events_completed: the callbacks it makes, in turn. */
    method HandleEvents(calls: seq<Call>)
      modifies this
      ensures State() == Calls(old(State()), calls) && endpoints == old(endpoints)
    {
      var i := 0;
      while i < |calls|
        invariant 0 <= i <= |calls| && endpoints == old(endpoints)
        invariant Calls(State(), calls[i..]) == Calls(old(State()), calls)
      {
        TransferComplete(calls[i]);
        i := i + 1;
      }
    }
  }
}
