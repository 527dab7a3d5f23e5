/**
 Resumable transfer between two Bridges: direct first, relay as a fallback, and a mid-transfer failure
 continued from where it got to. `TransferRuns` says when the bytes then arrive in order.
 */
module Transport {
  import opened Numbers

  type Byte = bv8

  datatype Route = Direct | ViaRelay

  /**
   What the network does with one dial. A connection takes `accepts` bytes before a write fails; the relay
   writes down `records` more of the bytes it took, as far as it has any, and answers with its count.
   */
  datatype Attempt =
    | Unreachable
    | DirectOpens(accepts: nat)
    | RelayOpens(records: nat, accepts: nat)

  datatype Outcome = Complete | NoRoute | Cancelled

  function RouteOf(a: Attempt): Route { if a.DirectOpens? then Direct else ViaRelay }

  /** The routes used, in order, a run of dials on one route counting once. */
  function Routes(dials: seq<Attempt>): seq<Route> {
    if dials == [] then []
    else
      var before, r := Routes(dials[..|dials| - 1]), RouteOf(dials[|dials| - 1]);
      if before != [] && before[|before| - 1] == r then before else before + [r]
  }

  predicate Uses(dials: seq<Attempt>, i: nat, r: Route) { i < |dials| && RouteOf(dials[i]) == r }

  lemma {:induction false} RoutesAlternate(dials: seq<Attempt>)
    ensures dials != [] ==> Routes(dials) != [] && Routes(dials)[|Routes(dials)| - 1] == RouteOf(dials[|dials| - 1])
    ensures forall i :: 0 < i < |Routes(dials)| ==> Routes(dials)[i] != Routes(dials)[i - 1]
    ensures forall r :: r in Routes(dials) <==> exists i: nat :: Uses(dials, i, r)
  {
    if dials != [] {
      var init := dials[..|dials| - 1];
      RoutesAlternate(init);
      forall r ensures r in Routes(dials) <==> exists i: nat :: Uses(dials, i, r) {
        OneDialMore(init, dials[|dials| - 1], r);
        assert dials == init + [dials[|dials| - 1]];
      }
    }
  }

  lemma OneDialMore(init: seq<Attempt>, last: Attempt, r: Route)
    ensures (exists i: nat :: Uses(init + [last], i, r)) <==> (exists i: nat :: Uses(init, i, r)) || r == RouteOf(last)
  {
    var dials := init + [last];
    if exists i: nat :: Uses(init, i, r) {
      var i: nat :| Uses(init, i, r);
      assert Uses(dials, i, r);
    }
    if r == RouteOf(last) {
      assert Uses(dials, |init|, r);
    }
    if exists i: nat :: Uses(dials, i, r) {
      var i: nat :| Uses(dials, i, r);
      assert i < |init| ==> Uses(init, i, r);
    }
  }

  // ---- Where in the source bytes come from ----

  /** The first n places of the source, in order. */
  function Upto(n: nat): (r: seq<nat>)
    ensures |r| == n
  {
    seq(n, i => i)
  }

  function Span(from: nat, n: nat): (r: seq<nat>)
    ensures |r| == n
  {
    seq(n, i requires 0 <= i < n => from + i)
  }

  function BytesAt(src: seq<Byte>, places: seq<nat>): (r: seq<Byte>)
    ensures |r| == |places|
  {
    seq(|places|, i requires 0 <= i < |places| => if places[i] < |src| then src[places[i]] else 0)
  }

  lemma BytesOfSpan(src: seq<Byte>, from: nat, n: nat)
    requires from + n <= |src|
    ensures BytesAt(src, Span(from, n)) == src[from..from + n]
  {
  }

  lemma BytesOfUpto(src: seq<Byte>, n: nat)
    requires n <= |src|
    ensures BytesAt(src, Upto(n)) == src[..n]
  {
  }

  lemma BytesOfBoth(src: seq<Byte>, xs: seq<nat>, ys: seq<nat>)
    ensures BytesAt(src, xs + ys) == BytesAt(src, xs) + BytesAt(src, ys)
  {
  }

  // ---- The links ----

  /** What the links have accepted, in order, how much of it went through the relay, and what the relay says of that. */
  class Network {
    var wire: seq<Byte>
    var relayed: nat
    var recorded: nat

    constructor ()
      ensures Valid() && wire == [] && relayed == 0
    {
      wire, relayed, recorded := [], 0, 0;
    }

    /** The relay's count can lag behind what it took, never lead it. */
    ghost predicate Valid()
      reads this
    {
      recorded <= relayed
    }

    /** The relay answers a dial with its own count. */
    method Answer(records: nat) returns (count: nat)
      requires Valid()
      modifies this`recorded
      ensures Valid() && count == recorded == Min(old(recorded) + records, relayed)
    {
      recorded := Min(recorded + records, relayed);
      count := recorded;
    }

    /** One write on an open connection that has `room` bytes left before it fails. */
    method Write(data: seq<Byte>, room: nat, route: Route) returns (written: nat, failed: bool)
      modifies this`wire, this`relayed
      ensures written == Min(|data|, room) && failed == (|data| > room)
      ensures wire == old(wire) + data[..written]
      ensures relayed == old(relayed) + if route.ViaRelay? then written else 0
    {
      written := Min(|data|, room);
      failed := |data| > room;
      wire := wire + data[..written];
      if route.ViaRelay? {
        relayed := relayed + written;
      }
    }
  }

  /** A random-access read: all that was asked for, or what there is and the end of the file. */
  method ReadAt(src: seq<Byte>, offset: nat, n: nat, eager: bool) returns (data: seq<Byte>, eof: bool)
    ensures offset + |data| <= Max(offset, |src|) && |data| <= n
    ensures offset <= |src| ==> data == src[offset..offset + |data|]
    ensures offset > |src| ==> data == []
    ensures |data| < n ==> eof
    ensures |data| == n || offset + |data| >= |src|
    ensures eof && |data| == n && n > 0 ==> offset + n == |src|
  {
    if offset >= |src| {
      return [], n > 0;
    }
    var got := Min(n, |src| - offset);
    data := src[offset..offset + got];
    eof := got < n || (eager && n > 0 && offset + got == |src|);
  }

  /** How many bytes one connection takes from `offset` on, of a source that ends at `limit`. */
  function Takes(offset: nat, accepts: nat, limit: nat): nat {
    if offset < limit then Min(accepts, limit - offset) else 0
  }

  /**
   Send what is left on one open connection, chunk by chunk. `sent` counts what the link accepted, so
   the wire grows by exactly those bytes of the source. There is no error exactly when the sender's count
   reaches `size`, or had passed it before.
   */
  method SendFrom(net: Network, src: seq<Byte>, offset: nat, size: nat, chunk: nat, route: Route, accepts: nat, eager: bool)
    returns (sent: nat, ok: bool)
    requires chunk > 0
    modifies net`wire, net`relayed
    ensures sent == Takes(offset, accepts, Min(|src|, size))
    ensures net.wire == old(net.wire) + BytesAt(src, Span(offset, sent))
    ensures net.relayed == old(net.relayed) + if route.ViaRelay? then sent else 0
    ensures ok <==> offset + sent >= size
  {
    sent := 0;
    assert old(net.wire) + BytesAt(src, Span(offset, 0)) == old(net.wire);
    while offset + sent < size
      invariant sent <= Takes(offset, accepts, Min(|src|, size))
      invariant net.wire == old(net.wire) + BytesAt(src, Span(offset, sent))
      invariant net.relayed == old(net.relayed) + if route.ViaRelay? then sent else 0
    {
      var n := Min(chunk, size - offset - sent);
      var written, failed, eof := SendChunk(net, src, offset + sent, n, route, accepts - sent, eager);
      SpansJoin(old(net.wire), src, offset, sent, written);
      OneChunkOn(|src|, offset, size, sent, accepts, n, written, failed, eof);
      sent := sent + written;
      if failed {
        return sent, false;
      }
      if eof {
        if offset + sent >= size {
          break;
        }
        return sent, false;
      }
    }
    ok := true;
  }

  /** How much of n bytes from `at` on a source of that length has. */
  function Available(length: nat, at: nat, n: nat): nat { if at < length then Min(n, length - at) else 0 }

  /** What one chunk means for how much the connection takes. */
  lemma OneChunkOn(
    length: nat, offset: nat, size: nat, sent: nat, accepts: nat, n: nat, written: nat, failed: bool, eof: bool)
    requires offset + sent < size && sent <= Takes(offset, accepts, Min(length, size)) && 0 < n <= size - offset - sent
    requires written == Min(Available(length, offset + sent, n), accepts - sent)
    requires failed == (Available(length, offset + sent, n) > accepts - sent)
    requires Available(length, offset + sent, n) < n ==> eof
    requires eof && Available(length, offset + sent, n) == n ==> offset + sent + n == length
    ensures sent + written <= Takes(offset, accepts, Min(length, size))
    ensures failed ==> sent + written == Takes(offset, accepts, Min(length, size)) && offset + sent + written < size
    ensures !failed && eof ==> sent + written == Takes(offset, accepts, Min(length, size))
    ensures !failed && !eof ==> written == n
    ensures offset + sent + written >= size ==> sent + written == Takes(offset, accepts, Min(length, size))
  {
  }

  /** Read one chunk and write it. */
  method SendChunk(net: Network, src: seq<Byte>, at: nat, n: nat, route: Route, room: nat, eager: bool)
    returns (written: nat, failed: bool, eof: bool)
    requires n > 0
    modifies net`wire, net`relayed
    ensures written == Min(Available(|src|, at, n), room) && failed == (Available(|src|, at, n) > room)
    ensures net.wire == old(net.wire) + BytesAt(src, Span(at, written))
    ensures net.relayed == old(net.relayed) + if route.ViaRelay? then written else 0
    ensures Available(|src|, at, n) < n ==> eof
    ensures eof && Available(|src|, at, n) == n ==> at + n == |src|
  {
    var data;
    data, eof := ReadAt(src, at, n, eager);
    written, failed := 0, false;
    if |data| > 0 {
      written, failed := net.Write(data, room, route);
      BytesOfSpan(src, at, written);
    }
  }

  lemma SpansJoin(wire: seq<Byte>, src: seq<Byte>, from: nat, n: nat, m: nat)
    ensures wire + BytesAt(src, Span(from, n)) + BytesAt(src, Span(from + n, m)) == wire + BytesAt(src, Span(from, n + m))
  {
    assert Span(from, n + m) == Span(from, n) + Span(from + n, m);
    BytesOfBoth(src, Span(from, n), Span(from + n, m));
    assert wire + (BytesAt(src, Span(from, n)) + BytesAt(src, Span(from + n, m)))
        == wire + BytesAt(src, Span(from, n)) + BytesAt(src, Span(from + n, m));
  }

  /**
   A sender's count, the places of the source it has had accepted since it began, in order, and the relay's
   two counts.
   */
  datatype Trip = Trip(offset: nat, places: seq<nat>, relayed: nat, recorded: nat)

  /** One dial: the relay's answer corrects the count upward, and then the connection takes what it takes. */
  function AfterDial(x: Trip, a: Attempt, limit: nat): Trip
    requires !a.Unreachable?
  {
    if a.DirectOpens? then
      var n := Takes(x.offset, a.accepts, limit);
      x.(offset := x.offset + n, places := x.places + Span(x.offset, n))
    else
      var recorded := Min(x.recorded + a.records, x.relayed);
      var offset := Max(x.offset, recorded);
      var n := Takes(offset, a.accepts, limit);
      Trip(offset + n, x.places + Span(offset, n), x.relayed + n, recorded)
  }

  predicate AllOpen(dials: seq<Attempt>) { forall i :: 0 <= i < |dials| ==> !dials[i].Unreachable? }

  function AfterDials(x: Trip, dials: seq<Attempt>, limit: nat): Trip
    requires AllOpen(dials)
  {
    if dials == [] then x else AfterDial(AfterDials(x, dials[..|dials| - 1], limit), dials[|dials| - 1], limit)
  }

  /** Before each of the first n dials the sender's count had not reached `size`. */
  predicate Unfinished(x: Trip, dials: seq<Attempt>, n: nat, limit: nat, size: nat) {
    forall i :: 0 <= i < n <= |dials| ==> AllOpen(dials[..i]) && AfterDials(x, dials[..i], limit).offset < size
  }

  /**
   Send a transfer over whatever routes the dials open, beginning with a count of zero whatever the links
   carried and the relay counted before. It stops at the first dial after which its count has reached `size`,
   and that is all success means.
   */
  method Send(net: Network, src: seq<Byte>, size: nat, chunk: nat, dials: seq<Attempt>, eager: bool)
    returns (routes: seq<Route>, outcome: Outcome, offset: nat, used: nat)
    requires chunk > 0 && net.Valid()
    modifies net
    ensures net.Valid()
    ensures used <= |dials| && AllOpen(dials[..used]) && routes == Routes(dials[..used])
    ensures var x := AfterDials(Trip(0, [], old(net.relayed), old(net.recorded)), dials[..used], Min(|src|, size));
            && (offset, net.relayed, net.recorded) == (x.offset, x.relayed, x.recorded)
            && net.wire == old(net.wire) + BytesAt(src, x.places)
    ensures outcome.Complete? <==> offset >= size
    ensures outcome.NoRoute? ==> used < |dials| && dials[used].Unreachable?
    ensures outcome.Cancelled? ==> used == |dials|
    ensures Unfinished(Trip(0, [], old(net.relayed), old(net.recorded)), dials, used, Min(|src|, size), size)
    ensures old(net.wire) == [] && old(net.relayed) == 0 ==>
              offset <= size && offset <= |src| && net.wire == src[..offset] && net.relayed <= offset
  {
    routes, offset, used := [], 0, 0;
    assert dials[..0] == [];
    ghost var limit := Min(|src|, size);
    ghost var x0 := Trip(0, [], net.relayed, net.recorded);
    ghost var x := x0;
    while offset < size && used < |dials|
      invariant net.Valid() && used <= |dials| && AllOpen(dials[..used])
      invariant routes == Routes(dials[..used]) && x == AfterDials(x0, dials[..used], limit)
      invariant offset == x.offset && net.relayed == x.relayed && net.recorded == x.recorded
      invariant net.wire == old(net.wire) + BytesAt(src, x.places)
      invariant Unfinished(x0, dials, used, limit, size)
    {
      var dial := dials[used];
      if dial.Unreachable? {
        FreshTrips(x0, dials[..used], src, limit);
        return routes, NoRoute, offset, used;
      }
      OneDialOn(x0, dials, used, limit, size);
      RoutesAlternate(dials[..used]);
      var route := RouteOf(dial);
      if routes == [] || routes[|routes| - 1] != route {
        routes := routes + [route];
      }
      used := used + 1;
      offset := DialAndSend(net, src, offset, size, chunk, dial, eager, x);
      x := AfterDial(x, dial, limit);
    }
    FreshTrips(x0, dials[..used], src, limit);
    outcome := if offset >= size then Complete else Cancelled;
  }

  lemma OneDialOn(x: Trip, dials: seq<Attempt>, i: nat, limit: nat, size: nat)
    requires i < |dials| && AllOpen(dials[..i]) && !dials[i].Unreachable?
    requires Unfinished(x, dials, i, limit, size) && AfterDials(x, dials[..i], limit).offset < size
    ensures Unfinished(x, dials, i + 1, limit, size)
    ensures AllOpen(dials[..i + 1]) && dials[..i + 1][..i] == dials[..i]
    ensures AfterDials(x, dials[..i + 1], limit) == AfterDial(AfterDials(x, dials[..i], limit), dials[i], limit)
  {
    assert dials[..i + 1][..i] == dials[..i];
  }

  /** One turn of the loop: dial, realign, send until the connection fails or all is sent. */
  method DialAndSend(net: Network, src: seq<Byte>, count: nat, size: nat, chunk: nat, dial: Attempt, eager: bool, ghost x: Trip)
    returns (offset: nat)
    requires chunk > 0 && net.Valid() && !dial.Unreachable?
    requires (count, net.relayed, net.recorded) == (x.offset, x.relayed, x.recorded)
    modifies net
    ensures var y := AfterDial(x, dial, Min(|src|, size));
            && net.Valid() && (offset, net.relayed, net.recorded) == (y.offset, y.relayed, y.recorded)
            && (forall before: seq<Byte> {:trigger before + BytesAt(src, x.places)} ::
                  old(net.wire) == before + BytesAt(src, x.places) ==> net.wire == before + BytesAt(src, y.places))
  {
    offset := count;
    if dial.RelayOpens? {
      var actualOffset := net.Answer(dial.records);
      offset := Max(offset, actualOffset);
    }
    ghost var from := offset;
    var sent, ok := SendFrom(net, src, offset, size, chunk, RouteOf(dial), dial.accepts, eager);
    BytesOfBoth(src, x.places, Span(from, sent));
    offset := offset + sent;
  }

  /** A transfer nothing was carried of before: the places accepted are the first ones, each once. */
  lemma {:induction false} FreshTrip(dials: seq<Attempt>, limit: nat)
    requires AllOpen(dials)
    ensures var x := AfterDials(Trip(0, [], 0, 0), dials, limit);
            x.recorded <= x.relayed <= x.offset <= limit && x.places == Upto(x.offset)
  {
    if dials != [] {
      FreshTrip(dials[..|dials| - 1], limit);
    }
  }

  lemma FreshTrips(x: Trip, dials: seq<Attempt>, src: seq<Byte>, limit: nat)
    requires AllOpen(dials) && x.offset == 0 && x.places == [] && x.recorded <= x.relayed && limit <= |src|
    ensures x.relayed == 0 ==>
              var y := AfterDials(x, dials, limit);
              y.relayed <= y.offset <= limit && BytesAt(src, y.places) == src[..y.offset]
  {
    if x.relayed == 0 {
      FreshTrip(dials, limit);
      BytesOfUpto(src, AfterDials(x, dials, limit).offset);
    }
  }

  /** One connection as the receiver gets it: what arrives on it before it fails. */
  datatype Piece = Piece(route: Route, bytes: seq<Byte>)

  function Delivered(pieces: seq<Piece>): seq<Byte> {
    if pieces == [] then [] else Delivered(pieces[..|pieces| - 1]) + pieces[|pieces| - 1].bytes
  }

  lemma {:induction false} DeliveredGrows(pieces: seq<Piece>, k: nat)
    requires k <= |pieces|
    ensures Delivered(pieces[..k]) <= Delivered(pieces)
    decreases |pieces|
  {
    if k < |pieces| {
      var init := pieces[..|pieces| - 1];
      DeliveredGrows(init, k);
      assert init[..k] == pieces[..k];
    } else {
      assert pieces[..k] == pieces;
    }
  }

  function Received(pieces: seq<Piece>, size: nat): seq<Byte> { Delivered(pieces)[..Min(size, |Delivered(pieces)|)] }

  /**
   Receive a whole transfer: copy from each connection until the transfer is full or the connection
   ends. What was written is what was delivered, in order, cut at `size`.
   */
  method Receive(pieces: seq<Piece>, size: nat) returns (dst: seq<Byte>, outcome: Outcome)
    ensures dst == Received(pieces, size) <= Delivered(pieces)
    ensures |dst| == Min(size, |Delivered(pieces)|)
    ensures outcome.Complete? <==> |dst| == size
  {
    dst := [];
    var i := 0;
    while |dst| < size && i < |pieces|
      invariant i <= |pieces| && |dst| <= size
      invariant dst <= Delivered(pieces[..i])
      invariant |dst| == Min(size, |Delivered(pieces[..i])|)
    {
      assert pieces[..i + 1][..i] == pieces[..i];
      var n := Min(size - |dst|, |pieces[i].bytes|);
      dst := dst + pieces[i].bytes[..n];
      i := i + 1;
    }
    assert pieces[..|pieces|] == pieces;
    DeliveredGrows(pieces, i);
    outcome := if |dst| == size then Complete else NoRoute;
  }
}
