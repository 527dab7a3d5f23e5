/**
 The transfer relay: one record per grant, one goroutine per connection, and the critical sections in
 which they meet. The sections are functions of the grant record; `Server` runs them in place, and
 `RelayRuns` interleaves them.
 */
module Relay {
  import opened Numbers
  import opened Wrappers

  /** Identifiers are opaque: only their equality is used. */
  type GrantId = nat
  type ConnId = nat

  datatype Role = Source | Sink

  datatype Parked = Parked(conn: ConnId, role: Role)

  datatype Pair = Pair(source: ConnId, sink: ConnId)

  /** The relay's memory of one grant. `active` is the pair a revocation would tear down. */
  datatype Grant = Grant(bytesRelayed: nat, revoked: bool, waiting: Option<Parked>, active: Option<Pair>)

  const NEW_GRANT := Grant(0, false, None, None)

  const DEFAULT_MAX_BYTES: int := 0x1_0000_0000
  const DEFAULT_MAX_CONCURRENT: int := 64

  datatype Config = Config(maxBytesPerGrant: int, maxConcurrent: int) {
    function MaxBytes(): (n: nat)
      ensures n > 0
      ensures maxBytesPerGrant >= 1 ==> n == maxBytesPerGrant
      ensures maxBytesPerGrant < 1 ==> n == 4 * 1024 * 1024 * 1024
    {
      if maxBytesPerGrant > 0 then maxBytesPerGrant else DEFAULT_MAX_BYTES
    }

    function MaxConcurrent(): (n: nat)
      ensures n > 0
      ensures maxConcurrent >= 1 ==> n == maxConcurrent
      ensures maxConcurrent < 1 ==> n == 64
    {
      if maxConcurrent > 0 then maxConcurrent else DEFAULT_MAX_CONCURRENT
    }
  }

  /** What a connection learns in its first critical section. */
  datatype Verdict =
    | RejectRevoked
    | PairWith(peer: ConnId, resumeAt: nat)
    | ParkSelf

  function EnterSection(g: Grant, conn: ConnId, role: Role): (Grant, Verdict) {
    if g.revoked then (g, RejectRevoked)
    else if g.waiting.Some? && g.waiting.value.role != role then
      (g.(waiting := None), PairWith(g.waiting.value.conn, g.bytesRelayed))
    else (g.(waiting := Some(Parked(conn, role))), ParkSelf)
  }

  predicate WaitsHere(g: Grant, conn: ConnId) {
    g.waiting.Some? && g.waiting.value.conn == conn
  }

  function ExpireSection(g: Grant, conn: ConnId): Grant {
    if WaitsHere(g, conn) then g.(waiting := None) else g
  }

  function RevokeSection(g: Grant): Grant {
    g.(revoked := true, waiting := None)
  }

  /** The budget a session starts with, or none when the grant is revoked. */
  function BeginSection(g: Grant, pair: Pair, max: nat): (Grant, Option<nat>) {
    if g.revoked then (g, None)
    else (g.(active := Some(pair)), Some(Budget(g, max)))
  }

  function RecordSection(g: Grant, n: nat): Grant {
    g.(bytesRelayed := g.bytesRelayed + n)
  }

  function ClearSection(g: Grant): Grant {
    g.(active := None)
  }

  /** What a grant may still relay. */
  function Budget(g: Grant, max: nat): nat { if max > g.bytesRelayed then max - g.bytesRelayed else 0 }

  /** A grant's record after a pipe that moved `n` bytes, undisturbed. */
  function Piped(g: Grant, n: nat): Grant {
    if g.revoked then g else g.(bytesRelayed := g.bytesRelayed + n, active := None)
  }

  function PairOf(conn: ConnId, role: Role, peer: ConnId): Pair {
    if role.Source? then Pair(conn, peer) else Pair(peer, conn)
  }

  /** The relay's shared state: the grant table and the count of admitted sessions. */
  class Server {
    const config: Config
    var grants: map<GrantId, Grant>
    var active: nat

    constructor (config: Config)
      ensures this.config == config && grants == map[] && active == 0
    {
      this.config := config;
      grants := map[];
      active := 0;
    }

    /** The record of a grant, created on first use. */
    method State(grant: GrantId) returns (g: Grant)
      modifies this`grants
      ensures grant in grants && grants[grant] == g
      ensures grants == if grant in old(grants) then old(grants) else old(grants)[grant := NEW_GRANT]
    {
      if grant !in grants {
        grants := grants[grant := NEW_GRANT];
      }
      g := grants[grant];
    }

    method Admit() returns (admitted: bool)
      modifies this`active
      ensures admitted == (old(active) < config.MaxConcurrent())
      ensures active == if admitted then old(active) + 1 else old(active)
    {
      if active >= config.MaxConcurrent() {
        return false;
      }
      active := active + 1;
      admitted := true;
    }

    method Release()
      modifies this`active
      ensures active == if old(active) > 0 then old(active) - 1 else 0
    {
      if active > 0 {
        active := active - 1;
      }
    }

    /** The critical section of `handle`. */
    method Enter(grant: GrantId, conn: ConnId, role: Role) returns (verdict: Verdict)
      modifies this`grants
      ensures var before := if grant in old(grants) then old(grants)[grant] else NEW_GRANT;
              grants == old(grants)[grant := EnterSection(before, conn, role).0] && verdict == EnterSection(before, conn, role).1
    {
      var g := State(grant);
      if g.revoked {
        return RejectRevoked;
      }
      var resumeAt := g.bytesRelayed;
      if g.waiting.Some? && g.waiting.value.role != role {
        verdict := PairWith(g.waiting.value.conn, resumeAt);
        g := g.(waiting := None);
      } else {
        g := g.(waiting := Some(Parked(conn, role)));
        verdict := ParkSelf;
      }
      grants := grants[grant := g];
    }

    /** The critical section a waiter runs when its pairing timeout fires. */
    method Expire(grant: GrantId, conn: ConnId) returns (stillWaiting: bool)
      requires grant in grants
      modifies this`grants
      ensures stillWaiting == WaitsHere(old(grants)[grant], conn)
      ensures grants == old(grants)[grant := ExpireSection(old(grants)[grant], conn)]
    {
      var g := grants[grant];
      stillWaiting := g.waiting.Some? && g.waiting.value.conn == conn;
      if stillWaiting {
        g := g.(waiting := None);
      }
      grants := grants[grant := g];
    }

    /** The critical section of `Revoke`: the waiter and the active pair it takes away. */
    method Revoke(grant: GrantId) returns (waiting: Option<Parked>, active: Option<Pair>)
      modifies this`grants
      ensures var before := if grant in old(grants) then old(grants)[grant] else NEW_GRANT;
              && grants == old(grants)[grant := RevokeSection(before)]
              && waiting == before.waiting && active == before.active
    {
      var g := State(grant);
      waiting, active := g.waiting, g.active;
      g := g.(revoked := true);
      g := g.(waiting := None);
      grants := grants[grant := g];
    }

    /** The first critical section of `pipe`. */
    method Begin(grant: GrantId, pair: Pair) returns (remaining: Option<nat>)
      requires grant in grants
      modifies this`grants
      ensures (grants, remaining)
           == (old(grants)[grant := BeginSection(old(grants)[grant], pair, config.MaxBytes()).0],
               BeginSection(old(grants)[grant], pair, config.MaxBytes()).1)
    {
      var g := grants[grant];
      if g.revoked {
        assert grants == grants[grant := g];
        return None;
      }
      var left := config.MaxBytes() - g.bytesRelayed;
      grants := grants[grant := g.(active := Some(pair))];
      remaining := Some(if left > 0 then left else 0);
    }

    /**
     The copy of `pipe`: at most `remaining` bytes go from the source to the sink, in order and
     unchanged, before the limited reader ends. `available` is what the source yields before it closes
     and `accepted` how many bytes the sink takes before it fails.
     */
    method Copy(available: seq<int>, accepted: nat, remaining: nat, chunk: nat) returns (sent: seq<int>)
      requires chunk > 0
      ensures |sent| <= |available| && sent == available[..|sent|]
      ensures |sent| == Min(remaining, Min(|available|, accepted))
    {
      sent := [];
      while |sent| < remaining && |sent| < |available| && |sent| < accepted
        invariant |sent| <= |available| && sent == available[..|sent|]
        invariant |sent| <= Min(remaining, Min(|available|, accepted))
        decreases remaining - |sent|
      {
        var n := Min(chunk, Min(remaining - |sent|, Min(|available| - |sent|, accepted - |sent|)));
        sent := sent + available[|sent|..|sent| + n];
      }
    }

    /** The last critical section of `pipe`. */
    method Record(grant: GrantId, n: nat) returns (total: nat)
      requires grant in grants
      modifies this`grants
      ensures grants == old(grants)[grant := RecordSection(old(grants)[grant], n)]
      ensures total == old(grants)[grant].bytesRelayed + n
    {
      var g := grants[grant];
      g := g.(bytesRelayed := g.bytesRelayed + n);
      total := g.bytesRelayed;
      grants := grants[grant := g];
    }

    method Clear(grant: GrantId)
      requires grant in grants
      modifies this`grants
      ensures grants == old(grants)[grant := ClearSection(old(grants)[grant])]
    {
      grants := grants[grant := grants[grant].(active := None)];
    }

    /**
     `pipe`: begin, copy within the budget, record, clear, release. What reaches the sink is a prefix of what
     the source yields, the record grows by exactly that, and on its own a pipe never takes it past the cap.
     */
    method Pipe(grant: GrantId, pair: Pair, expired: bool, available: seq<int>, accepted: nat, chunk: nat)
      returns (sent: seq<int>)
      requires grant in grants && active > 0 && chunk > 0
      modifies this`grants, this`active
      ensures sent <= available
      ensures |sent| == if old(grants)[grant].revoked || expired then 0
                        else Min(Budget(old(grants)[grant], config.MaxBytes()), Min(|available|, accepted))
      ensures grants == old(grants)[grant := Piped(old(grants)[grant], |sent|)] && active == old(active) - 1
      ensures old(grants)[grant].bytesRelayed <= config.MaxBytes() ==> grants[grant].bytesRelayed <= config.MaxBytes()
    {
      sent := [];
      var remaining := Begin(grant, pair);
      if remaining.Some? {
        if remaining.value > 0 && !expired {
          sent := Copy(available, accepted, remaining.value, chunk);
          var _ := Record(grant, |sent|);
        }
        Clear(grant);
      }
      Release();
    }

    /**
     `pairAndRelay`: admit, acknowledge both sides, pipe. Whatever happens the session's slot is given back,
     and nothing is relayed unless it was admitted and both sides were told so.
     */
    method PairAndRelay(
      grant: GrantId, conn: ConnId, role: Role, peer: ConnId, acked: bool, expired: bool, available: seq<int>,
      accepted: nat, chunk: nat) returns (sent: seq<int>)
      requires grant in grants && chunk > 0
      modifies this`grants, this`active
      ensures active == old(active) && sent <= available
      ensures grants == if old(active) < config.MaxConcurrent() && acked then
                          old(grants)[grant := Piped(old(grants)[grant], |sent|)]
                        else old(grants)
      ensures !(old(active) < config.MaxConcurrent() && acked) ==> sent == []
      ensures sent != [] ==> !old(grants)[grant].revoked && !expired
      ensures |sent| <= Budget(old(grants)[grant], config.MaxBytes())
    {
      sent := [];
      var admitted := Admit();
      if !admitted {
        return;
      }
      if !acked {
        Release();
        return;
      }
      sent := Pipe(grant, PairOf(conn, role, peer), expired, available, accepted, chunk);
    }
  }
}
