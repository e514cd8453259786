/** Replay of stream requests, over whole runs of the server on the bytes that come in. */
module StreamReplay {
  import opened Words
  import opened Crypto
  import opened SocksAddr
  import opened PacketHeader
  import opened PacketPacker
  import opened PacketServer
  import opened SaltPools
  import opened StreamWire
  import opened Stream

  /** One connection: what comes in, and the two clock readings, of the header check and of the pool. */
  datatype Connection = Connection(input: Bytes, checked: int, added: int)

  type Accepted = Result<Accept, StreamError>

  /** What the server makes of a connection, and the salt pool afterwards. The clock has `u` ticks per second. */
  function Serve(s: Suite, cfg: ServerConfig, prefix: Bytes, u: nat, p: Pool, a: Connection): (Pool, Accepted)
    requires u > 0
  {
    var fixed := AcceptFixed(s, cfg, prefix, a.input, a.checked / u);
    (if fixed.Ok? then AddTo(p, fixed.value.salt, a.added).0 else p,
     AcceptRequest(s, cfg, prefix, a.input, a.checked / u, (salt: Bytes) => AddTo(p, salt, a.added).1))
  }

  function Served(s: Suite, cfg: ServerConfig, prefix: Bytes, u: nat, p: Pool, run: seq<Connection>): (r: seq<Accepted>)
    requires u > 0
    ensures |r| == |run|
    decreases |run|
  {
    if run == [] then []
    else
      var (p', r) := Serve(s, cfg, prefix, u, p, run[0]);
      [r] + Served(s, cfg, prefix, u, p', run[1..])
  }

  /** Connections reach the pool in lock order, at most `d` ticks after their header check. */
  predicate RunOk(u: nat, d: nat, now: int, run: seq<Connection>)
    requires u > 0
  {
    && (forall i :: 0 <= i < |run| ==>
          SaneNow(run[i].checked / u) && run[i].checked <= run[i].added <= run[i].checked + d && now <= run[i].added)
    && (forall i, j :: 0 <= i < j < |run| ==> run[i].added <= run[j].added)
  }

  /** The part of a request that is checked: prefix, salt, identity header and fixed-length header. */
  predicate SameRequest(cfg: ServerConfig, prefix: Bytes, a: Bytes, b: Bytes) {
    var n := FixedEnd(cfg, prefix);
    n <= |a| && n <= |b| && a[..n] == b[..n]
  }

  predicate AcceptedTwice(s: Suite, cfg: ServerConfig, prefix: Bytes, u: nat, p: Pool, run: seq<Connection>, i: nat, j: nat)
    requires u > 0
  {
    && i < j < |run| && SameRequest(cfg, prefix, run[i].input, run[j].input)
    && Served(s, cfg, prefix, u, p, run)[i].Ok? && Served(s, cfg, prefix, u, p, run)[j].Ok?
  }

  function SaltOf(cfg: ServerConfig, prefix: Bytes, input: Bytes): Bytes
    requires FixedEnd(cfg, prefix) <= |input|
  {
    input[|prefix|..|prefix| + |cfg.psk|]
  }

  /** What acceptance says of a connection. */
  lemma ServeFacts(s: Suite, cfg: ServerConfig, prefix: Bytes, u: nat, p: Pool, a: Connection)
    requires u > 0
    ensures var (p', r) := Serve(s, cfg, prefix, u, p, a);
            var fixed := AcceptFixed(s, cfg, prefix, a.input, a.checked / u);
            && (fixed.Err? ==> p' == p && r == Err(fixed.error))
            && (fixed.Ok? ==>
                  && FixedEnd(cfg, prefix) <= |a.input| && p' == AddTo(p, SaltOf(cfg, prefix, a.input), a.added).0
                  && (r.Ok? ==> AddTo(p, SaltOf(cfg, prefix, a.input), a.added).1))
  {
    hide AddTo, StreamUser, Open, ParseFixed, SessionKey, NonceOf, AcceptVariable, Crypto.Primitives.Lawful;
  }

  lemma ServedStep(s: Suite, cfg: ServerConfig, prefix: Bytes, u: nat, p: Pool, run: seq<Connection>)
    requires u > 0 && run != []
    ensures var (p', r) := Serve(s, cfg, prefix, u, p, run[0]);
            Served(s, cfg, prefix, u, p, run) == [r] + Served(s, cfg, prefix, u, p', run[1..])
  {
    hide Serve;
  }

  lemma RunTail(u: nat, d: nat, now: int, run: seq<Connection>)
    requires u > 0 && RunOk(u, d, now, run) && run != []
    ensures now <= run[0].added && RunOk(u, d, run[0].added, run[1..])
    ensures forall j :: 0 <= j < |run| ==> run[0].added <= run[j].added
  {
    hide SaneNow;
  }

  lemma {:induction false} HeldSaltRefused(s: Suite, cfg: ServerConfig, prefix: Bytes, u: nat, d: nat, p: Pool, run: seq<Connection>,
                                           now: int, t: int, j: nat)
    requires u > 0 && PoolOk(p, now) && RunOk(u, d, now, run) && j < |run|
    requires Served(s, cfg, prefix, u, p, run)[j].Ok? && FixedEnd(cfg, prefix) <= |run[j].input|
    requires var salt := SaltOf(cfg, prefix, run[j].input); salt in p.salts && p.salts[salt] == t
    ensures run[j].added - t > p.retention
    decreases |run|
  {
    hide Serve, Served, SaltOf, FixedEnd, RunOk, AcceptFixed, AddTo, PoolOk;
    RunTail(u, d, now, run);
    ServedStep(s, cfg, prefix, u, p, run);
    ServeFacts(s, cfg, prefix, u, p, run[0]);
    var p' := Serve(s, cfg, prefix, u, p, run[0]).0;
    var salt := SaltOf(cfg, prefix, run[j].input);
    PoolMoves(p, p', cfg, prefix, run[0], now, salt, t);
    if j > 0 && salt in p'.salts && p'.salts[salt] == t {
      HeldSaltRefused(s, cfg, prefix, u, d, p', run[1..], run[0].added, t, j - 1);
    }
  }

  /** A salt leaves the pool, or is entered anew, only past the retention. */
  lemma PoolMoves(p: Pool, p': Pool, cfg: ServerConfig, prefix: Bytes, a: Connection, now: int, salt: Bytes, t: int)
    requires PoolOk(p, now) && now <= a.added && salt in p.salts && p.salts[salt] == t
    requires p' == p || (FixedEnd(cfg, prefix) <= |a.input| && p' == AddTo(p, SaltOf(cfg, prefix, a.input), a.added).0)
    ensures PoolOk(p', a.added) && p'.retention == p.retention
    ensures !(salt in p'.salts && p'.salts[salt] == t) ==> a.added - t > p.retention
    ensures AddTo(p, salt, a.added).1 ==> a.added - t > p.retention
  {
    hide SaltOf, FixedEnd;
  }

  lemma ServeKeepsPool(s: Suite, cfg: ServerConfig, prefix: Bytes, u: nat, p: Pool, a: Connection, now: int)
    requires u > 0 && PoolOk(p, now) && now <= a.added
    ensures var (p', r) := Serve(s, cfg, prefix, u, p, a);
            && PoolOk(p', a.added) && p'.retention == p.retention
            && (r.Ok? ==>
                  && FixedEnd(cfg, prefix) <= |a.input|
                  && var salt := SaltOf(cfg, prefix, a.input); salt in p'.salts && p'.salts[salt] == a.added)
  {
    hide Serve, SaltOf, FixedEnd, AcceptFixed;
    ServeFacts(s, cfg, prefix, u, p, a);
  }

  /** Two acceptances with one salt are more than the retention apart. */
  lemma {:induction false} AcceptancesFarApart(s: Suite, cfg: ServerConfig, prefix: Bytes, u: nat, d: nat, p: Pool, run: seq<Connection>,
                                               now: int, i: nat, j: nat)
    requires u > 0 && PoolOk(p, now) && RunOk(u, d, now, run) && i < j < |run|
    requires Served(s, cfg, prefix, u, p, run)[i].Ok? && Served(s, cfg, prefix, u, p, run)[j].Ok?
    requires FixedEnd(cfg, prefix) <= |run[i].input| && FixedEnd(cfg, prefix) <= |run[j].input|
    requires SaltOf(cfg, prefix, run[i].input) == SaltOf(cfg, prefix, run[j].input)
    ensures run[j].added - run[i].added > p.retention
    decreases |run|
  {
    hide Serve, Served, SaltOf, FixedEnd, RunOk, PoolOk;
    RunTail(u, d, now, run);
    ServedStep(s, cfg, prefix, u, p, run);
    ServeKeepsPool(s, cfg, prefix, u, p, run[0], now);
    var p' := Serve(s, cfg, prefix, u, p, run[0]).0;
    if i > 0 {
      AcceptancesFarApart(s, cfg, prefix, u, d, p', run[1..], run[0].added, i - 1, j - 1);
    } else {
      HeldSaltRefused(s, cfg, prefix, u, d, p', run[1..], run[0].added, run[0].added, j - 1);
    }
  }

  /** An accepted connection had a timestamp in range, which its checked part alone determines. */
  lemma AcceptedInTime(s: Suite, cfg: ServerConfig, prefix: Bytes, a: Bytes, b: Bytes, now: int, now': int) returns (ts: U64)
    requires SameRequest(cfg, prefix, a, b)
    requires AcceptFixed(s, cfg, prefix, a, now).Ok? && AcceptFixed(s, cfg, prefix, b, now').Ok?
    ensures TimestampOk(ts, now) && TimestampOk(ts, now')
    ensures SaltOf(cfg, prefix, a) == SaltOf(cfg, prefix, b)
  {
    hide Open, SessionKey, NonceOf, TimestampOk, Get64, Get16, StreamUser, Crypto.Primitives.Lawful;
    var n := FixedEnd(cfg, prefix);
    var idStart := |prefix| + |cfg.psk|;
    var fixedStart := idStart + cfg.IdentityLen();
    HeadSlices(a, n, |prefix|, idStart, fixedStart);
    HeadSlices(b, n, |prefix|, idStart, fixedStart);
    var salt := a[|prefix|..idStart];
    var psk := StreamUser(s, cfg, salt, a[idStart..fixedStart]).value;
    var fixed := Open(s, SessionKey(s, psk, salt), NonceOf(0), a[fixedStart..n]).value;
    ts := Get64(fixed[1..]);
  }

  lemma HeadSlices(b: Bytes, n: nat, i: nat, j: nat, k: nat)
    requires i <= j <= k <= n <= |b|
    ensures b[..n][i..j] == b[i..j] && b[..n][j..k] == b[j..k] && b[..n][k..] == b[k..n]
  {}

  ghost predicate NeverAcceptedTwice(s: Suite, cfg: ServerConfig, prefix: Bytes, u: nat, d: nat, retention: nat)
    requires u > 0
  {
    forall now: int, run: seq<Connection>, i: nat, j: nat ::
      RunOk(u, d, now, run) ==> !AcceptedTwice(s, cfg, prefix, u, Pool(map[], retention, now), run, i, j)
  }

  lemma {:induction false} ServedFixed(s: Suite, cfg: ServerConfig, prefix: Bytes, u: nat, p: Pool, run: seq<Connection>, i: nat)
    requires u > 0 && i < |run| && Served(s, cfg, prefix, u, p, run)[i].Ok?
    ensures AcceptFixed(s, cfg, prefix, run[i].input, run[i].checked / u).Ok?
    decreases |run|
  {
    hide Serve, Served;
    ServedStep(s, cfg, prefix, u, p, run);
    if i == 0 {
      ServeFacts(s, cfg, prefix, u, p, run[0]);
    } else {
      ServedFixed(s, cfg, prefix, u, Serve(s, cfg, prefix, u, p, run[0]).0, run[1..], i - 1);
    }
  }

  /** With a retention of 61 s less one tick and the delay, no bytes are accepted twice, in any run. */
  lemma ReplayRefused(s: Suite, cfg: ServerConfig, prefix: Bytes, u: nat, d: nat, retention: nat)
    requires u > 0 && retention >= 61 * u - 1 + d
    ensures NeverAcceptedTwice(s, cfg, prefix, u, d, retention)
  {
    hide Served, AcceptFixed, SaneNow, TimestampOk;
    forall now: int, run: seq<Connection>, i: nat, j: nat | RunOk(u, d, now, run)
      ensures !AcceptedTwice(s, cfg, prefix, u, Pool(map[], retention, now), run, i, j)
    {
      var p := Pool(map[], retention, now);
      if AcceptedTwice(s, cfg, prefix, u, p, run, i, j) {
        ServedFixed(s, cfg, prefix, u, p, run, i);
        ServedFixed(s, cfg, prefix, u, p, run, j);
        var ts := AcceptedInTime(s, cfg, prefix, run[i].input, run[j].input, run[i].checked / u, run[j].checked / u);
        AcceptancesFarApart(s, cfg, prefix, u, d, p, run, now, i, j);
        ValidityWindow(u, ts, run[i].checked, run[j].checked);
      }
    }
  }

  /** A request with a timestamp 30 s ahead of `base`. */
  function EdgeRequest(s: Suite, keys: ClientKeys, prefix: Bytes, salt: Bytes, base: nat): Bytes
    requires base < Two63 - 100
  {
    Request(s, keys, prefix, salt, base + 30, FromIP(AddrPort(V4([192, 0, 2, 1]), 443)), [0], [], [])
  }

  function EdgeConnections(input: Bytes, u: nat, d: nat, base: nat): seq<Connection> {
    [Connection(input, base * u, base * u), Connection(input, base * u + 61 * u - 1, base * u + 61 * u - 1 + d)]
  }

  /** With a shorter retention the bytes of any client's request pass twice. */
  lemma ReplayAccepted(s: Suite, cfg: ServerConfig, keys: ClientKeys, prefix: Bytes, salt: Bytes, u: nat, d: nat, retention: nat, base: nat)
    requires u > 0 && retention < 61 * u - 1 + d && base < Two63 - 100
    requires Matches(s, cfg, keys) && |salt| == |cfg.psk|
    ensures var run := EdgeConnections(EdgeRequest(s, keys, prefix, salt, base), u, d, base);
            && RunOk(u, d, base * u, run)
            && AcceptedTwice(s, cfg, prefix, u, Pool(map[], retention, base * u), run, 0, 1)
  {
    hide AcceptRequest, AcceptFixed, Matches, SaneNow, TimestampOk, EdgeRequest, AddTo, Served, RunOk, FixedEnd, Crypto.Primitives.Lawful;
    var input := EdgeRequest(s, keys, prefix, salt, base);
    var run := EdgeConnections(input, u, d, base);
    var start := base * u;
    var p, p' := Pool(map[], retention, start), Pool(map[salt := start], retention, start);
    EdgeSeconds(u, base);
    EdgeRun(input, u, d, base);
    EdgePool(salt, start, 61 * u - 1 + d, retention);
    EdgeAccepted(s, cfg, keys, prefix, salt, base, base, (x: Bytes) => AddTo(p, x, start).1);
    EdgeAccepted(s, cfg, keys, prefix, salt, base, base + 60, (x: Bytes) => AddTo(p', x, run[1].added).1);
    assert Serve(s, cfg, prefix, u, p, run[0]).0 == p';
    ServedStep(s, cfg, prefix, u, p, run);
    assert run[1..] == [run[1]];
    ServedStep(s, cfg, prefix, u, p', run[1..]);
  }

  lemma EdgePool(salt: Bytes, start: int, later: nat, retention: nat)
    requires retention < later
    ensures var p, p' := Pool(map[], retention, start), Pool(map[salt := start], retention, start);
            AddTo(p, salt, start) == (p', true) && AddTo(p', salt, start + later).1
  {}

  lemma EdgeRun(input: Bytes, u: nat, d: nat, base: nat)
    requires u > 0 && base < Two63 - 100
    ensures RunOk(u, d, base * u, EdgeConnections(input, u, d, base))
  {
    hide SaneNow;
    EdgeSeconds(u, base);
    EdgeValid(base);
  }

  lemma EdgeAccepted(s: Suite, cfg: ServerConfig, keys: ClientKeys, prefix: Bytes, salt: Bytes, base: nat, now: int, unused: Bytes -> bool)
    requires base < Two63 - 100 && (now == base || now == base + 60) && unused(salt)
    requires Matches(s, cfg, keys) && |salt| == |cfg.psk|
    ensures var input := EdgeRequest(s, keys, prefix, salt, base);
            && AcceptRequest(s, cfg, prefix, input, now, unused).Ok?
            && AcceptFixed(s, cfg, prefix, input, now).Ok? && AcceptFixed(s, cfg, prefix, input, now).value.salt == salt
  {
    hide Request, AcceptFixed, AcceptVariable, Matches, TimestampOk, Split, Chunks, Addr.Unmap, Crypto.Primitives.Lawful;
    var input := EdgeRequest(s, keys, prefix, salt, base);
    EdgeValid(base);
    assert input + [] == input;
    AcceptOfRequest(s, cfg, keys, prefix, salt, base + 30, FromIP(AddrPort(V4([192, 0, 2, 1]), 443)), [0], [], [], [], now, unused);
  }

  /** No request bytes are accepted twice, in any run of a server that some client is configured for, exactly when the
      retention covers the whole validity window and the handshake delay. */
  lemma ReplayRefusedExactly(s: Suite, cfg: ServerConfig, keys: ClientKeys, prefix: Bytes, u: nat, d: nat, retention: nat)
    requires u > 0 && Matches(s, cfg, keys)
    ensures NeverAcceptedTwice(s, cfg, prefix, u, d, retention) <==> retention >= 61 * u - 1 + d
  {
    hide Matches, RunOk, AcceptedTwice;
    if retention >= 61 * u - 1 + d {
      ReplayRefused(s, cfg, prefix, u, d, retention);
    } else {
      var salt: Bytes := seq(|cfg.psk|, _ => 0);
      ReplayAccepted(s, cfg, keys, prefix, salt, u, d, retention, 1_700_000_000);
      assert !NeverAcceptedTwice(s, cfg, prefix, u, d, retention);
    }
  }

  /** The server's connections one after another, through the objects. */
  method ServeAll(s: Suite, cfg: ServerConfig, prefix: Bytes, u: nat, pool: SaltPool, run: seq<Connection>) returns (rs: seq<Accepted>)
    requires u > 0
    modifies pool
    ensures rs == Served(s, cfg, prefix, u, old(pool.Spec()), run)
  {
    hide AcceptFixed, AcceptRequest, AddTo, Crypto.Primitives.Lawful, Served;
    rs := [];
    ghost var all := Served(s, cfg, prefix, u, pool.Spec(), run);
    assert run[0..] == run && [] + all == all;
    for i := 0 to |run|
      invariant all == rs + Served(s, cfg, prefix, u, pool.Spec(), run[i..])
    {
      ServedStep(s, cfg, prefix, u, pool.Spec(), run[i..]);
      assert run[i..][0] == run[i] && run[i..][1..] == run[i + 1..];
      var conn := new Conn(run[i].input, _ => None);
      var r, reader, seen := NewServer(s, cfg, conn, pool, prefix, run[i].checked / u, run[i].added);
      rs := rs + [r];
    }
    assert run[|run|..] == [];
    ServedNothing(s, cfg, prefix, u, pool.Spec(), run[|run|..]);
  }

  lemma ServedNothing(s: Suite, cfg: ServerConfig, prefix: Bytes, u: nat, p: Pool, run: seq<Connection>)
    requires u > 0 && run == []
    ensures Served(s, cfg, prefix, u, p, run) == []
  {}

  /** A request with a timestamp out of range is refused by the server object, and its salt is not entered. */
  method RefuseStale(s: Suite, cfg: ServerConfig, keys: ClientKeys, prefix: Bytes, salt: Bytes, ts: U64, target: Addr, pad: Bytes,
                     payload: Bytes, excess: Bytes, conn: Conn, pool: SaltPool, now: int, t: int)
    returns (r: Accepted)
    requires Matches(s, cfg, keys) && |salt| == |cfg.psk| && !TimestampOk(ts, now)
    requires |pad| <= 0xffff && LengthOf(target) + 2 + |pad| + |payload| <= MaxPayloadSize && |pad| + |payload| >= 1
    requires conn.inbox == Request(s, keys, prefix, salt, ts, target, pad, payload, excess)
    modifies conn, pool
    ensures r == Err(BadStreamHeader(BadTimestamp)) && pool.Spec() == old(pool.Spec())
  {
    hide Request, AcceptRequest, AcceptFixed, Matches, TimestampOk, LengthOf, AddTo, Crypto.Primitives.Lawful;
    ghost var p := pool.Spec();
    assert conn.inbox + [] == conn.inbox;
    AcceptOfRequest(s, cfg, keys, prefix, salt, ts, target, pad, payload, excess, [], now, (x: Bytes) => AddTo(p, x, t).1);
    var reader, seen;
    r, reader, seen := NewServer(s, cfg, conn, pool, prefix, now, t);
  }
}
