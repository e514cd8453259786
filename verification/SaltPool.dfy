/** The pool of request salts that protects the stream server from replayed requests. */
module SaltPools {
  import opened Words
  import opened PacketHeader

  type Salt = Bytes

  // ----- specification -----

  datatype Pool = Pool(salts: map<Salt, int>, retention: nat, lastCleanup: int)

  function Expire(salts: map<Salt, int>, retention: nat, now: int): map<Salt, int> {
    map s | s in salts && now - salts[s] <= retention :: salts[s]
  }

  function Clean(p: Pool, now: int): Pool {
    if now - p.lastCleanup > p.retention then p.(salts := Expire(p.salts, p.retention, now), lastCleanup := now)
    else p
  }

  function AddTo(p: Pool, salt: Salt, now: int): (Pool, bool) {
    var q := Clean(p, now);
    if salt in q.salts then (q, false) else (q.(salts := q.salts[salt := now]), true)
  }

  // ----- the object -----

  class SaltPool {
    var pool: map<Salt, int>
    const retention: nat
    var lastCleanup: int

    ghost function Spec(): Pool
      reads this
    {
      Pool(pool, retention, lastCleanup)
    }

    constructor (retention: nat, now: int)
      ensures Spec() == Pool(map[], retention, now)
    {
      pool, this.retention, lastCleanup := map[], retention, now;
    }

    method Add(salt: Salt, now: int) returns (ok: bool)
      modifies this
      ensures (Spec(), ok) == AddTo(old(Spec()), salt, now)
    {
      if now - lastCleanup > retention {
        var keys := pool.Keys;
        ghost var before := pool;
        while keys != {}
          invariant keys <= before.Keys && lastCleanup == old(lastCleanup)
          invariant forall s :: s in pool <==> s in before && (s in keys || now - before[s] <= retention)
          invariant forall s :: s in pool ==> pool[s] == before[s]
        {
          var s :| s in keys;
          if s in pool && now - pool[s] > retention {
            pool := pool - {s};
          }
          keys := keys - {s};
        }
        assert pool == Expire(before, retention, now);
        lastCleanup := now;
      }
      if salt in pool {
        return false;
      }
      pool := pool[salt := now];
      ok := true;
    }
  }

  // ----- whole runs, in lock order under a clock that never goes back -----

  datatype Attempt = Attempt(salt: Salt, now: int)

  predicate Monotone(now: int, run: seq<Attempt>) {
    && (forall i :: 0 <= i < |run| ==> now <= run[i].now)
    && (forall i, j :: 0 <= i < j < |run| ==> run[i].now <= run[j].now)
  }

  function After(p: Pool, run: seq<Attempt>): Pool
    decreases |run|
  {
    if run == [] then p else After(AddTo(p, run[0].salt, run[0].now).0, run[1..])
  }

  function Answers(p: Pool, run: seq<Attempt>): (r: seq<bool>)
    ensures |r| == |run|
    decreases |run|
  {
    if run == [] then [] else
    var (p', ok) := AddTo(p, run[0].salt, run[0].now);
    [ok] + Answers(p', run[1..])
  }

  predicate PoolOk(p: Pool, now: int) {
    && p.lastCleanup <= now
    && forall s :: s in p.salts ==> p.lastCleanup - p.retention <= p.salts[s] <= now
  }

  lemma AddKeepsPool(p: Pool, salt: Salt, now: int, now': int)
    requires PoolOk(p, now) && now <= now'
    ensures PoolOk(AddTo(p, salt, now').0, now')
    ensures AddTo(p, salt, now').0.retention == p.retention
    ensures NoneOlder(AddTo(p, salt, now').0, now', 2 * p.retention)
  {}

  predicate NoneOlder(p: Pool, now: int, age: nat) {
    forall s :: s in p.salts ==> now - p.salts[s] <= age
  }

  /** No entry older than twice the retention survives an Add. */
  lemma {:induction false} NoEntryOlderThanTwice(p: Pool, run: seq<Attempt>, now: int)
    requires PoolOk(p, now) && Monotone(now, run) && run != []
    ensures NoneOlder(After(p, run), run[|run| - 1].now, 2 * p.retention)
    decreases |run|
  {
    AddKeepsPool(p, run[0].salt, now, run[0].now);
    hide AddTo, NoneOlder, PoolOk;
    var p' := AddTo(p, run[0].salt, run[0].now).0;
    assert After(p, run) == After(p', run[1..]);
    if |run| == 1 {
      assert run[1..] == [] && After(p', []) == p';
    } else {
      assert run[1..][|run[1..]| - 1] == run[|run| - 1];
      NoEntryOlderThanTwice(p', run[1..], run[0].now);
    }
  }

  /** A salt that is in the pool since `t` is not accepted again up to `t + retention`. */
  lemma {:induction false} HeldWhileFresh(p: Pool, run: seq<Attempt>, now: int, t: int, salt: Salt, j: nat)
    requires PoolOk(p, now) && Monotone(now, run) && j < |run|
    requires salt in p.salts && p.salts[salt] == t
    requires run[j].salt == salt && Answers(p, run)[j]
    ensures run[j].now - t > p.retention
    decreases |run|
  {
    var (p', ok) := AddTo(p, run[0].salt, run[0].now);
    AddKeepsPool(p, run[0].salt, now, run[0].now);
    if j > 0 {
      if salt in p'.salts && p'.salts[salt] == t {
        HeldWhileFresh(p', run[1..], run[0].now, t, salt, j - 1);
      } else {
        assert run[0].now - t > p.retention;
      }
    }
  }

  /** Two acceptances of one salt are more than the retention apart. */
  lemma {:induction false} AcceptancesApart(p: Pool, run: seq<Attempt>, now: int, i: nat, j: nat)
    requires PoolOk(p, now) && Monotone(now, run) && i < j < |run|
    requires run[i].salt == run[j].salt && Answers(p, run)[i] && Answers(p, run)[j]
    ensures run[j].now - run[i].now > p.retention
    decreases |run|
  {
    var (p', ok) := AddTo(p, run[0].salt, run[0].now);
    AddKeepsPool(p, run[0].salt, now, run[0].now);
    if i > 0 {
      AcceptancesApart(p', run[1..], run[0].now, i - 1, j - 1);
    } else {
      HeldWhileFresh(p', run[1..], run[0].now, run[0].now, run[0].salt, j - 1);
    }
  }

  /** A salt that was not accepted within twice the retention is accepted. */
  lemma {:induction false} ForgottenSaltAccepted(p: Pool, run: seq<Attempt>, now: int, j: nat)
    requires PoolOk(p, now) && Monotone(now, run) && j < |run|
    requires run[j].salt in p.salts ==> run[j].now - p.salts[run[j].salt] > 2 * p.retention
    requires forall i :: 0 <= i < j && run[i].salt == run[j].salt && Answers(p, run)[i] ==>
               run[j].now - run[i].now > 2 * p.retention
    ensures Answers(p, run)[j]
    decreases |run|
  {
    var (p', ok) := AddTo(p, run[0].salt, run[0].now);
    AddKeepsPool(p, run[0].salt, now, run[0].now);
    assert Answers(p, run) == [ok] + Answers(p', run[1..]);
    if j > 0 {
      forall i | 0 <= i < j - 1 && run[1..][i].salt == run[j].salt && Answers(p', run[1..])[i]
        ensures run[j].now - run[1..][i].now > 2 * p.retention
      {
        assert run[1..][i] == run[i + 1] && Answers(p, run)[i + 1];
      }
      ForgottenSaltAccepted(p', run[1..], run[0].now, j - 1);
    }
  }

  /** An Add, exactly. Entries older than the retention go only when a cleanup is due, which is once in more than a
      retention; until then every entry counts, however old. */
  lemma AddExactly(p: Pool, salt: Salt, now: int)
    ensures var (q, ok) := AddTo(p, salt, now);
            var due := now - p.lastCleanup > p.retention;
            && (ok <==> salt !in p.salts || (due && now - p.salts[salt] > p.retention))
            && q.retention == p.retention && q.lastCleanup == (if due then now else p.lastCleanup)
            && (forall s :: s in q.salts <==> s == salt || (s in p.salts && !(due && now - p.salts[s] > p.retention)))
            && (forall s :: s in q.salts ==> q.salts[s] == if s == salt && ok then now else p.salts[s])
  {}

  // ----- replayed requests -----

  /** Key lengths of the two methods. */
  predicate IsKeyLength(n: nat) {
    n == 16 || n == 32
  }

  /** A handshake with its timestamp and the two clock readings: header check and pool insertion. */
  datatype Handshake = Handshake(salt: Salt, ts: U64, checked: int, added: int)

  /** The server's clock has `u` ticks per second, and at most `d` ticks pass between the header
      check and the pool insertion of one handshake. Handshakes reach the pool in lock order. Salts have
      the length of the server's key. */
  predicate RequestsOk(u: nat, d: nat, keyLen: nat, now: int, rs: seq<Handshake>)
    requires u > 0
  {
    && (forall i :: 0 <= i < |rs| ==>
          && |rs[i].salt| == keyLen
          && SaneNow(rs[i].checked / u)
          && rs[i].checked <= rs[i].added <= rs[i].checked + d
          && now <= rs[i].added)
    && (forall i, j :: 0 <= i < j < |rs| ==> rs[i].added <= rs[j].added)
  }

  /** Only requests with a valid timestamp reach the pool. */
  function Passes(u: nat, p: Pool, rs: seq<Handshake>): (r: seq<bool>)
    requires u > 0
    ensures |r| == |rs|
    decreases |rs|
  {
    if rs == [] then [] else
    if !TimestampOk(rs[0].ts, rs[0].checked / u) then [false] + Passes(u, p, rs[1..]) else
    var (p', ok) := AddTo(p, rs[0].salt, rs[0].added);
    [ok] + Passes(u, p', rs[1..])
  }

  predicate Repeats(u: nat, p: Pool, rs: seq<Handshake>, i: nat, j: nat)
    requires u > 0
  {
    && i < j < |rs| && rs[i].salt == rs[j].salt && rs[i].ts == rs[j].ts
    && Passes(u, p, rs)[i] && Passes(u, p, rs)[j]
  }

  lemma {:induction false} HeldWhileFreshRequests(u: nat, d: nat, n: nat, p: Pool, rs: seq<Handshake>, now: int, t: int, j: nat)
    requires u > 0 && PoolOk(p, now) && RequestsOk(u, d, n, now, rs) && j < |rs|
    requires rs[j].salt in p.salts && p.salts[rs[j].salt] == t
    requires Passes(u, p, rs)[j]
    ensures TimestampOk(rs[j].ts, rs[j].checked / u)
    ensures rs[j].added - t > p.retention
    decreases |rs|
  {
    hide TimestampOk, SaneNow;
    if TimestampOk(rs[0].ts, rs[0].checked / u) {
      var (p', ok) := AddTo(p, rs[0].salt, rs[0].added);
      AddKeepsPool(p, rs[0].salt, now, rs[0].added);
      if j > 0 && rs[j].salt in p'.salts && p'.salts[rs[j].salt] == t {
        HeldWhileFreshRequests(u, d, n, p', rs[1..], rs[0].added, t, j - 1);
      } else if j > 0 {
        PassesValid(u, p', rs[1..], j - 1);
      }
    } else if j > 0 {
      HeldWhileFreshRequests(u, d, n, p, rs[1..], now, t, j - 1);
    }
  }

  lemma {:induction false} PassesValid(u: nat, p: Pool, rs: seq<Handshake>, j: nat)
    requires u > 0 && j < |rs| && Passes(u, p, rs)[j]
    ensures TimestampOk(rs[j].ts, rs[j].checked / u)
    decreases |rs|
  {
    hide TimestampOk, AddTo;
    if j > 0 {
      var p' := if TimestampOk(rs[0].ts, rs[0].checked / u) then AddTo(p, rs[0].salt, rs[0].added).0 else p;
      PassesValid(u, p', rs[1..], j - 1);
    }
  }

  lemma {:induction false} PassesApart(u: nat, d: nat, n: nat, p: Pool, rs: seq<Handshake>, now: int, i: nat, j: nat)
    requires u > 0 && PoolOk(p, now) && RequestsOk(u, d, n, now, rs) && i < j < |rs|
    requires rs[i].salt == rs[j].salt && Passes(u, p, rs)[i] && Passes(u, p, rs)[j]
    ensures rs[j].added - rs[i].added > p.retention
    decreases |rs|
  {
    hide TimestampOk, SaneNow;
    var valid := TimestampOk(rs[0].ts, rs[0].checked / u);
    var p' := if valid then AddTo(p, rs[0].salt, rs[0].added).0 else p;
    AddKeepsPool(p, rs[0].salt, now, rs[0].added);
    if i > 0 {
      PassesApart(u, d, n, p', rs[1..], if valid then rs[0].added else now, i - 1, j - 1);
    } else {
      HeldWhileFreshRequests(u, d, n, p', rs[1..], rs[0].added, rs[0].added, j - 1);
    }
  }

  /** The validity window of one timestamp spans at most 61 s less one tick. */
  lemma ValidityWindow(u: nat, ts: U64, v: int, v': int)
    requires u > 0 && SaneNow(v / u) && SaneNow(v' / u)
    requires TimestampOk(ts, v / u) && TimestampOk(ts, v' / u)
    ensures v' - v <= 61 * u - 1
  {
    TimestampOkIsWithin(ts, v / u);
    TimestampOkIsWithin(ts, v' / u);
    FloorSpan(u, v, v');
  }

  lemma MulMono(a: int, b: int, u: nat)
    requires a <= b
    ensures a * u <= b * u
  {}

  lemma FloorSpan(u: nat, v: int, v': int)
    requires u > 0 && v' / u - v / u <= 60
    ensures v' - v <= 61 * u - 1
  {
    var q, q' := v / u, v' / u;
    assert v == q * u + v % u && v' == q' * u + v' % u;
    MulMono(q' - q, 60, u);
    assert (q' - q) * u == q' * u - q * u;
  }

  ghost predicate NeverRepeats(u: nat, d: nat, keyLen: nat, retention: nat)
    requires u > 0
  {
    forall now: int, rs: seq<Handshake>, i: nat, j: nat ::
      RequestsOk(u, d, keyLen, now, rs) ==> !Repeats(u, Pool(map[], retention, now), rs, i, j)
  }

  /** The same request at both ends of its timestamp's validity, the second `base` being the first. */
  function EdgeRun(u: nat, d: nat, salt: Salt, base: nat): seq<Handshake>
    requires base < Two63 - 100
  {
    [Handshake(salt, base + 30, base * u, base * u),
     Handshake(salt, base + 30, base * u + 61 * u - 1, base * u + 61 * u - 1 + d)]
  }

  /** A shorter retention lets any request pass twice: first when its timestamp becomes valid, then 61 s less
      one tick, plus the delay, later. */
  lemma ReplayedAtTheEdge(u: nat, d: nat, retention: nat, salt: Salt, base: nat)
    requires u > 0 && retention < 61 * u - 1 + d && base < Two63 - 100
    ensures var rs := EdgeRun(u, d, salt, base);
            RequestsOk(u, d, |salt|, base * u, rs) && Repeats(u, Pool(map[], retention, base * u), rs, 0, 1)
  {
    var rs := EdgeRun(u, d, salt, base);
    EdgeSeconds(u, base);
    EdgeValid(base);
    var start := base * u;
    var p, p' := Pool(map[], retention, start), Pool(map[salt := start], retention, start);
    assert AddTo(p, salt, start) == (p', true);
    assert AddTo(p', salt, rs[1].added).1;
    hide TimestampOk, SaneNow, AddTo;
    assert rs[1..] == [rs[1]];
    assert Passes(u, p', rs[1..])[0];
    assert Passes(u, p, rs) == [true] + Passes(u, p', rs[1..]);
  }

  lemma EdgeValid(base: nat)
    requires base < Two63 - 100
    ensures TimestampOk(base + 30, base) && TimestampOk(base + 30, base + 60) && SaneNow(base) && SaneNow(base + 60)
  {
    TimestampOkIsWithin(base + 30, base);
    TimestampOkIsWithin(base + 30, base + 60);
  }

  lemma EdgeSeconds(u: nat, base: nat)
    requires u > 0
    ensures base * u / u == base && (base * u + 61 * u - 1) / u == base + 60
  {
    QuotientIs(base, 0, u);
    QuotientIs(base + 60, u - 1, u);
    assert base * u + 61 * u - 1 == (base + 60) * u + (u - 1);
  }

  lemma QuotientIs(q: nat, r: nat, u: nat)
    requires r < u
    ensures (q * u + r) / u == q
  {
    var x := q * u + r;
    var k := x / u;
    assert x == k * u + x % u;
    if k < q {
      MulMono(k + 1, q, u);
    } else if k > q {
      MulMono(q + 1, k, u);
    }
  }

  /** No request with the same salt and timestamp passes twice, in any run, exactly when the
      retention covers the whole validity window and the handshake delay. */
  lemma ReplaySafety(u: nat, d: nat, keyLen: nat, retention: nat)
    requires u > 0 && IsKeyLength(keyLen)
    ensures NeverRepeats(u, d, keyLen, retention) <==> retention >= 61 * u - 1 + d
  {
    if retention >= 61 * u - 1 + d {
      forall now: int, rs: seq<Handshake>, i: nat, j: nat | RequestsOk(u, d, keyLen, now, rs)
        ensures !Repeats(u, Pool(map[], retention, now), rs, i, j)
      {
        var p := Pool(map[], retention, now);
        if Repeats(u, p, rs, i, j) {
          PassesApart(u, d, keyLen, p, rs, now, i, j);
          PassesValid(u, p, rs, i);
          PassesValid(u, p, rs, j);
          ValidityWindow(u, rs[i].ts, rs[i].checked, rs[j].checked);
        }
      }
    } else {
      var salt: Salt := seq(keyLen, _ => 0);
      var base := 1_700_000_000;
      ReplayedAtTheEdge(u, d, retention, salt, base);
      assert !NeverRepeats(u, d, keyLen, retention);
    }
  }

  /** With the configured retention of 60 s and one clock reading per handshake, replays are shut out
      exactly when the clock counts whole seconds. */
  lemma ReplayWindowDuration(u: nat, keyLen: nat)
    requires u > 0 && IsKeyLength(keyLen)
    ensures NeverRepeats(u, 0, keyLen, 60 * u) <==> u == 1
  {
    ReplaySafety(u, 0, keyLen, 60 * u);
  }
}
