/** The client side of Shadowsocks 2022 UDP: the unpacker tracks a current and an old server session,
    and over every run no server packet is accepted twice. */
module PacketClient {
  import opened Words
  import opened SocksAddr
  import opened PacketHeader
  import opened Crypto
  import opened SlidingWindow
  import opened PacketPacker

  // ----- clock -----

  const Second := 1_000_000_000
  const Minute := 60 * Second

  function Unix(ns: int): int {
    ns / Second
  }

  /** The three clock readings of one call, in nanoseconds: session check, timestamp check, update. */
  datatype Times = Times(check: int, stamp: int, update: int) {
    predicate Ordered() {
      check <= stamp <= update
    }
  }

  // ----- specification -----

  datatype Tracked = Tracked(id: U64, window: Window)

  /** `lastSeen` is None for the zero time, from which more than a minute has always passed. */
  datatype State = State(current: Option<Tracked>, previous: Option<Tracked>, lastSeen: Option<int>)

  const InitialState := State(None, None, None)

  datatype RecvError = PacketTooSmall | TooManyServerSessions | Replay | AuthFailed | BadHeader(e: HeaderError)

  datatype Keys = Keys(suite: Suite, psk: Bytes, csid: U64)

  datatype Delivery = Delivery(source: AddrPort, payload: Bytes, start: nat)

  /** What identifies an accepted packet, and when it was accepted. */
  datatype Accepted = Accepted(ssid: U64, spid: U64, ts: U64, at: int)

  datatype Status = Current | Old | New | Refused

  function StatusOf(st: State, ssid: U64, check: int): Status {
    if st.current.Some? && ssid == st.current.value.id then Current
    else if st.previous.Some? && ssid == st.previous.value.id then Old
    else if st.lastSeen.Some? && check - st.lastSeen.value < Minute then Refused
    else New
  }

  function WindowOf(st: State, status: Status): Window
    requires (status.Current? ==> st.current.Some?) && (status.Old? ==> st.previous.Some?)
  {
    match status
    case Current => st.current.value.window
    case Old => st.previous.value.window
    case _ => EmptyWindow
  }

  function Update(st: State, status: Status, ssid: U64, w: Window, now: int): State {
    match status
    case Current => st.(current := Some(Tracked(ssid, w)))
    case Old => st.(previous := Some(Tracked(ssid, w)), lastSeen := Some(now))
    case _ => State(Some(Tracked(ssid, w)), st.current, Some(now))
  }

  datatype Opened = Opened(ssid: U64, spid: U64, plain: Bytes)

  /** The decrypted header and body of a packet, or why it is refused. */
  function OpenPacket(k: Keys, st: State, pkt: Bytes, check: int): (r: Result<Opened, RecvError>)
    ensures r.Ok? ==>
              var status := StatusOf(st, r.value.ssid, check);
              !status.Refused? && WindowOf(st, status).Accepts(r.value.spid)
    ensures r.Ok? ==> |pkt| == SeparateHeaderLength + |r.value.plain| + Overhead
  {
    if |pkt| < SeparateHeaderLength + Overhead then Err(PacketTooSmall)
    else
      var sep := Decrypt(k.suite, k.psk, pkt[..16]);
      var ssid, spid := Get64(sep), Get64(sep[8..]);
      var status := StatusOf(st, ssid, check);
      if status.Refused? then Err(TooManyServerSessions)
      else if !WindowOf(st, status).Accepts(spid) then Err(Replay)
      else
        match Open(k.suite, SessionKey(k.suite, k.psk, sep[..8]), sep[4..16], pkt[16..])
        case None => Err(AuthFailed)
        case Some(plain) => Ok(Opened(ssid, spid, plain))
  }

  /** UnpackInPlace: new state, outcome, and the identity of an accepted packet. */
  function Unpack(k: Keys, st: State, pkt: Bytes, t: Times): (State, Result<(Delivery, Accepted), RecvError>) {
    match OpenPacket(k, st, pkt, t.check)
    case Err(e) => (st, Err(e))
    case Ok(o) =>
      match ParseServerMessage(o.plain, k.csid, Unix(t.stamp))
      case Err(e) => (st, Err(BadHeader(e)))
      case Ok((source, start, len)) =>
        var status := StatusOf(st, o.ssid, t.check);
        (Update(st, status, o.ssid, WindowOf(st, status).Insert(o.spid), t.update),
         Ok((Delivery(source, o.plain[start..start + len], SeparateHeaderLength + start),
             Accepted(o.ssid, o.spid, Get64(o.plain[1..]), t.stamp))))
  }

  // ----- accepted at most once, over whole runs -----

  datatype Event = Event(pkt: Bytes, t: Times)

  /** The clock never goes back, neither within a call nor between calls. */
  predicate Monotone(now: int, events: seq<Event>) {
    && (forall i :: 0 <= i < |events| ==> events[i].t.Ordered() && now <= events[i].t.check)
    && (forall i, j :: 0 <= i < j < |events| ==> events[i].t.update <= events[j].t.check)
  }

  predicate SaneClock(events: seq<Event>) {
    forall i :: 0 <= i < |events| ==> SaneNow(Unix(events[i].t.stamp))
  }

  /** Per call, the packet accepted by it, if any. */
  function Trace(k: Keys, st: State, events: seq<Event>): (r: seq<Option<Accepted>>)
    ensures |r| == |events|
    decreases |events|
  {
    if events == [] then [] else
    var (st', r) := Unpack(k, st, events[0].pkt, events[0].t);
    [if r.Ok? then Some(r.value.1) else None] + Trace(k, st', events[1..])
  }

  predicate StateOk(st: State, now: int) {
    && (st.current.Some? ==> forall c :: c in st.current.value.window.seen ==> c <= st.current.value.window.last)
    && (st.previous.Some? ==> forall c :: c in st.previous.value.window.seen ==> c <= st.previous.value.window.last)
    && (st.current.Some? && st.previous.Some? ==> st.current.value.id != st.previous.value.id)
    && (st.current.Some? ==> st.lastSeen.Some?)
    && (st.previous.Some? ==> st.current.Some?)
    && (st.lastSeen.Some? ==> st.lastSeen.value <= now)
  }

  predicate TrackedBy(t: Option<Tracked>, a: Accepted) {
    t.Some? && t.value.id == a.ssid
  }

  /** The last change or old-session packet is two minutes after `a`, so `a` is out of date whatever
      its session's status is. */
  predicate Expired(st: State, a: Accepted) {
    st.lastSeen.Some? && a.at + 2 * Minute <= st.lastSeen.value
  }

  /** Why `a` cannot be accepted again: it is out of date, its session's window has it, or its
      session was evicted at least a minute after `a` and must wait a further minute to come back. */
  predicate Covered(st: State, a: Accepted) {
    && Within(a.ts, Unix(a.at))
    && (Expired(st, a)
        || (&& (TrackedBy(st.current, a) ==> a.spid in st.current.value.window.seen)
            && (TrackedBy(st.previous, a) ==>
                  a.spid in st.previous.value.window.seen && st.lastSeen.Some? && a.at <= st.lastSeen.value)
            && (!TrackedBy(st.current, a) && !TrackedBy(st.previous, a) ==>
                  st.lastSeen.Some? && a.at + Minute <= st.lastSeen.value)))
  }

  lemma StepKeepsState(k: Keys, st: State, e: Event, now: int)
    requires StateOk(st, now) && e.t.Ordered() && now <= e.t.check
    ensures StateOk(Unpack(k, st, e.pkt, e.t).0, e.t.update)
  {
    hide OpenPacket, ParseServerMessage, Get64;
  }

  lemma AcceptCovers(k: Keys, st: State, e: Event, now: int)
    requires StateOk(st, now) && e.t.Ordered() && now <= e.t.check && SaneNow(Unix(e.t.stamp))
    requires Unpack(k, st, e.pkt, e.t).1.Ok?
    ensures var (st', r) := Unpack(k, st, e.pkt, e.t);
            Covered(st', r.value.1) && r.value.1.at <= e.t.update
  {
    hide OpenPacket, Get64, TimestampOk, Within;
    var a := Unpack(k, st, e.pkt, e.t).1.value.1;
    TimestampOkIsWithin(a.ts, Unix(e.t.stamp));
  }

  lemma UpdateKeepsCover(st: State, ssid: U64, spid: U64, check: int, update: int, a: Accepted)
    requires st.previous.Some? ==> st.lastSeen.Some?
    requires st.lastSeen.Some? ==> st.lastSeen.value <= check
    requires Covered(st, a) && a.at <= check <= update
    requires !StatusOf(st, ssid, check).Refused?
    ensures var status := StatusOf(st, ssid, check);
            Covered(Update(st, status, ssid, WindowOf(st, status).Insert(spid), update), a)
  {
    hide Within;
    match StatusOf(st, ssid, check)
    case Current =>
    case Old =>
    case New =>
  }

  /** A covered packet stays covered by every later call. */
  lemma StepKeepsCover(k: Keys, st: State, e: Event, now: int, a: Accepted)
    requires StateOk(st, now) && e.t.Ordered() && now <= e.t.check
    requires Covered(st, a) && a.at <= now
    ensures Covered(Unpack(k, st, e.pkt, e.t).0, a)
  {
    hide OpenPacket, ParseServerMessage, Get64, Covered, StatusOf, WindowOf, Update;
    var o := OpenPacket(k, st, e.pkt, e.t.check);
    if o.Ok? {
      UpdateKeepsCover(st, o.value.ssid, o.value.spid, e.t.check, e.t.update, a);
    }
  }

  /** If a covered session id and packet id are accepted again, the timestamp is at least a minute
      newer, so it is not the same packet. */
  lemma CoveredIsStale(k: Keys, st: State, e: Event, now: int, a: Accepted)
    requires StateOk(st, now) && e.t.Ordered() && now <= e.t.check && SaneNow(Unix(e.t.stamp))
    requires Covered(st, a)
    requires Unpack(k, st, e.pkt, e.t).1.Ok?
    ensures var b := Unpack(k, st, e.pkt, e.t).1.value.1;
            b.ssid == a.ssid && b.spid == a.spid ==> ToInt64(b.ts) - ToInt64(a.ts) >= 60
  {
    hide OpenPacket, Get64, TimestampOk, ToInt64;
    var b := Unpack(k, st, e.pkt, e.t).1.value.1;
    TimestampOkIsWithin(b.ts, Unix(e.t.stamp));
    if b.ssid == a.ssid && b.spid == a.spid {
      assert e.t.stamp >= a.at + 2 * Minute;
      assert Unix(e.t.stamp) >= Unix(a.at) + 120;
    }
  }

  /** The state after a run. */
  function After(k: Keys, st: State, events: seq<Event>): State
    decreases |events|
  {
    if events == [] then st else After(k, Unpack(k, st, events[0].pkt, events[0].t).0, events[1..])
  }

  /** Once accepted, a packet is covered by a window, by expiry or by the one-minute rule in every later state. */
  lemma {:induction false} CoverLasts(k: Keys, st: State, events: seq<Event>, now: int, a: Accepted)
    requires StateOk(st, now) && Covered(st, a) && a.at <= now
    requires Monotone(now, events) && SaneClock(events)
    ensures Covered(After(k, st, events), a)
    decreases |events|
  {
    hide Unpack, Covered, StateOk, SaneNow;
    if events != [] {
      var e := events[0];
      StepKeepsState(k, st, e, now);
      StepKeepsCover(k, st, e, now, a);
      assert Monotone(e.t.update, events[1..]);
      CoverLasts(k, Unpack(k, st, e.pkt, e.t).0, events[1..], e.t.update, a);
    }
  }

  /** A covered packet is accepted again, if at all, only with a timestamp at least 60 s later. */
  lemma {:induction false} CoveredForever(k: Keys, st: State, events: seq<Event>, now: int, a: Accepted, j: nat)
    requires StateOk(st, now) && Covered(st, a) && a.at <= now
    requires Monotone(now, events) && SaneClock(events) && j < |events|
    ensures var b := Trace(k, st, events)[j];
            b.Some? && b.value.ssid == a.ssid && b.value.spid == a.spid ==>
              ToInt64(b.value.ts) - ToInt64(a.ts) >= 60
    decreases j
  {
    hide Unpack, Covered, StateOk, ToInt64, SaneNow;
    var e := events[0];
    if j == 0 {
      if Unpack(k, st, e.pkt, e.t).1.Ok? {
        CoveredIsStale(k, st, e, now, a);
      }
    } else {
      StepKeepsState(k, st, e, now);
      StepKeepsCover(k, st, e, now, a);
      assert Monotone(e.t.update, events[1..]);
      CoveredForever(k, Unpack(k, st, e.pkt, e.t).0, events[1..], e.t.update, a, j - 1);
    }
  }

  /** Over every run from a fresh unpacker, across session changes, demotion and eviction: two
      accepted packets with the same session id and packet id carry timestamps at least 60 s apart.
      In particular no packet is accepted twice. */
  lemma {:induction false} AcceptedAtMostOnce(k: Keys, st: State, events: seq<Event>, now: int, i: nat, j: nat)
    requires StateOk(st, now) && Monotone(now, events) && SaneClock(events) && i < j < |events|
    ensures var tr := Trace(k, st, events);
            tr[i].Some? && tr[j].Some? && tr[i].value.ssid == tr[j].value.ssid && tr[i].value.spid == tr[j].value.spid ==>
              ToInt64(tr[j].value.ts) - ToInt64(tr[i].value.ts) >= 60
    decreases i
  {
    hide Unpack, Covered, StateOk, ToInt64, SaneNow;
    var e := events[0];
    var (st', r) := Unpack(k, st, e.pkt, e.t);
    StepKeepsState(k, st, e, now);
    assert Monotone(e.t.update, events[1..]);
    if i > 0 {
      AcceptedAtMostOnce(k, st', events[1..], e.t.update, i - 1, j - 1);
    } else if r.Ok? {
      AcceptCovers(k, st, e, now);
      CoveredForever(k, st', events[1..], e.t.update, r.value.1, j - 1);
    }
  }

  lemma InitialStateOk(now: int)
    ensures StateOk(InitialState, now)
  {}

  /** Over every run of a new unpacker no packet, which is its session id, packet id and timestamp, is accepted
      twice. */
  lemma NoPacketAcceptedTwice(k: Keys, events: seq<Event>, now: int, i: nat, j: nat)
    requires Monotone(now, events) && SaneClock(events) && i < j < |events|
    ensures var tr := Trace(k, InitialState, events);
            tr[i].Some? && tr[j].Some? ==>
              (tr[i].value.ssid, tr[i].value.spid, tr[i].value.ts) != (tr[j].value.ssid, tr[j].value.spid, tr[j].value.ts)
  {
    hide Unpack, StateOk, ToInt64, SaneNow;
    InitialStateOk(now);
    AcceptedAtMostOnce(k, InitialState, events, now, i, j);
  }

  // ----- a packed packet at the client -----

  /** A server packet, exactly. A session that is tracked is decided by its window; another one may begin unless one began,
      or the old one was used, less than 60 s ago. What is delivered counts as seen, a new session makes the current one
      old, and a packet of the old session, like a new session, sets the time. Nothing else changes. */
  lemma UnpackOfServerPacket(k: Keys, st: State, ssid: U64, spid: U64, ts: U64, csid: U64, pad: Bytes, source: AddrPort,
                             payload: Bytes, t: Times)
    requires |pad| <= 0xffff
    ensures var pkt := ServerPacket(k.suite, k.psk, ssid, spid, ServerMessage(ts, csid, pad, source, payload));
            var (st', r) := Unpack(k, st, pkt, t);
            var isCurrent := st.current.Some? && st.current.value.id == ssid;
            var isOld := !isCurrent && st.previous.Some? && st.previous.value.id == ssid;
            var w := if isCurrent then st.current.value.window else if isOld then st.previous.value.window else EmptyWindow;
            var now := t.stamp / 1_000_000_000;
            if !isCurrent && !isOld && st.lastSeen.Some? && t.check - st.lastSeen.value < 60_000_000_000
            then r == Err(TooManyServerSessions) && st' == st
            else if spid <= w.last && (w.last - spid > 8128 || spid in w.seen) then r == Err(Replay) && st' == st
            else if !TimestampOk(ts, now) then r == Err(BadHeader(BadTimestamp)) && st' == st
            else if csid != k.csid then r == Err(BadHeader(ClientSessionIDMismatch)) && st' == st
            else
              var used := Some(Tracked(ssid, Window(if spid > w.last then spid else w.last, w.seen + {spid})));
              && r.Ok? && r.value.0.source == source.Unmap() && r.value.0.payload == payload
              && r.value.1 == Accepted(ssid, spid, ts, t.stamp)
              && st' == if isCurrent then State(used, st.previous, st.lastSeen)
                        else if isOld then State(st.current, used, Some(t.update))
                        else State(used, st.current, Some(t.update))
  {
    hide Seal, Open, Crypto.Primitives.Lawful, SessionKey, Put64, Get64, TimestampOk, ParseServerMessage,
         ServerMessage, AddrPort.Unmap;
    var m := ServerMessage(ts, csid, pad, source, payload);
    var sep := SeparateHeader(ssid, spid);
    var body := Seal(k.suite, SessionKey(k.suite, k.psk, Put64(ssid)), sep[4..16], m);
    var pkt := ServerPacket(k.suite, k.psk, ssid, spid, m);
    assert pkt[..16] == Encrypt(k.suite, k.psk, sep) && pkt[16..] == body;
    SeparateHeaderFields(ssid, spid);
    assert sep[..8] == Put64(ssid);
    ParseOfServerMessage(ts, csid, pad, source, payload, k.csid, Unix(t.stamp));
  }

  lemma UnpackCases(k: Keys, st: State, pkt: Bytes, t: Times)
    ensures var u := Unpack(k, st, pkt, t);
            var o := OpenPacket(k, st, pkt, t.check);
            && (o.Err? ==> u == (st, Err(o.error)))
            && (o.Ok? ==>
                  var parsed := ParseServerMessage(o.value.plain, k.csid, Unix(t.stamp));
                  && (parsed.Err? ==> u == (st, Err(BadHeader(parsed.error))))
                  && (parsed.Ok? ==>
                        var status := StatusOf(st, o.value.ssid, t.check);
                        && !status.Refused? && WindowOf(st, status).Accepts(o.value.spid)
                        && u.0 == Update(st, status, o.value.ssid, WindowOf(st, status).Insert(o.value.spid), t.update)
                        && u.1.Ok? && u.1.value.0.source == parsed.value.0
                        && u.1.value.0.start == SeparateHeaderLength + parsed.value.1
                        && u.1.value.0.payload == o.value.plain[parsed.value.1..parsed.value.1 + parsed.value.2]))
  {
    hide OpenPacket, ParseServerMessage, WindowOf, Update, Window.Accepts, Window.Insert, Get64;
  }

  /** Any datagram at all: why it is refused, in this order, and that a refusal changes nothing. */
  lemma RefusedExactly(k: Keys, st: State, pkt: Bytes, t: Times)
    ensures Unpack(k, st, pkt, t).1.Err? ==> Unpack(k, st, pkt, t).0 == st
    ensures |pkt| < 32 ==> Unpack(k, st, pkt, t).1 == Err(PacketTooSmall)
    ensures |pkt| >= 32 ==>
              var sep := Decrypt(k.suite, k.psk, pkt[..16]);
              var ssid, spid := Get64(sep), Get64(sep[8..]);
              var isCurrent := st.current.Some? && st.current.value.id == ssid;
              var isOld := !isCurrent && st.previous.Some? && st.previous.value.id == ssid;
              var w := if isCurrent then st.current.value.window else if isOld then st.previous.value.window else EmptyWindow;
              var body := Open(k.suite, SessionKey(k.suite, k.psk, sep[..8]), sep[4..16], pkt[16..]);
              var r := Unpack(k, st, pkt, t).1;
              if !isCurrent && !isOld && st.lastSeen.Some? && t.check - st.lastSeen.value < 60_000_000_000
              then r == Err(TooManyServerSessions)
              else if spid <= w.last && (w.last - spid > 8128 || spid in w.seen) then r == Err(Replay)
              else if body.None? then r == Err(AuthFailed)
              else
                var m := ParseServerMessage(body.value, k.csid, t.stamp / 1_000_000_000);
                if m.Err? then r == Err(BadHeader(m.error)) else r.Ok?
  {
    hide Get64, ParseServerMessage, SessionKey, Open, Decrypt, Crypto.Primitives.Lawful;
  }

  /** A client packet sent back to a client of the same key is refused. */
  lemma ReflectedRefused(k: Keys, st: State, csid: U64, cpid: U64, ts: U64, pad: Bytes, target: Addr, payload: Bytes, t: Times)
    requires |pad| <= 0xffff
    ensures var pkt := ClientPacket(k.suite, ClientKeys(k.psk, []), csid, cpid, ClientMessage(ts, pad, target, payload));
            var (st', r) := Unpack(k, st, pkt, t);
            r.Err? && st' == st
  {
    hide Seal, Open, Crypto.Primitives.Lawful, SessionKey, Put64, Get64, TimestampOk, ParseServerMessage, ClientMessage,
         StatusOf, WindowOf, Window.Accepts;
    var keys := ClientKeys(k.psk, []);
    var m := ClientMessage(ts, pad, target, payload);
    var sep := SeparateHeader(csid, cpid);
    var body := Seal(k.suite, SessionKey(k.suite, k.psk, Put64(csid)), sep[4..16], m);
    var pkt := ClientPacket(k.suite, keys, csid, cpid, m);
    JoinEmpty(Encrypt(k.suite, k.psk, sep), body);
    assert pkt[..16] == Encrypt(k.suite, k.psk, sep) && pkt[16..] == body;
    assert sep[..8] == Put64(csid);
    OtherEndRefused(ts, csid, pad, target, AddrPort(V4([0, 0, 0, 0]), 0), payload, k.csid, [], Unix(t.stamp));
    UnpackCases(k, st, pkt, t);
  }

  // ----- the object -----

  class ShadowPacketClientUnpacker {
    const keys: Keys
    var currentServerSessionID: U64
    var currentServerSessionAEAD: Option<Bytes>
    var currentServerSessionFilter: Filter?
    var oldServerSessionID: U64
    var oldServerSessionAEAD: Option<Bytes>
    var oldServerSessionFilter: Filter?
    var oldServerSessionLastSeenTime: Option<int>

    ghost function Repr(): set<object>
      reads this
    {
      {this}
      + (if currentServerSessionFilter == null then {} else {currentServerSessionFilter, currentServerSessionFilter.ring})
      + (if oldServerSessionFilter == null then {} else {oldServerSessionFilter, oldServerSessionFilter.ring})
    }

    ghost predicate SessionValid(id: U64, aead: Option<Bytes>, filter: Filter?)
      reads filter, if filter == null then {} else {filter.ring}
    {
      && (aead.Some? <==> filter != null)
      && (aead.Some? ==> aead.value == SessionKey(keys.suite, keys.psk, Put64(id)))
      && (filter != null ==> filter.Valid())
    }

    ghost predicate Valid()
      reads Repr()
    {
      && SessionValid(currentServerSessionID, currentServerSessionAEAD, currentServerSessionFilter)
      && SessionValid(oldServerSessionID, oldServerSessionAEAD, oldServerSessionFilter)
      && (currentServerSessionFilter != null && oldServerSessionFilter != null ==>
            && currentServerSessionFilter != oldServerSessionFilter
            && currentServerSessionFilter.ring != oldServerSessionFilter.ring)
    }

    ghost function TrackedSession(id: U64, filter: Filter?): Option<Tracked>
      reads filter
    {
      if filter == null then None else Some(Tracked(id, filter.Spec()))
    }

    ghost function Spec(): State
      reads Repr()
    {
      State(TrackedSession(currentServerSessionID, currentServerSessionFilter),
            TrackedSession(oldServerSessionID, oldServerSessionFilter),
            oldServerSessionLastSeenTime)
    }

    constructor (keys: Keys)
      ensures Valid() && fresh(Repr()) && Spec() == InitialState && this.keys == keys
    {
      this.keys := keys;
      currentServerSessionID, currentServerSessionAEAD, currentServerSessionFilter := 0, None, null;
      oldServerSessionID, oldServerSessionAEAD, oldServerSessionFilter := 0, None, null;
      oldServerSessionLastSeenTime := None;
    }

    method UnpackInPlace(b: array<Byte>, packetStart: nat, packetLen: nat, t: Times)
      returns (source: Result<AddrPort, RecvError>, start: nat, length: nat)
      requires Valid() && packetStart + packetLen <= b.Length && b !in Repr()
      modifies Repr(), b
      ensures Valid() && fresh(Repr() - old(Repr()))
      ensures var (st', r) := Unpack(keys, old(Spec()), old(b[packetStart..packetStart + packetLen]), t);
              && Spec() == st'
              && (r.Err? ==> source == Err(r.error))
              && (r.Ok? ==>
                    && source == Ok(r.value.0.source)
                    && start == packetStart + r.value.0.start && start + length <= packetStart + packetLen
                    && b[start..start + length] == r.value.0.payload)
    {
      hide Unpack, OpenPacket, StatusOf, WindowOf, Update, Get64, ParseServerMessage, Patch, Represents, Selected,
           Window.Accepts, Window.Insert, Crypto.Primitives.Lawful, SessionKey, Put64;
      UnpackCases(keys, Spec(), b[packetStart..packetStart + packetLen], t);
      var o, status, saead, sfilter;
      source, o, status, saead, sfilter, start, length := OpenAndParse(b, packetStart, packetLen, t);
      if source.Ok? {
        ghost var payload := b[start..start + length];
        Accept(status, saead, sfilter, o.ssid, o.spid, t.check, t.update);
        assert b[start..start + length] == payload;
      }
    }

    /** Everything but recording the packet id and updating the sessions. */
    method OpenAndParse(b: array<Byte>, packetStart: nat, packetLen: nat, t: Times)
      returns (source: Result<AddrPort, RecvError>, o: Opened, status: Status, saead: Bytes, sfilter: Filter?, start: nat, length: nat)
      requires Valid() && packetStart + packetLen <= b.Length && b !in Repr()
      modifies b
      ensures var opening := OpenPacket(keys, old(Spec()), old(b[packetStart..packetStart + packetLen]), t.check);
              if opening.Err? then source == Err(opening.error)
              else
                var parsed := ParseServerMessage(opening.value.plain, keys.csid, Unix(t.stamp));
                && (parsed.Err? ==> source == Err(BadHeader(parsed.error)))
                && (parsed.Ok? ==>
                      && source == Ok(parsed.value.0) && o == opening.value && length == parsed.value.2
                      && Selected(o.ssid, t.check, status, saead, sfilter)
                      && status == StatusOf(Spec(), o.ssid, t.check)
                      && start == packetStart + SeparateHeaderLength + parsed.value.1
                      && start + length <= packetStart + packetLen
                      && b[start..start + length] == o.plain[parsed.value.1..parsed.value.1 + parsed.value.2])
    {
      hide OpenPacket, StatusOf, WindowOf, Get64, ParseServerMessage, Patch, Represents,
           Window.Accepts, Crypto.Primitives.Lawful, SessionKey, Put64;
      start, length, o := 0, 0, Opened(0, 0, []);
      var opening;
      opening, status, saead, sfilter := OpenInPlace(b, packetStart, packetLen, t.check);
      if opening.Err? {
        source := Err(opening.error);
        return;
      }
      o := opening.value;
      var parsed := ParseServerMessage(o.plain, keys.csid, Unix(t.stamp));
      if parsed.Err? {
        source := Err(BadHeader(parsed.error));
        return;
      }
      source := Ok(parsed.value.0);
      start, length := packetStart + SeparateHeaderLength + parsed.value.1, parsed.value.2;
      SubSlice(b[..], packetStart + SeparateHeaderLength, |o.plain|, parsed.value.1, parsed.value.1 + length);
    }

    /** The session and filter that a session id selects, as the switch over session status does. */
    ghost predicate Selected(ssid: U64, check: int, status: Status, saead: Bytes, sfilter: Filter?)
      reads Repr()
    {
      && status == StatusOf(Spec(), ssid, check) && !status.Refused?
      && saead == SessionKey(keys.suite, keys.psk, Put64(ssid))
      && sfilter == (match status
                     case Current => currentServerSessionFilter
                     case Old => oldServerSessionFilter
                     case _ => null)
    }

    /** Decrypts and opens the packet in place; no session changes yet. */
    method OpenInPlace(b: array<Byte>, packetStart: nat, packetLen: nat, check: int)
      returns (o: Result<Opened, RecvError>, status: Status, saead: Bytes, sfilter: Filter?)
      requires Valid() && packetStart + packetLen <= b.Length && b !in Repr()
      modifies b
      ensures o == OpenPacket(keys, old(Spec()), old(b[packetStart..packetStart + packetLen]), check)
      ensures o.Ok? ==>
                && Selected(o.value.ssid, check, status, saead, sfilter)
                && var bodyStart := packetStart + SeparateHeaderLength;
                   b[bodyStart..bodyStart + |o.value.plain|] == o.value.plain
    {
      hide Get64, Patch, Represents, Window.Accepts, Crypto.Primitives.Lawful, SessionKey, Put64, Open, Decrypt;
      status, saead, sfilter := Refused, [], null;
      if packetLen < SeparateHeaderLength + Overhead {
        return Err(PacketTooSmall), status, saead, sfilter;
      }
      SubSlice(b[..], packetStart, packetLen, 0, 16);
      SubSlice(b[..], packetStart, packetLen, 16, packetLen);
      var sep := Decrypt(keys.suite, keys.psk, b[packetStart..packetStart + SeparateHeaderLength]);
      var ciphertext := b[packetStart + SeparateHeaderLength..packetStart + packetLen];
      Put(b, packetStart, sep);
      var ssid, spid := Get64(sep), Get64(sep[8..]);
      status, saead, sfilter := Select(ssid, sep[..8], check);
      if status.Refused? {
        return Err(TooManyServerSessions), status, saead, sfilter;
      }
      EmptyAccepts(spid);
      if sfilter != null {
        var ok := sfilter.IsOk(spid);
        if !ok {
          return Err(Replay), status, saead, sfilter;
        }
      }
      var plaintext := Open(keys.suite, saead, sep[4..16], ciphertext);
      if plaintext.None? {
        return Err(AuthFailed), status, saead, sfilter;
      }
      Put(b, packetStart + SeparateHeaderLength, plaintext.value);
      o := Ok(Opened(ssid, spid, plaintext.value));
    }

    /** The switch over session status. */
    method Select(ssid: U64, id: Bytes, check: int) returns (status: Status, saead: Bytes, sfilter: Filter?)
      requires Valid() && id == Put64(ssid)
      ensures status == StatusOf(Spec(), ssid, check)
      ensures !status.Refused? ==> Selected(ssid, check, status, saead, sfilter)
    {
      hide Represents, SessionKey, Put64, Crypto.Primitives.Lawful;
      status, saead, sfilter := Refused, [], null;
      if ssid == currentServerSessionID && currentServerSessionAEAD.Some? {
        status, saead, sfilter := Current, currentServerSessionAEAD.value, currentServerSessionFilter;
      } else if ssid == oldServerSessionID && oldServerSessionAEAD.Some? {
        status, saead, sfilter := Old, oldServerSessionAEAD.value, oldServerSessionFilter;
      } else if oldServerSessionLastSeenTime.Some? && check - oldServerSessionLastSeenTime.value < Minute {
      } else {
        status, saead := New, SessionKey(keys.suite, keys.psk, id);
      }
    }

    /** Records the packet id and updates the tracked sessions. */
    method Accept(status: Status, saead: Bytes, sfilter: Filter?, ssid: U64, spid: U64, ghost check: int, now: int)
      requires Valid() && Selected(ssid, check, status, saead, sfilter)
      requires WindowOf(Spec(), status).Accepts(spid)
      modifies Repr()
      ensures Valid() && fresh(Repr() - old(Repr()))
      ensures Spec() == Update(old(Spec()), status, ssid, WindowOf(old(Spec()), status).Insert(spid), now)
    {
      hide Represents, Window.Accepts, Window.Insert, Crypto.Primitives.Lawful, SessionKey, Put64;
      var filter := sfilter;
      if filter == null {
        filter := new Filter();
      }
      filter.MustAdd(spid);
      if status.Old? {
        oldServerSessionLastSeenTime := Some(now);
      } else if status.New? {
        oldServerSessionID := currentServerSessionID;
        oldServerSessionAEAD := currentServerSessionAEAD;
        oldServerSessionFilter := currentServerSessionFilter;
        oldServerSessionLastSeenTime := Some(now);
        currentServerSessionID := ssid;
        currentServerSessionAEAD := Some(saead);
        currentServerSessionFilter := filter;
      }
    }
  }
}
