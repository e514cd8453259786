/** The server side of Shadowsocks 2022 UDP: session lookup, identity headers, unpacking, and the
    exactly-once delivery theorem for the packets of one client packer. */
module PacketServer {
  import opened Words
  import opened SocksAddr
  import opened PacketHeader
  import opened Crypto
  import opened SlidingWindow
  import opened PacketPacker

  datatype RecvError = PacketTooSmall | UserPSKNotFound | Replay | AuthFailed | BadHeader(e: HeaderError)

  /** Main PSK, and the user PSKs by the hash of the PSK when there are several users. */
  datatype ServerConfig = ServerConfig(psk: Bytes, users: map<Bytes, Bytes>) {
    function IdentityLen(): nat {
      if |users| > 0 then IdentityHeaderLength else 0
    }
  }

  /** An unpacker: AEAD key, replay window (empty while the filter is nil) and domain cache. */
  datatype Session = Session(key: Bytes, window: Window, cache: Bytes)

  /** A recovered packet: target, payload, and where the payload lies in the packet. */
  datatype Delivery = Delivery(target: Addr, payload: Bytes, start: nat)

  // ----- specification -----

  /** SessionInfo: the packet with its separate header decrypted. */
  function OpenHeader(s: Suite, cfg: ServerConfig, pkt: Bytes): (r: Bytes)
    requires |pkt| >= SeparateHeaderLength
    ensures |r| == |pkt|
  {
    Patch(pkt, 0, Decrypt(s, cfg.psk, pkt[..SeparateHeaderLength]))
  }

  /** NewUnpacker: which user sent the packet. */
  function UserOf(s: Suite, cfg: ServerConfig, pkt: Bytes): Result<Bytes, RecvError> {
    if |pkt| < SeparateHeaderLength + cfg.IdentityLen() then Err(PacketTooSmall)
    else if cfg.IdentityLen() == 0 then Ok(cfg.psk)
    else
      var h := Xor(s, Decrypt(s, cfg.psk, pkt[16..32]), pkt[..16]);
      if h in cfg.users then Ok(cfg.users[h]) else Err(UserPSKNotFound)
  }

  /** NewUnpacker leaves the packet with its identity header, if it has one, decrypted. */
  function OpenIdentity(s: Suite, cfg: ServerConfig, pkt: Bytes): (r: Bytes)
    ensures |r| == |pkt|
  {
    if |pkt| < SeparateHeaderLength + cfg.IdentityLen() || cfg.IdentityLen() == 0 then pkt
    else Patch(pkt, 16, Xor(s, Decrypt(s, cfg.psk, pkt[16..32]), pkt[..16]))
  }

  /** Packet id and opened body of a packet whose separate header is decrypted. */
  function OpenBody(s: Suite, idLen: nat, sess: Session, pkt: Bytes): (r: Result<(U64, Bytes), RecvError>)
    ensures r.Ok? ==> sess.window.Accepts(r.value.0)
    ensures r.Ok? ==> |pkt| == SeparateHeaderLength + idLen + |r.value.1| + Overhead
  {
    if |pkt| < SeparateHeaderLength + idLen + Overhead then Err(PacketTooSmall)
    else
      var cpid := Get64(pkt[8..16]);
      if !sess.window.Accepts(cpid) then Err(Replay)
      else
        match Open(s, sess.key, pkt[4..16], pkt[SeparateHeaderLength + idLen..])
        case None => Err(AuthFailed)
        case Some(plain) => Ok((cpid, plain))
  }

  /** ShadowPacketServerUnpacker.UnpackInPlace. */
  function Unpack(s: Suite, idLen: nat, sess: Session, pkt: Bytes, now: int): (Session, Result<Delivery, RecvError>) {
    match OpenBody(s, idLen, sess, pkt)
    case Err(e) => (sess, Err(e))
    case Ok((cpid, plain)) =>
      match ParseClientMessage(plain, sess.cache, now)
      case (Err(e), cache') => (sess.(cache := cache'), Err(BadHeader(e)))
      case (Ok((target, start, len)), cache') =>
        (Session(sess.key, sess.window.Insert(cpid), cache'),
         Ok(Delivery(target, plain[start..start + len], SeparateHeaderLength + idLen + start)))
  }

  /** Unpacking does not look at the identity header. */
  lemma IdentityIgnored(s: Suite, cfg: ServerConfig, sess: Session, pkt: Bytes, now: int)
    ensures Unpack(s, cfg.IdentityLen(), sess, OpenIdentity(s, cfg, pkt), now) == Unpack(s, cfg.IdentityLen(), sess, pkt, now)
  {
    hide Xor, Decrypt, OpenBody, ParseClientMessage, Patch, Crypto.Primitives.Lawful, Window.Insert;
    if |pkt| >= SeparateHeaderLength + cfg.IdentityLen() && cfg.IdentityLen() != 0 {
      BehindIdentity(pkt, Xor(s, Decrypt(s, cfg.psk, pkt[16..32]), pkt[..16]));
      SameBody(s, sess, pkt, OpenIdentity(s, cfg, pkt));
    }
  }

  lemma SameBody(s: Suite, sess: Session, p: Bytes, q: Bytes)
    requires 32 <= |p| == |q| && p[4..16] == q[4..16] && p[8..16] == q[8..16] && p[32..] == q[32..]
    ensures OpenBody(s, IdentityHeaderLength, sess, p) == OpenBody(s, IdentityHeaderLength, sess, q)
  {
    hide Get64, Open, Window.Accepts, Crypto.Primitives.Lawful;
  }

  lemma BehindIdentity(pkt: Bytes, h: Bytes)
    requires |pkt| >= 32 && |h| == 16
    ensures var p := Patch(pkt, 16, h);
            p[4..16] == pkt[4..16] && p[8..16] == pkt[8..16] && p[32..] == pkt[32..]
  {}

  /** The first packet of a session: the session it makes and what it delivers. */
  function FirstPacket(s: Suite, cfg: ServerConfig, clear: Bytes, now: int): Result<(Session, Delivery), RecvError>
    requires |clear| >= SeparateHeaderLength
  {
    match UserOf(s, cfg, clear)
    case Err(e) => Err(e)
    case Ok(psk) =>
      var sess := Session(SessionKey(s, psk, clear[..8]), EmptyWindow, []);
      var (sess', r) := Unpack(s, cfg.IdentityLen(), sess, OpenIdentity(s, cfg, clear), now);
      if r.Err? then Err(r.error) else Ok((sess', r.value))
  }

  /** A packet with its separate header decrypted: to its session, or to a new one, which is stored only once a
      packet unpacks. */
  function Dispatch(s: Suite, cfg: ServerConfig, table: map<U64, Session>, csid: U64, clear: Bytes, now: int):
    (map<U64, Session>, Result<Delivery, RecvError>)
    requires |clear| >= SeparateHeaderLength
  {
    if csid in table then
      var (sess', r) := Unpack(s, cfg.IdentityLen(), table[csid], clear, now);
      (table[csid := sess'], r)
    else
      match FirstPacket(s, cfg, clear, now)
      case Err(e) => (table, Err(e))
      case Ok((sess, d)) => (table[csid := sess], Ok(d))
  }

  /** One datagram through the session relay. */
  function Receive(s: Suite, cfg: ServerConfig, table: map<U64, Session>, pkt: Bytes, now: int):
    (map<U64, Session>, Result<Delivery, RecvError>)
  {
    if |pkt| < SeparateHeaderLength then (table, Err(PacketTooSmall))
    else
      var clear := OpenHeader(s, cfg, pkt);
      Dispatch(s, cfg, table, Get64(clear), clear, now)
  }

  // ----- one packed packet at the server -----

  /** The client was configured for this server: no identity header and the same PSK, or one
      identity header under the server's PSK and a user PSK registered there. */
  predicate Matches(s: Suite, cfg: ServerConfig, keys: ClientKeys) {
    if cfg.users == map[] then keys == ClientKeys(cfg.psk, [])
    else
      && keys.ipsks == [cfg.psk]
      && PSKHash(s, keys.psk) in cfg.users && cfg.users[PSKHash(s, keys.psk)] == keys.psk
  }

  lemma MatchesIdentityLen(s: Suite, cfg: ServerConfig, keys: ClientKeys)
    requires Matches(s, cfg, keys)
    ensures cfg.IdentityLen() == |keys.ipsks| * IdentityHeaderLength
  {}

  lemma JoinedSlices(h: Bytes, ids: Bytes, body: Bytes, h': Bytes)
    requires |h| == |h'| == 16
    ensures var pkt := h + ids + body;
            && pkt[..16] == h
            && Patch(pkt, 0, h') == h' + ids + body
            && (h' + ids + body)[..8] == h'[..8] && (h' + ids + body)[4..16] == h'[4..16]
            && (h' + ids + body)[8..16] == h'[8..] && (h' + ids + body)[..16] == h'
            && (h' + ids + body)[16..16 + |ids|] == ids && (h' + ids + body)[16 + |ids|..] == body
  {}

  lemma HeadersOfClientPacket(s: Suite, cfg: ServerConfig, keys: ClientKeys, csid: U64, cpid: U64, message: Bytes)
    requires Matches(s, cfg, keys)
    ensures var sep := SeparateHeader(csid, cpid);
            var ids := IdentityHeaders(s, keys, sep, |keys.ipsks|);
            var body := Seal(s, SessionKey(s, keys.psk, Put64(csid)), sep[4..16], message);
            var clear := OpenHeader(s, cfg, ClientPacket(s, keys, csid, cpid, message));
            && clear == sep + ids + body
            && clear[..8] == Put64(csid) && Get64(clear) == csid
            && clear[4..16] == sep[4..16] && Get64(clear[8..16]) == cpid
            && clear[SeparateHeaderLength + cfg.IdentityLen()..] == body
            && UserOf(s, cfg, clear) == Ok(keys.psk)
  {
    hide Seal, Crypto.Primitives.Lawful, SessionKey, Put64, Get64;
    var sep := SeparateHeader(csid, cpid);
    var ids := IdentityHeaders(s, keys, sep, |keys.ipsks|);
    var body := Seal(s, SessionKey(s, keys.psk, Put64(csid)), sep[4..16], message);
    var clear := sep + ids + body;
    JoinedSlices(Encrypt(s, keys.BlockKey(), sep), ids, body, sep);
    SeparateHeaderFields(csid, cpid);
    Get64Put64(csid, Put64(cpid) + ids + body);
    assert clear == Put64(csid) + (Put64(cpid) + ids + body);
    if |keys.ipsks| == 1 {
      assert IdentityHeaders(s, keys, sep, 1) == [] + IdentityHeader(s, keys, sep, 0) == IdentityHeader(s, keys, sep, 0);
      XorTwice(s, PSKHash(s, keys.psk), sep);
    }
  }

  lemma UnpackOfClientPacket(s: Suite, cfg: ServerConfig, keys: ClientKeys, sess: Session,
                             csid: U64, cpid: U64, ts: U64, pad: Bytes, target: Addr, payload: Bytes, now: int)
    requires Matches(s, cfg, keys) && |pad| <= 0xffff && sess.key == SessionKey(s, keys.psk, Put64(csid))
    ensures var message := ClientMessage(ts, pad, target, payload);
            var clear := OpenHeader(s, cfg, ClientPacket(s, keys, csid, cpid, message));
            var (sess', r) := Unpack(s, cfg.IdentityLen(), sess, clear, now);
            && sess'.key == sess.key
            && if !sess.window.Accepts(cpid) then r == Err(Replay) && sess' == sess
               else if !TimestampOk(ts, now) then r == Err(BadHeader(BadTimestamp)) && sess'.window == sess.window
               else
                 && r.Ok? && r.value.target == target.Unmap() && r.value.payload == payload
                 && sess'.window == sess.window.Insert(cpid)
  {
    hide Seal, Open, Crypto.Primitives.Lawful, SessionKey, Put64, Get64, ParseClientMessage, ClientMessage, UserOf,
         OpenHeader, ClientPacket, IdentityHeaders, TimestampOk, Window.Accepts, SeparateHeader, Addr.Unmap,
         Matches, Window.Insert, ServerConfig.IdentityLen;
    HeadersOfClientPacket(s, cfg, keys, csid, cpid, ClientMessage(ts, pad, target, payload));
    MatchesIdentityLen(s, cfg, keys);
    ParseOfClientMessage(ts, pad, target, payload, sess.cache, now);
  }

  /** A packed packet is refused as a replay, refused for its timestamp, or delivered: the target
      (IPv4-mapped turned into IPv4) and payload are recovered and the packet id is recorded. */
  lemma ReceiveOfClientPacket(s: Suite, cfg: ServerConfig, keys: ClientKeys, table: map<U64, Session>,
                              csid: U64, cpid: U64, ts: U64, pad: Bytes, target: Addr, payload: Bytes, now: int)
    requires Matches(s, cfg, keys) && |pad| <= 0xffff
    requires csid in table ==> table[csid].key == SessionKey(s, keys.psk, Put64(csid))
    ensures var (table', r) := Receive(s, cfg, table, ClientPacket(s, keys, csid, cpid, ClientMessage(ts, pad, target, payload)), now);
            var w := if csid in table then table[csid].window else EmptyWindow;
            if !w.Accepts(cpid) then r == Err(Replay) && table' == table
            else if !TimestampOk(ts, now) then
              && r == Err(BadHeader(BadTimestamp))
              && (csid in table' <==> csid in table)
              && (csid in table' ==> table'[csid].window == w && table'[csid].key == table[csid].key)
            else
              && r.Ok? && r.value.target == target.Unmap() && r.value.payload == payload
              && csid in table' && table'[csid].window == w.Insert(cpid)
              && table'[csid].key == SessionKey(s, keys.psk, Put64(csid))
  {
    hide Crypto.Primitives.Lawful, SessionKey, Put64, Get64, ClientMessage, UserOf, Unpack, OpenHeader, ClientPacket,
         IdentityHeaders, TimestampOk, Window.Accepts, SeparateHeader, Addr.Unmap, Matches, Window.Insert, Seal,
         ServerConfig.IdentityLen, OpenIdentity;
    var sess := if csid in table then table[csid] else Session(SessionKey(s, keys.psk, Put64(csid)), EmptyWindow, []);
    HeadersOfClientPacket(s, cfg, keys, csid, cpid, ClientMessage(ts, pad, target, payload));
    UnpackOfClientPacket(s, cfg, keys, sess, csid, cpid, ts, pad, target, payload, now);
    IdentityIgnored(s, cfg, sess, OpenHeader(s, cfg, ClientPacket(s, keys, csid, cpid, ClientMessage(ts, pad, target, payload))), now);
    assert csid in table ==> table[csid := sess] == table;
  }

  // ----- what is refused -----

  /** A user the server does not know gets no session. */
  lemma UnknownUserRefused(s: Suite, cfg: ServerConfig, user: Bytes, table: map<U64, Session>, csid: U64, cpid: U64,
                           message: Bytes, now: int)
    requires cfg.users != map[] && PSKHash(s, user) !in cfg.users && csid !in table
    ensures Receive(s, cfg, table, ClientPacket(s, ClientKeys(user, [cfg.psk]), csid, cpid, message), now)
         == (table, Err(UserPSKNotFound))
  {
    hide Seal, Crypto.Primitives.Lawful, SessionKey, Put64, Get64, Unpack;
    var keys := ClientKeys(user, [cfg.psk]);
    var sep := SeparateHeader(csid, cpid);
    var ids := IdentityHeaders(s, keys, sep, 1);
    var body := Seal(s, SessionKey(s, user, Put64(csid)), sep[4..16], message);
    var clear := sep + ids + body;
    JoinedSlices(Encrypt(s, cfg.psk, sep), ids, body, sep);
    assert OpenHeader(s, cfg, ClientPacket(s, keys, csid, cpid, message)) == clear;
    Get64Put64(csid, Put64(cpid) + ids + body);
    assert clear == Put64(csid) + (Put64(cpid) + ids + body);
    assert ids == [] + IdentityHeader(s, keys, sep, 0) == IdentityHeader(s, keys, sep, 0);
    XorTwice(s, PSKHash(s, user), sep);
  }

  /** Whatever comes in, a refused datagram adds no session and moves no window, and no datagram touches a session it does
      not name. */
  lemma RefusedLeaves(s: Suite, cfg: ServerConfig, table: map<U64, Session>, pkt: Bytes, now: int)
    ensures var (table', r) := Receive(s, cfg, table, pkt, now);
            && (r.Err? ==>
                  && table'.Keys == table.Keys
                  && forall id :: id in table ==> table'[id].window == table[id].window && table'[id].key == table[id].key)
            && (|pkt| < 16 ==> r == Err(PacketTooSmall) && table' == table)
            && (|pkt| >= 16 ==>
                  var named := Get64(Decrypt(s, cfg.psk, pkt[..16])[..8]);
                  forall id :: id != named ==> (id in table' <==> id in table) && (id in table ==> table'[id] == table[id]))
  {
    hide OpenBody, ParseClientMessage, Get64, UserOf, OpenIdentity, Window.Accepts, Window.Insert, Crypto.Primitives.Lawful;
    if |pkt| >= 16 {
      var d := Decrypt(s, cfg.psk, pkt[..16]);
      assert OpenHeader(s, cfg, pkt)[..8] == d[..8];
      SameNumber(OpenHeader(s, cfg, pkt), d[..8]);
    }
  }

  /** One datagram of a session, its separate header decrypted: why it is refused, in this order. */
  lemma RefusedExactly(s: Suite, idLen: nat, sess: Session, clear: Bytes, now: int)
    ensures var r := Unpack(s, idLen, sess, clear, now).1;
            if |clear| < 32 + idLen then r == Err(PacketTooSmall)
            else
              var cpid := Get64(clear[8..16]);
              var body := Open(s, sess.key, clear[4..16], clear[16 + idLen..]);
              if cpid <= sess.window.last && (sess.window.last - cpid > 8128 || cpid in sess.window.seen) then r == Err(Replay)
              else if body.None? then r == Err(AuthFailed)
              else
                var m := ParseClientMessage(body.value, sess.cache, now).0;
                if m.Err? then r == Err(BadHeader(m.error)) else r.Ok?
  {
    hide Get64, ParseClientMessage, Open, Crypto.Primitives.Lawful;
  }

  lemma SameNumber(b: Bytes, d: Bytes)
    requires |b| >= 8 && d == b[..8]
    ensures Get64(b) == Get64(d)
  {
    assert d[..8] == b[..8];
  }

  /** A server packet sent back to a server of the same key is refused. */
  lemma ReflectedRefused(s: Suite, cfg: ServerConfig, table: map<U64, Session>, ssid: U64, spid: U64, ts: U64, csid: U64,
                         pad: Bytes, source: AddrPort, payload: Bytes, now: int)
    requires |pad| <= 0xffff && cfg.users == map[]
    requires ssid in table ==> table[ssid].key == SessionKey(s, cfg.psk, Put64(ssid))
    ensures var pkt := ServerPacket(s, cfg.psk, ssid, spid, ServerMessage(ts, csid, pad, source, payload));
            var (table', r) := Receive(s, cfg, table, pkt, now);
            r.Err? && table' == table
  {
    hide Seal, Open, Crypto.Primitives.Lawful, SessionKey, Put64, Get64, TimestampOk, ParseClientMessage, ServerMessage,
         Window.Accepts, Window.Insert;
    var m := ServerMessage(ts, csid, pad, source, payload);
    var sep := SeparateHeader(ssid, spid);
    var body := Seal(s, SessionKey(s, cfg.psk, Put64(ssid)), sep[4..16], m);
    var clear := sep + [] + body;
    JoinedSlices(Encrypt(s, cfg.psk, sep), [], body, sep);
    assert OpenHeader(s, cfg, ServerPacket(s, cfg.psk, ssid, spid, m)) == clear;
    Get64Put64(ssid, Put64(spid) + [] + body);
    assert clear == Put64(ssid) + (Put64(spid) + [] + body);
    assert clear[16..] == body && clear[4..16] == sep[4..16] && clear[..8] == Put64(ssid);
    var sess := if ssid in table then table[ssid] else Session(SessionKey(s, cfg.psk, Put64(ssid)), EmptyWindow, []);
    OtherEndRefused(ts, csid, pad, FromIP(source), source, payload, csid, sess.cache, now);
    assert ssid in table ==> table[ssid := sess] == table;
    assert clear[SeparateHeaderLength + 0..] == body;
  }

  // ----- whole runs -----

  datatype Sent = Sent(ts: U64, pad: Bytes, target: Addr, payload: Bytes)

  /** What the server receives: a packet of this packer, or any other datagram. */
  datatype Arrival = Own(k: U64, now: int) | Foreign(pkt: Bytes, now: int)

  /** The k-th packet of a packer whose packet ids start at zero. */
  function Wire(s: Suite, keys: ClientKeys, csid: U64, sent: seq<Sent>, k: U64): Bytes
    requires k < |sent| && |sent[k].pad| <= 0xffff
  {
    ClientPacket(s, keys, csid, k, ClientMessage(sent[k].ts, sent[k].pad, sent[k].target, sent[k].payload))
  }

  /** The server reads another session id from this datagram, or none. */
  predicate OtherSession(s: Suite, cfg: ServerConfig, csid: U64, pkt: Bytes) {
    |pkt| >= SeparateHeaderLength ==> Get64(OpenHeader(s, cfg, pkt)) != csid
  }

  /** The body opens under the session's key, or under that of the user the identity header names. */
  predicate Opens(s: Suite, cfg: ServerConfig, keys: ClientKeys, csid: U64, clear: Bytes)
    requires |clear| >= SeparateHeaderLength
  {
    && |clear| >= SeparateHeaderLength + cfg.IdentityLen() + Overhead
    && var body := clear[SeparateHeaderLength + cfg.IdentityLen()..];
       || Open(s, SessionKey(s, keys.psk, Put64(csid)), clear[4..16], body).Some?
       || (UserOf(s, cfg, clear).Ok? && Open(s, SessionKey(s, UserOf(s, cfg, clear).value, clear[..8]), clear[4..16], body).Some?)
  }

  /** A datagram of another session, or a damaged or forged one, whose body does not open. */
  predicate Harmless(s: Suite, cfg: ServerConfig, keys: ClientKeys, csid: U64, pkt: Bytes) {
    |pkt| >= SeparateHeaderLength && !OtherSession(s, cfg, csid, pkt) ==>
      !Opens(s, cfg, keys, csid, OpenHeader(s, cfg, pkt))
  }

  predicate ArrivalsOk(s: Suite, cfg: ServerConfig, keys: ClientKeys, csid: U64, sent: seq<Sent>, arrivals: seq<Arrival>) {
    && (forall p :: p in sent ==> |p.pad| <= 0xffff)
    && (forall a :: a in arrivals ==>
          if a.Own? then a.k < |sent| && TimestampOk(sent[a.k].ts, a.now) else Harmless(s, cfg, keys, csid, a.pkt))
  }

  function Datagram(s: Suite, cfg: ServerConfig, keys: ClientKeys, csid: U64, sent: seq<Sent>, a: Arrival): Bytes
    requires ArrivalsOk(s, cfg, keys, csid, sent, [a])
  {
    assert a in [a];
    if a.Own? then Wire(s, keys, csid, sent, a.k) else a.pkt
  }

  function Outcomes(s: Suite, cfg: ServerConfig, table: map<U64, Session>, keys: ClientKeys, csid: U64,
                    sent: seq<Sent>, arrivals: seq<Arrival>): (r: seq<Result<Delivery, RecvError>>)
    requires ArrivalsOk(s, cfg, keys, csid, sent, arrivals)
    ensures |r| == |arrivals|
    decreases |arrivals|
  {
    if arrivals == [] then [] else
    var a := arrivals[0];
    var (table', r) := Receive(s, cfg, table, Datagram(s, cfg, keys, csid, sent, a), a.now);
    [r] + Outcomes(s, cfg, table', keys, csid, sent, arrivals[1..])
  }

  /** The packet ids of this packer among the arrivals. */
  function IdsOf(arrivals: seq<Arrival>): (r: seq<Option<U64>>)
    ensures |r| == |arrivals|
    ensures forall i :: 0 <= i < |r| ==> r[i] == if arrivals[i].Own? then Some(arrivals[i].k) else None
  {
    seq(|arrivals|, i requires 0 <= i < |arrivals| => if arrivals[i].Own? then Some(arrivals[i].k) else None)
  }

  predicate DeliveredAs(r: Result<Delivery, RecvError>, p: Sent) {
    r.Ok? && r.value.target == p.target.Unmap() && r.value.payload == p.payload
  }

  function WindowAt(table: map<U64, Session>, csid: U64): Window {
    if csid in table then table[csid].window else EmptyWindow
  }

  predicate KeyFits(s: Suite, keys: ClientKeys, csid: U64, table: map<U64, Session>) {
    csid in table ==> table[csid].key == SessionKey(s, keys.psk, Put64(csid))
  }

  /** Neither leaves a mark on this session, and what does not open is refused. */
  lemma ForeignLeaves(s: Suite, cfg: ServerConfig, keys: ClientKeys, table: map<U64, Session>, csid: U64, pkt: Bytes, now: int)
    requires Harmless(s, cfg, keys, csid, pkt) && KeyFits(s, keys, csid, table)
    ensures var (table', r) := Receive(s, cfg, table, pkt, now);
            && (csid in table' <==> csid in table) && (csid in table ==> table'[csid] == table[csid])
            && (|pkt| >= SeparateHeaderLength && !OtherSession(s, cfg, csid, pkt) ==> r.Err? && table' == table)
  {
    if |pkt| >= SeparateHeaderLength && !OtherSession(s, cfg, csid, pkt) {
      DamagedRefused(s, cfg, keys, table, csid, OpenHeader(s, cfg, pkt), now);
    }
    hide Unpack, FirstPacket, OpenHeader, Get64, Harmless, KeyFits;
  }

  lemma DamagedRefused(s: Suite, cfg: ServerConfig, keys: ClientKeys, table: map<U64, Session>, csid: U64, clear: Bytes, now: int)
    requires |clear| >= SeparateHeaderLength && !Opens(s, cfg, keys, csid, clear) && KeyFits(s, keys, csid, table)
    ensures var (table', r) := Dispatch(s, cfg, table, csid, clear, now);
            r.Err? && table' == table
  {
    hide Open, SessionKey, Put64, Get64, UserOf, Window.Accepts, Crypto.Primitives.Lawful, OpenIdentity, ParseClientMessage;
    if csid in table {
      assert table[csid := table[csid]] == table;
    } else if UserOf(s, cfg, clear).Ok? {
      var sess := Session(SessionKey(s, UserOf(s, cfg, clear).value, clear[..8]), EmptyWindow, []);
      IdentityIgnored(s, cfg, sess, clear, now);
    }
  }

  /** The server's outcomes are the answers of the replay window to the packet ids. */
  lemma {:induction false} OutcomesAreAnswers(s: Suite, cfg: ServerConfig, table: map<U64, Session>, keys: ClientKeys,
                                              csid: U64, sent: seq<Sent>, arrivals: seq<Arrival>, i: nat)
    requires Matches(s, cfg, keys) && ArrivalsOk(s, cfg, keys, csid, sent, arrivals) && KeyFits(s, keys, csid, table)
    requires i < |arrivals| && arrivals[i].Own?
    ensures var r := Outcomes(s, cfg, table, keys, csid, sent, arrivals)[i];
            if Gate(WindowAt(table, csid), IdsOf(arrivals))[i] then DeliveredAs(r, sent[arrivals[i].k]) else r == Err(Replay)
    decreases |arrivals|
  {
    hide Receive, ClientPacket, ClientMessage, TimestampOk, SessionKey, Put64, Window.Accepts, Matches, Harmless,
         Crypto.Primitives.Lawful, Addr.Unmap, Gate, Window.Insert, Outcomes, IdsOf;
    FirstOutcome(s, cfg, table, keys, csid, sent, arrivals);
    assert IdsOf(arrivals)[1..] == IdsOf(arrivals[1..]);
    GateStep(WindowAt(table, csid), IdsOf(arrivals));
    if i > 0 {
      var a := arrivals[0];
      var table' := Receive(s, cfg, table, Datagram(s, cfg, keys, csid, sent, a), a.now).0;
      assert arrivals[1..][i - 1] == arrivals[i];
      OutcomesAreAnswers(s, cfg, table', keys, csid, sent, arrivals[1..], i - 1);
    }
  }

  /** One arrival: its outcome, and what it does to this session. */
  lemma FirstOutcome(s: Suite, cfg: ServerConfig, table: map<U64, Session>, keys: ClientKeys, csid: U64,
                     sent: seq<Sent>, arrivals: seq<Arrival>)
    requires Matches(s, cfg, keys) && arrivals != [] && ArrivalsOk(s, cfg, keys, csid, sent, arrivals) && KeyFits(s, keys, csid, table)
    ensures var a := arrivals[0];
            var w := WindowAt(table, csid);
            var (table', r) := Receive(s, cfg, table, Datagram(s, cfg, keys, csid, sent, a), a.now);
            && ArrivalsOk(s, cfg, keys, csid, sent, arrivals[1..]) && KeyFits(s, keys, csid, table')
            && Outcomes(s, cfg, table, keys, csid, sent, arrivals)
               == [r] + Outcomes(s, cfg, table', keys, csid, sent, arrivals[1..])
            && (a.Foreign? ==> WindowAt(table', csid) == w)
            && (a.Own? ==>
                  && WindowAt(table', csid) == (if w.Accepts(a.k) then w.Insert(a.k) else w)
                  && if w.Accepts(a.k) then DeliveredAs(r, sent[a.k]) else r == Err(Replay))
  {
    hide Receive, ClientPacket, ClientMessage, TimestampOk, SessionKey, Put64, Window.Accepts, Matches, Harmless,
         Crypto.Primitives.Lawful, Addr.Unmap;
    var a := arrivals[0];
    if a.Own? {
      var p := sent[a.k];
      ReceiveOfClientPacket(s, cfg, keys, table, csid, a.k, p.ts, p.pad, p.target, p.payload, a.now);
    } else {
      ForeignLeaves(s, cfg, keys, table, csid, a.pkt, a.now);
    }
  }

  /** No earlier arrival is the same packet. */
  predicate FirstArrival(arrivals: seq<Arrival>, i: nat)
    requires i < |arrivals| && arrivals[i].Own?
  {
    forall j :: 0 <= j < i && arrivals[j].Own? ==> arrivals[j].k != arrivals[i].k
  }

  /** Packets of one client packer, in any order, with duplicates, between any datagrams of other sessions and any that
      do not open, each first arriving at most 8128 behind the highest id so far: the first copy of each is delivered
      with its target and payload, every other copy is refused as a replay. */
  lemma DeliveredExactlyOnce(s: Suite, cfg: ServerConfig, table: map<U64, Session>, keys: ClientKeys,
                             csid: U64, sent: seq<Sent>, arrivals: seq<Arrival>, i: nat)
    requires Matches(s, cfg, keys) && ArrivalsOk(s, cfg, keys, csid, sent, arrivals) && i < |arrivals| && arrivals[i].Own?
    requires csid !in table
    requires FirstArrival(arrivals, i) ==>
               forall j :: 0 <= j < i && arrivals[j].Own? ==> arrivals[j].k - arrivals[i].k <= Size
    ensures var r := Outcomes(s, cfg, table, keys, csid, sent, arrivals)[i];
            if FirstArrival(arrivals, i) then DeliveredAs(r, sent[arrivals[i].k]) else r == Err(Replay)
  {
    hide Outcomes, Gate, TimestampOk, Matches, Crypto.Primitives.Lawful, Harmless;
    OutcomesAreAnswers(s, cfg, table, keys, csid, sent, arrivals, i);
    var ids := IdsOf(arrivals);
    assert FirstArrival(arrivals, i) <==> FirstOf(ids, i) by {
      if !FirstArrival(arrivals, i) {
        var j :| 0 <= j < i && arrivals[j].Own? && arrivals[j].k == arrivals[i].k;
        assert ids[j] == ids[i];
      }
    }
    GateIsFirst(ids, i);
  }

  /** A counter that was presented before is refused, whether it was accepted then or not. */
  lemma {:induction false} DuplicateRefused(cs: seq<U64>, i: nat)
    requires i < |cs| && exists j :: 0 <= j < i && cs[j] == cs[i]
    ensures !Answers(EmptyWindow, cs)[i]
  {
    var j :| 0 <= j < i && cs[j] == cs[i];
    AnswerCharacterised(EmptyWindow, cs, i);
    AnswerCharacterised(EmptyWindow, cs, j);
  }

  // ----- the objects -----

  /** Packet id, nonce and sealed body of a packet whose separate header is decrypted. */
  method ReadFields(b: array<Byte>, start: nat, len: nat, bodyOffset: nat)
    returns (pid: Bytes, nonce: Bytes, ciphertext: Bytes)
    requires SeparateHeaderLength <= bodyOffset <= len && start + len <= b.Length
    ensures var pkt := b[start..start + len];
            pid == pkt[8..16] && nonce == pkt[4..16] && ciphertext == pkt[bodyOffset..]
  {
    pid := b[start + 8..start + 16];
    nonce := b[start + 4..start + 16];
    ciphertext := b[start + bodyOffset..start + len];
    SubSlice(b[..], start, len, 8, 16);
    SubSlice(b[..], start, len, 4, 16);
    SubSlice(b[..], start, len, bodyOffset, len);
  }

  lemma UnpackCases(s: Suite, idLen: nat, sess: Session, pkt: Bytes, now: int)
    ensures var u := Unpack(s, idLen, sess, pkt, now);
            var o := OpenBody(s, idLen, sess, pkt);
            && (o.Err? ==> u == (sess, Err(o.error)))
            && (o.Ok? ==>
                  var (parsed, cache) := ParseClientMessage(o.value.1, sess.cache, now);
                  && (parsed.Err? ==> u == (sess.(cache := cache), Err(BadHeader(parsed.error))))
                  && (parsed.Ok? ==>
                        && u.0 == Session(sess.key, sess.window.Insert(o.value.0), cache) && u.1.Ok?
                        && u.1.value.target == parsed.value.0
                        && u.1.value.start == SeparateHeaderLength + idLen + parsed.value.1
                        && u.1.value.payload == o.value.1[parsed.value.1..parsed.value.1 + parsed.value.2]))
  {
    hide OpenBody, ParseClientMessage, Window.Accepts, Window.Insert;
  }

  class ShadowPacketServerUnpacker {
    const suite: Suite
    const identityHeadersLen: nat
    const aead: Bytes
    var filter: Filter?
    var cachedDomain: Bytes

    ghost predicate Valid()
      reads this, filter, if filter == null then {} else {filter.ring}
    {
      filter != null ==> filter.Valid()
    }

    ghost function Spec(): Session
      reads this, filter
    {
      Session(aead, if filter == null then EmptyWindow else filter.Spec(), cachedDomain)
    }

    constructor (suite: Suite, identityHeadersLen: nat, aead: Bytes)
      ensures Valid() && filter == null && Spec() == Session(aead, EmptyWindow, [])
      ensures this.suite == suite && this.identityHeadersLen == identityHeadersLen
    {
      this.suite, this.identityHeadersLen, this.aead, filter, cachedDomain := suite, identityHeadersLen, aead, null, [];
    }

    /** The payload ends up in `b[start..start + length]`. */
    method UnpackInPlace(b: array<Byte>, packetStart: nat, packetLen: nat, now: int)
      returns (target: Result<Addr, RecvError>, start: nat, length: nat)
      requires Valid() && packetStart + packetLen <= b.Length
      requires filter == null || filter.ring as object != b
      modifies this, filter, if filter == null then {} else {filter.ring}, b
      ensures Valid()
      ensures filter == old(filter) || (fresh(filter) && fresh(filter.ring))
      ensures var (sess', r) := Unpack(suite, identityHeadersLen, old(Spec()),
                                       old(b[packetStart..packetStart + packetLen]), now);
              && Spec() == sess'
              && (r.Err? ==> target == Err(r.error))
              && (r.Ok? ==>
                    && target == Ok(r.value.target)
                    && start == packetStart + r.value.start && start + length <= packetStart + packetLen
                    && b[start..start + length] == r.value.payload)
    {
      hide Unpack, OpenBody, ParseClientMessage, Window.Accepts, Window.Insert, Represents, Crypto.Primitives.Lawful;
      UnpackCases(suite, identityHeadersLen, Spec(), b[packetStart..packetStart + packetLen], now);
      var cpid;
      target, cpid, start, length := OpenAndParse(b, packetStart, packetLen, now);
      if target.Ok? {
        ghost var payload := b[start..start + length];
        Record(cpid);
        assert b[start..start + length] == payload;
      }
    }

    /** Everything but recording the packet id. */
    method OpenAndParse(b: array<Byte>, packetStart: nat, packetLen: nat, now: int)
      returns (target: Result<Addr, RecvError>, cpid: U64, start: nat, length: nat)
      requires Valid() && packetStart + packetLen <= b.Length
      requires filter == null || filter.ring as object != b
      modifies this`cachedDomain, b
      ensures var o := OpenBody(suite, identityHeadersLen, old(Spec()), old(b[packetStart..packetStart + packetLen]));
              if o.Err? then target == Err(o.error) && cachedDomain == old(cachedDomain)
              else
                var (parsed, cache) := ParseClientMessage(o.value.1, old(cachedDomain), now);
                && cachedDomain == cache
                && (parsed.Err? ==> target == Err(BadHeader(parsed.error)))
                && (parsed.Ok? ==>
                      && target == Ok(parsed.value.0) && cpid == o.value.0 && length == parsed.value.2
                      && start == packetStart + SeparateHeaderLength + identityHeadersLen + parsed.value.1
                      && start + length <= packetStart + packetLen
                      && b[start..start + length] == o.value.1[parsed.value.1..parsed.value.1 + parsed.value.2])
    {
      hide OpenBody, ParseClientMessage, Window.Accepts, Represents, Crypto.Primitives.Lawful, Valid;
      cpid, start, length := 0, 0, 0;
      var body := OpenInPlace(b, packetStart, packetLen);
      if body.Err? {
        return Err(body.error), 0, 0, 0;
      }
      var plaintext := body.value.1;
      var (parsed, cache) := ParseClientMessage(plaintext, cachedDomain, now);
      cachedDomain := cache;
      if parsed.Err? {
        return Err(BadHeader(parsed.error)), 0, 0, 0;
      }
      target, cpid := Ok(parsed.value.0), body.value.0;
      var messageStart := packetStart + SeparateHeaderLength + identityHeadersLen;
      start, length := messageStart + parsed.value.1, parsed.value.2;
      SubSlice(b[..], messageStart, |plaintext|, parsed.value.1, parsed.value.1 + length);
      assert b[start..start + length] == plaintext[parsed.value.1..parsed.value.1 + length];
    }

    /** Checks the packet id and opens the body in place; nothing is recorded yet. */
    method OpenInPlace(b: array<Byte>, packetStart: nat, packetLen: nat)
      returns (body: Result<(U64, Bytes), RecvError>)
      requires Valid() && packetStart + packetLen <= b.Length
      requires filter == null || filter.ring as object != b
      modifies b
      ensures body == OpenBody(suite, identityHeadersLen, old(Spec()), old(b[packetStart..packetStart + packetLen]))
      ensures body.Ok? ==>
                var messageStart := packetStart + SeparateHeaderLength + identityHeadersLen;
                b[messageStart..messageStart + |body.value.1|] == body.value.1
    {
      hide Crypto.Primitives.Lawful, Get64, Open, Patch, Window.Accepts, Represents;
      if packetLen < SeparateHeaderLength + identityHeadersLen + Overhead {
        return Err(PacketTooSmall);
      }
      var messageStart := packetStart + SeparateHeaderLength + identityHeadersLen;
      var pid, nonce, ciphertext := ReadFields(b, packetStart, packetLen, SeparateHeaderLength + identityHeadersLen);
      var cpid := Get64(pid);
      EmptyAccepts(cpid);
      if filter != null {
        var ok := filter.IsOk(cpid);
        if !ok {
          return Err(Replay);
        }
      }
      var plaintext := Open(suite, aead, nonce, ciphertext);
      if plaintext.None? {
        return Err(AuthFailed);
      }
      Put(b, messageStart, plaintext.value);
      body := Ok((cpid, plaintext.value));
    }

    /** The filter is created with the first packet that unpacks. */
    method Record(cpid: U64)
      requires Valid() && Spec().window.Accepts(cpid)
      modifies this, filter, if filter == null then {} else {filter.ring}
      ensures Valid() && Spec() == old(Spec()).(window := old(Spec()).window.Insert(cpid))
      ensures filter == old(filter) || (fresh(filter) && fresh(filter.ring))
    {
      hide Represents, Window.Insert, Window.Accepts;
      if filter == null {
        filter := new Filter();
      }
      filter.MustAdd(cpid);
    }
  }

  class UDPServer {
    const suite: Suite
    const config: ServerConfig
    var currentUserPSK: Bytes

    ghost predicate Valid()
      reads this
    {
      config.users == map[] ==> currentUserPSK == config.psk
    }

    constructor (suite: Suite, config: ServerConfig)
      ensures Valid() && this.suite == suite && this.config == config && currentUserPSK == config.psk
    {
      this.suite, this.config, currentUserPSK := suite, config, config.psk;
    }

    /** Decrypts the separate header of `b[start..start + len]` in place. */
    method SessionInfo(b: array<Byte>, start: nat, len: nat) returns (csid: Result<U64, RecvError>)
      requires start + len <= b.Length
      modifies b
      ensures if len < SeparateHeaderLength then csid == Err(PacketTooSmall) && b[..] == old(b[..])
              else
                var clear := OpenHeader(suite, config, old(b[start..start + len]));
                b[..] == Patch(old(b[..]), start, clear) && csid == Ok(Get64(clear))
    {
      hide Crypto.Primitives.Lawful, Decrypt, Get64, Patch;
      if len < SeparateHeaderLength {
        return Err(PacketTooSmall);
      }
      SubSlice(b[..], start, len, 0, SeparateHeaderLength);
      var header := Decrypt(suite, config.psk, b[start..start + SeparateHeaderLength]);
      PatchPrefix(b[..], start, len, header);
      Get64Prefix(header, b[start..start + len]);
      Put(b, start, header);
      csid := Ok(Get64(header));
    }

    /** Decrypts the identity header in place and picks the user; the unpacker starts with no
        packets seen. */
    method NewUnpacker(b: array<Byte>, start: nat, len: nat) returns (u: Result<ShadowPacketServerUnpacker, RecvError>)
      requires Valid() && start + len <= b.Length
      modifies this, b
      ensures Valid()
      ensures b[..] == Patch(old(b[..]), start, OpenIdentity(suite, config, old(b[start..start + len])))
      ensures var clear := old(b[start..start + len]);
              match UserOf(suite, config, clear)
              case Err(e) => u == Err(e) && currentUserPSK == old(currentUserPSK)
              case Ok(psk) =>
                && currentUserPSK == psk
                && u.Ok? && fresh(u.value) && u.value.Valid() && u.value.filter == null
                && u.value.suite == suite && u.value.identityHeadersLen == config.IdentityLen()
                && u.value.Spec() == Session(SessionKey(suite, psk, clear[..8]), EmptyWindow, [])
    {
      hide Crypto.Primitives.Lawful, Decrypt, SessionKey, Patch;
      var identityHeaderLen := config.IdentityLen();
      ghost var clear := b[start..start + len];
      PatchSame(b[..], start, len);
      if len < SeparateHeaderLength + identityHeaderLen {
        return Err(PacketTooSmall);
      }
      var separateHeader := b[start..start + 16];
      SubSlice(b[..], start, len, 0, 16);
      assert separateHeader[..8] == clear[..8];
      if identityHeaderLen != 0 {
        var identityHeader := b[start + 16..start + 32];
        SubSlice(b[..], start, len, 16, 32);
        var uPSKHash := Xor(suite, Decrypt(suite, config.psk, identityHeader), separateHeader);
        PatchInner(b[..], start, len, 16, uPSKHash);
        Put(b, start + 16, uPSKHash);
        if uPSKHash !in config.users {
          return Err(UserPSKNotFound);
        }
        currentUserPSK := config.users[uPSKHash];
      }
      var unpacker := new ShadowPacketServerUnpacker(suite, identityHeaderLen,
                                                     SessionKey(suite, currentUserPSK, separateHeader[..8]));
      u := Ok(unpacker);
    }
  }

  lemma PatchSame(s: Bytes, start: nat, len: nat)
    requires start + len <= |s|
    ensures Patch(s, start, s[start..start + len]) == s
  {}

  lemma PatchInner(s: Bytes, start: nat, len: nat, at: nat, d: Bytes)
    requires start + len <= |s| && at + |d| <= len
    ensures Patch(s, start + at, d) == Patch(s, start, Patch(s[start..start + len], at, d))
  {}

  lemma PatchPrefix(s: Bytes, start: nat, len: nat, d: Bytes)
    requires start + len <= |s| && |d| <= len
    ensures Patch(s, start, d) == Patch(s, start, Patch(s[start..start + len], 0, d))
  {}

  lemma Get64Prefix(h: Bytes, pkt: Bytes)
    requires 8 <= |h| <= |pkt|
    ensures Get64(Patch(pkt, 0, h)) == Get64(h)
  {
    assert Patch(pkt, 0, h)[..8] == h[..8];
  }
}
