/** Buffers are sized once, from the largest headers of the protocols on both sides, and every packet is
    unpacked and packed again in place. For every pair of protocols and every address there is room. */
module Headroom {
  import opened Words
  import opened Crypto
  import opened SocksAddr
  import opened PacketHeader
  import opened PacketPacker
  import opened DirectPackets
  import SlidingWindow
  import PacketServer
  import PacketClient

  datatype Protocol = Direct | Plain(framing: Framing) | Shadow(identityHeadersLen: nat)

  // ----- the headrooms each protocol reports -----

  const ClientMessageMaxLength := ClientMessageFixedLength + MaxPaddingLength + MaxAddrLen
  const ServerMessageMaxLength := ServerMessageFixedLength + MaxPaddingLength + IPv6AddrLen

  /** Of a client's packer, and of the server's unpacker for the same messages. */
  function ClientMessageFront(p: Protocol): nat {
    match p
    case Direct => 0
    case Plain(f) => |f.Lead()| + MaxAddrLen
    case Shadow(ids) => SeparateHeaderLength + ids + ClientMessageMaxLength
  }

  /** Of a server's packer, and of the client's unpacker for the same messages. */
  function ServerMessageFront(p: Protocol): nat {
    match p
    case Direct => 0
    case Plain(f) => |f.Lead()| + IPv6AddrLen
    case Shadow(_) => SeparateHeaderLength + ServerMessageMaxLength
  }

  function Rear(p: Protocol): nat {
    if p.Shadow? then Overhead else 0
  }

  function Excess(packer: nat, unpacker: nat): (r: nat) {
    if packer > unpacker then packer - unpacker else 0
  }

  /** NewUDPNATRelay: room in front of and behind the received packet. */
  function UplinkFront(maxClientFront: nat, server: Protocol): nat {
    Excess(maxClientFront, ClientMessageFront(server))
  }

  function UplinkRear(maxClientRear: nat, server: Protocol): nat {
    Excess(maxClientRear, Rear(server))
  }

  /** relayNatConnToServerConn: the same for the way back. */
  function DownlinkFront(server: Protocol, client: Protocol): nat {
    Excess(ServerMessageFront(server), ServerMessageFront(client))
  }

  function DownlinkRear(server: Protocol, client: Protocol): nat {
    Excess(Rear(server), Rear(client))
  }

  // ----- what a message really takes -----

  /** The shortest header of a client message to this address. */
  function ClientHeader(p: Protocol, target: Addr): nat {
    match p
    case Direct => 0
    case Plain(f) => |f.Lead()| + LengthOf(target)
    case Shadow(ids) => SeparateHeaderLength + ids + ClientMessageFixedLength + LengthOf(target)
  }

  function ServerHeader(p: Protocol, source: AddrPort): nat {
    match p
    case Direct => 0
    case Plain(f) => |f.Lead()| + LengthOfAddrPort(source)
    case Shadow(_) => SeparateHeaderLength + ServerMessageFixedLength + LengthOfAddrPort(source)
  }

  /** A payload of `length` bytes at `start`, unpacked from a packet of n bytes at `front`. */
  predicate Unpacked(front: nat, n: nat, header: nat, rear: nat, start: nat, length: nat) {
    front + header <= start && start + length + rear <= front + n
  }

  /** The relay's buffer leaves the next packer its front and rear room, for every pair of protocols, every
      address and every padding: headers only ever grow by what the two maxima differ. */
  lemma UplinkRoom(server: Protocol, client: Protocol, maxFront: nat, maxRear: nat, target: Addr,
                   recv: nat, n: nat, start: nat, length: nat)
    requires ClientMessageFront(client) <= maxFront && Rear(client) <= maxRear && n <= recv
    requires Unpacked(UplinkFront(maxFront, server), n, ClientHeader(server, target), Rear(server), start, length)
    ensures ClientHeader(client, target) <= start
    ensures start + length + Rear(client) <= UplinkFront(maxFront, server) + recv + UplinkRear(maxRear, server)
  {
    assert LengthOf(target) <= MaxAddrLen by {
      var e := Encode(target);
    }
  }

  lemma DownlinkRoom(server: Protocol, client: Protocol, source: AddrPort, recv: nat, n: nat, start: nat, length: nat)
    requires n <= recv
    requires Unpacked(DownlinkFront(server, client), n, ServerHeader(client, source), Rear(client), start, length)
    ensures ServerHeader(server, source) <= start
    ensures start + length + Rear(server) <= DownlinkFront(server, client) + recv + DownlinkRear(server, client)
  {}

  /** Not a byte more: what unpacking leaves and what is added make up the larger of the two needs, which are 0, 259 or 262
      bytes for a target and 0, 19 or 22 for a source without encryption, and with it 1186 besides the identity headers, and
      954. */
  lemma RoomIsLeast(maxFront: nat, maxRear: nat, p: Protocol, q: Protocol)
    ensures UplinkFront(maxFront, p) + ClientMessageFront(p) == Max(maxFront, ClientMessageFront(p))
    ensures UplinkRear(maxRear, p) + Rear(p) == Max(maxRear, Rear(p))
    ensures DownlinkFront(p, q) + ServerMessageFront(q) == Max(ServerMessageFront(p), ServerMessageFront(q))
    ensures DownlinkRear(p, q) + Rear(q) == Max(Rear(p), Rear(q))
    ensures ClientMessageFront(p) == match p
                                     case Direct => 0
                                     case Plain(f) => if f.Socks5? then 262 else 259
                                     case Shadow(ids) => 1186 + ids
    ensures ServerMessageFront(p) == match p
                                     case Direct => 0
                                     case Plain(f) => if f.Socks5? then 22 else 19
                                     case Shadow(_) => 954
    ensures Rear(p) == if p.Shadow? then 16 else 0
  {}

  // ----- the uplink: a server unpacker, then a client packer -----

  datatype ServerUnpacker =
    | DirectServer(target: Addr)
    | PlainServer(plain: PacketServerUnpacker)
    | ShadowServer(shadow: PacketServer.ShadowPacketServerUnpacker)
  {
    function Kind(): Protocol {
      match this
      case DirectServer(_) => Direct
      case PlainServer(u) => Plain(u.framing)
      case ShadowServer(u) => Shadow(u.identityHeadersLen)
    }

    ghost function Repr(): set<object>
      reads if ShadowServer? then {shadow} else {}
    {
      match this
      case DirectServer(_) => {}
      case PlainServer(u) => {u}
      case ShadowServer(u) => {u} + (if u.filter == null then {} else {u.filter, u.filter.ring})
    }

    ghost predicate Valid()
      reads Repr()
    {
      ShadowServer? ==> shadow.Valid()
    }

    /** Target and payload of a packet, or None if it is refused. */
    ghost function Reads(pkt: Bytes, now: int): Option<(Addr, Bytes)>
      reads Repr()
    {
      match this
      case DirectServer(target) => Some((target, pkt))
      case PlainServer(u) =>
        var r := ReadClient(u.framing, pkt);
        if r.Err? then None else Some((r.value.0, pkt[r.value.1..]))
      case ShadowServer(u) =>
        var r := PacketServer.Unpack(u.suite, u.identityHeadersLen, u.Spec(), pkt, now).1;
        if r.Err? then None else Some((r.value.target, r.value.payload))
    }
  }

  datatype ClientPacker =
    | DirectClient(direct: DirectPacketClient)
    | PlainClient(framing: Framing, server: AddrPort, maxPacketSize: int)
    | ShadowClient(shadow: ShadowPacketClientPacker)
  {
    function Kind(): Protocol {
      match this
      case DirectClient(_) => Direct
      case PlainClient(f, _, _) => Plain(f)
      case ShadowClient(p) => Shadow(|p.keys.ipsks| * IdentityHeaderLength)
    }

    ghost function Repr(): set<object> {
      match this
      case DirectClient(d) => {d}
      case PlainClient(_, _, _) => {}
      case ShadowClient(p) => {p}
    }

    /** The packet holds this target (except direct packets, whose destination it is) and payload. */
    ghost predicate Carries(cpid: U64, pkt: Bytes, target: Addr, payload: Bytes) {
      match this
      case DirectClient(_) => pkt == payload
      case PlainClient(f, _, _) => pkt == Header(f, Encode(target)) + payload
      case ShadowClient(p) =>
        exists ts: U64, pad: Bytes :: |pad| <= 0xffff &&
          pkt == ClientPacket(p.suite, p.keys, p.csid, cpid, ClientMessage(ts, pad, target, payload))
    }

    ghost function PacketId(): U64
      reads Repr()
    {
      if ShadowClient? then shadow.cpid else 0
    }

    /** Where the packet goes: the server, or for a direct packet the target, a domain being the address it resolved to
        last or resolves to now. */
    ghost function Endpoint(target: Addr, resolved: Option<IP>): Option<AddrPort>
      reads Repr()
    {
      match this
      case DirectClient(d) =>
        if target.FromIP? then Some(target.ap)
        else if target.domain == d.cachedDomain then Some(AddrPort(d.cachedDomainIP, target.domainPort))
        else if resolved.None? then None
        else Some(AddrPort(resolved.value, target.domainPort))
      case PlainClient(_, server, _) => Some(server)
      case ShadowClient(p) => Some(p.serverAddrPort)
    }

    /** The size limit: fixed when the packer was made, or a direct packer's for the destination. */
    function Limit(dest: AddrPort): int {
      match this
      case DirectClient(d) => MaxPacketSizeForAddr(d.mtu, dest.ip)
      case PlainClient(_, _, max) => max
      case ShadowClient(p) => p.maxPacketSize
    }

    /** Nowhere to go, or over the limit even without padding. */
    ghost predicate Refuses(target: Addr, length: nat, resolved: Option<IP>)
      reads Repr()
    {
      var dest := Endpoint(target, resolved);
      dest.None? || ClientHeader(Kind(), target) + length + Rear(Kind()) > Limit(dest.value)
    }
  }

  /** A Shadowsocks client packet is its headers, padding, address, payload and tag. */
  lemma ShadowClientSpans(s: Suite, ids: nat, sess: PacketServer.Session, pkt: Bytes, now: int)
    ensures var r := PacketServer.Unpack(s, ids, sess, pkt, now).1;
            r.Ok? ==> && ClientHeader(Shadow(ids), r.value.target) <= r.value.start
                      && r.value.start + |r.value.payload| + Overhead == |pkt|
  {
    hide Decode, TimestampOk, Get64, Get16, PacketServer.OpenBody, SlidingWindow.Window.Accepts, SlidingWindow.Window.Insert, LengthOf;
    var o := PacketServer.OpenBody(s, ids, sess, pkt);
    if o.Ok? {
      var parsed := ParseClientMessage(o.value.1, sess.cache, now).0;
      if parsed.Ok? {
        assert parsed.value.1 >= ClientMessageFixedLength + LengthOf(parsed.value.0);
      }
    }
  }

  /** The unpacker's part: on success the payload lies behind at least the header of the address it read. */
  method UnpackUplink(u: ServerUnpacker, b: array<Byte>, front: nat, n: nat, now: int)
    returns (r: Option<(Addr, nat, nat)>)
    requires u.Valid() && front + n <= b.Length && b !in u.Repr()
    modifies u.Repr(), b
    ensures u.Valid() && fresh(u.Repr() - old(u.Repr()))
    ensures var want := old(u.Reads(b[front..front + n], now));
            && (r.None? <==> want.None?)
            && (r.Some? ==>
                  var (target, start, length) := r.value;
                  && start + length <= b.Length && want == Some((target, b[start..start + length]))
                  && Unpacked(front, n, ClientHeader(u.Kind(), target), Rear(u.Kind()), start, length))
  {
    hide Decode, ReadClient, PacketServer.Unpack, SlidingWindow.Represents;
    match u
    case DirectServer(target) =>
      r := Some((target, front, n));
    case PlainServer(p) =>
      var target, start, length := p.UnpackInPlace(b, front, n);
      r := if target.Err? then None else Some((target.value, start, length));
    case ShadowServer(p) =>
      ShadowClientSpans(p.suite, p.identityHeadersLen, p.Spec(), b[front..front + n], now);
      var target, start, length := p.UnpackInPlace(b, front, n, now);
      r := if target.Err? then None else Some((target.value, start, length));
  }

  lemma PatchedPacket(s: Bytes, start: nat, pkt: Bytes)
    requires start + |pkt| <= |s|
    ensures Patch(s, start, pkt)[start..start + |pkt|] == pkt
  {
    PatchSlice(s, start, pkt);
  }

  lemma ShadowCarries(p: ShadowPacketClientPacker, cpid: U64, s: Bytes, ts: U64, padLen: nat, target: Addr,
                      start: nat, length: nat)
    requires padLen <= 0xffff && padLen + LengthOf(target) <= start && start + length <= |s|
    ensures ShadowClient(p).Carries(cpid,
              ClientPacket(p.suite, p.keys, p.csid, cpid, MessageIn(s, ts, padLen, target, start, length)),
              target, s[start..start + length])
  {
    hide ClientPacket, ClientMessage, LengthOf;
    var pad := s[start - LengthOf(target) - padLen..start - LengthOf(target)];
    assert |pad| == padLen;
  }

  /** The packer's part. The plain packers do not check the front room: the caller must have left it. */
  method PackUplink(c: ClientPacker, b: array<Byte>, target: Addr, start: nat, length: nat,
                    now: int, draw: nat, resolved: Option<IP>)
    returns (r: Option<Packed>, dest: AddrPort)
    requires ClientHeader(c.Kind(), target) <= start && start + length + Rear(c.Kind()) <= b.Length
    modifies c.Repr(), b
    ensures r.None? <==> old(c.Refuses(target, length, resolved))
    ensures r.Some? ==>
              && old(c.Endpoint(target, resolved)) == Some(dest)
              && r.value.start + r.value.length <= b.Length
              && c.Carries(old(c.PacketId()), b[r.value.start..r.value.start + r.value.length], target,
                           old(b[start..start + length]))
  {
    hide ClientPacket, MessageIn, Encode, Patch, ClientPacker.Carries, LengthOf, Crypto.Primitives.Lawful;
    ghost var was := b[..];
    match c {
      case DirectClient(d) =>
        var p;
        dest, p := d.PackInPlace(target, start, length, resolved);
        r := if p.Err? then None else Some(p.value);
        DirectCarries(d, target, b[start..start + length]);
      case PlainClient(f, server, max) =>
        var p := PackHeader(b, f, Encode(target), start, length, max);
        dest := server;
        r := if p.Err? then None else Some(p.value);
        PlainCarries(c, target, was[start..start + length]);
      case ShadowClient(p) =>
        var packed;
        ghost var padLen;
        packed, dest, padLen := p.PackInPlace(b, target, start, length, now, draw);
        if packed.Err? {
          return None, dest;
        }
        r := Some(packed.value);
        ghost var cpid := old(p.cpid);
        ShadowCarries(p, cpid, was, ToU64(now), padLen, target, start, length);
        PatchedPacket(was, packed.value.start,
          ClientPacket(p.suite, p.keys, p.csid, cpid, MessageIn(was, ToU64(now), padLen, target, start, length)));
    }
  }

  lemma DirectCarries(d: DirectPacketClient, target: Addr, payload: Bytes)
    ensures DirectClient(d).Carries(0, payload, target, payload)
  {}

  lemma PlainCarries(c: ClientPacker, target: Addr, payload: Bytes)
    requires c.PlainClient?
    ensures c.Carries(0, Header(c.framing, Encode(target)) + payload, target, payload)
  {}

  /** One packet from client to target through a buffer sized when the relay was created. Nothing is required
      of the packet, the address or the padding: whatever is sent lies in the buffer and carries the target
      and payload that the server's protocol read. */
  method RelayUplink(u: ServerUnpacker, c: ClientPacker, b: array<Byte>, maxFront: nat, maxRear: nat, recv: nat, n: nat,
                     now: int, draw: nat, resolved: Option<IP>)
    returns (r: Option<Packed>, dest: AddrPort)
    requires u.Valid() && b !in u.Repr() && u.Repr() !! c.Repr()
    requires ClientMessageFront(c.Kind()) <= maxFront && Rear(c.Kind()) <= maxRear
    requires b.Length == UplinkFront(maxFront, u.Kind()) + recv + UplinkRear(maxRear, u.Kind()) && n <= recv
    modifies u.Repr(), c.Repr(), b
    ensures u.Valid()
    ensures var front := UplinkFront(maxFront, u.Kind());
            var want := old(u.Reads(b[front..front + n], now));
            && (r.None? <==> want.None? || old(c.Refuses(want.value.0, |want.value.1|, resolved)))
            && (r.Some? ==>
              && want.Some? && old(c.Endpoint(want.value.0, resolved)) == Some(dest) && r.value.start + r.value.length <= b.Length
              && c.Carries(old(c.PacketId()), b[r.value.start..r.value.start + r.value.length],
                           want.value.0, want.value.1))
  {
    hide ClientHeader, ServerUnpacker.Reads, ClientPacker.Carries, ClientPacker.Refuses, ClientPacker.Endpoint, Rear, ClientMessageFront, Unpacked,
         UplinkFront, UplinkRear, ServerUnpacker.Kind, ClientPacker.Kind, ClientPacker.PacketId,
         ServerUnpacker.Valid, PacketServer.ShadowPacketServerUnpacker.Valid, Crypto.Primitives.Lawful;
    var front := UplinkFront(maxFront, u.Kind());
    var got := UnpackUplink(u, b, front, n, now);
    if got.None? {
      return None, AddrPort(UnspecifiedIPv6, 0);
    }
    var (target, start, length) := got.value;
    UplinkRoom(u.Kind(), c.Kind(), maxFront, maxRear, target, recv, n, start, length);
    r, dest := PackUplink(c, b, target, start, length, now, draw, resolved);
  }

  // ----- the downlink: a client unpacker, then a server packer -----

  datatype ClientUnpacker =
    | DirectReply
    | PlainReply(framing: Framing, server: AddrPort)
    | ShadowReply(shadow: PacketClient.ShadowPacketClientUnpacker)
  {
    function Kind(): Protocol {
      match this
      case DirectReply => Direct
      case PlainReply(f, _) => Plain(f)
      case ShadowReply(_) => Shadow(0)
    }

    ghost function Repr(): set<object>
      reads if ShadowReply? then {shadow} else {}
    {
      if ShadowReply? then shadow.Repr() else {}
    }

    ghost predicate Valid()
      reads Repr()
    {
      ShadowReply? ==> shadow.Valid()
    }

    /** Source and payload of a packet that came from `from`, or None if it is refused. */
    ghost function Reads(pkt: Bytes, from: AddrPort, t: PacketClient.Times): Option<(AddrPort, Bytes)>
      reads Repr()
    {
      match this
      case DirectReply => Some((from, pkt))
      case PlainReply(f, server) =>
        var r := ReadServer(f, pkt);
        if !MappedEqual(from, server) || r.Err? then None else Some((r.value.0, pkt[r.value.1..]))
      case ShadowReply(u) =>
        var r := PacketClient.Unpack(u.keys, u.Spec(), pkt, t).1;
        if r.Err? then None else Some((r.value.0.source, r.value.0.payload))
    }
  }

  datatype ServerPacker =
    | DirectAnswer(target: Addr, targetOnly: bool)
    | PlainAnswer(framing: Framing)
    | ShadowAnswer(shadow: ShadowPacketServerPacker)
  {
    function Kind(): Protocol {
      match this
      case DirectAnswer(_, _) => Direct
      case PlainAnswer(f) => Plain(f)
      case ShadowAnswer(_) => Shadow(0)
    }

    ghost function Repr(): set<object> {
      if ShadowAnswer? then {shadow} else {}
    }

    /** A direct server may be told to drop what its target did not send. */
    predicate Wants(source: AddrPort) {
      DirectAnswer? && targetOnly ==> MappedEqual(source, IPPortOf(target))
    }

    ghost predicate Carries(spid: U64, pkt: Bytes, source: AddrPort, payload: Bytes) {
      match this
      case DirectAnswer(_, _) => pkt == payload
      case PlainAnswer(f) => pkt == Header(f, EncodeAddrPort(source)) + payload
      case ShadowAnswer(p) =>
        exists ts: U64, pad: Bytes :: |pad| <= 0xffff &&
          pkt == ServerPacket(p.suite, p.psk, p.ssid, spid, ServerMessage(ts, p.csid, pad, source, payload))
    }

    ghost function PacketId(): U64
      reads Repr()
    {
      if ShadowAnswer? then shadow.spid else 0
    }

    ghost predicate Sends(source: AddrPort, length: nat, maxPacketLen: int) {
      Wants(source) && ServerHeader(Kind(), source) + length + Rear(Kind()) <= maxPacketLen
    }
  }

  /** A direct server that only wants its target takes, for a domain target, nothing but `[::]` and the port. */
  lemma DomainTargetWants(target: Addr, source: AddrPort)
    requires target.FromDomain?
    ensures DirectAnswer(target, true).Wants(source) <==> source == AddrPort(UnspecifiedIPv6, target.domainPort)
  {
    assert !UnspecifiedIPv6.Is4In6() by {
      assert UnspecifiedIPv6.o[..12][10] == 0;
    }
    assert UnspecifiedIPv6.Unmap() == UnspecifiedIPv6;
  }

  /** So the target's own replies pass, whatever it resolves to, exactly when the target is an IP address. */
  lemma RepliesPassExactly(target: Addr)
    ensures (forall ip: IP :: ip != UnspecifiedIPv6 ==> DirectAnswer(target, true).Wants(ReplyFrom(target, ip)))
            <==> target.FromIP?
  {
    if target.FromDomain? {
      var ip := V4([192, 0, 2, 1]);
      DomainTargetWants(target, ReplyFrom(target, ip));
      assert !DirectAnswer(target, true).Wants(ReplyFrom(target, ip));
    }
  }

  /** The reply of 192.0.2.1 for the target `dns:53` is dropped, whatever its size. */
  lemma DomainReplyDropped(length: nat, maxPacketLen: int)
    ensures var target := FromDomain([0x64, 0x6e, 0x73], 53);
            !DirectAnswer(target, true).Sends(ReplyFrom(target, V4([192, 0, 2, 1])), length, maxPacketLen)
  {
    var target := FromDomain([0x64, 0x6e, 0x73], 53);
    DomainTargetWants(target, ReplyFrom(target, V4([192, 0, 2, 1])));
  }

  /** A Shadowsocks client behind a direct server, in the relay's own buffer: padding an address whose encoding is shorter than
      the longest one, with a draw that comes out at 901, uses a byte more than the 900 reserved. Whatever packet it is, it
      lies in the buffer. */
  method PadBeyondReserve(p: ShadowPacketClientPacker, payload: Bytes, now: int)
    returns (r: Result<Packed, PackError>, ghost padLen: nat)
    requires p.keys.ipsks == [] && |payload| <= 100 && p.maxPacketSize >= 1452
    requires p.shouldPad(FromIP(AddrPort(V4([192, 0, 2, 1]), 53)))
    modifies p
    ensures r.Ok? && padLen == MaxPaddingLength + 1 && r.value.length == 34 + padLen + |payload| + Overhead
  {
    hide PaddingLength, Patch, ClientPacket, MessageIn, Crypto.Primitives.Lawful;
    var target := FromIP(AddrPort(V4([192, 0, 2, 1]), 53));
    var start := UplinkFront(ClientMessageFront(Shadow(0)), Direct);
    SmallDraw(MaxPadding(p.maxPacketSize, 34, start, |payload|), MaxPaddingLength);
    assert start == 1186 && p.HeaderNoPaddingLength(target) == 34;
    var b := new Byte[start + |payload| + UplinkRear(Overhead, Direct)];
    Put(b, start, payload);
    var dest;
    r, dest, padLen := p.PackInPlace(b, target, start, |payload|, now, MaxPaddingLength);
  }

  lemma ShadowServerSpans(k: PacketClient.Keys, st: PacketClient.State, pkt: Bytes, t: PacketClient.Times)
    ensures var r := PacketClient.Unpack(k, st, pkt, t).1;
            r.Ok? ==> && ServerHeader(Shadow(0), r.value.0.source) <= r.value.0.start
                      && r.value.0.start + |r.value.0.payload| + Overhead == |pkt|
  {
    hide DecodeAddrPort, TimestampOk, Get64, Get16, PacketClient.OpenPacket, PacketClient.StatusOf, PacketClient.WindowOf,
         PacketClient.Update, SlidingWindow.Window.Accepts, SlidingWindow.Window.Insert, LengthOfAddrPort;
    var o := PacketClient.OpenPacket(k, st, pkt, t.check);
    if o.Ok? {
      var parsed := ParseServerMessage(o.value.plain, k.csid, PacketClient.Unix(t.stamp));
      if parsed.Ok? {
        assert parsed.value.1 >= ServerMessageFixedLength + LengthOfAddrPort(parsed.value.0);
      }
    }
  }

  method UnpackDownlink(u: ClientUnpacker, b: array<Byte>, front: nat, n: nat, from: AddrPort, t: PacketClient.Times)
    returns (r: Option<(AddrPort, nat, nat)>)
    requires u.Valid() && front + n <= b.Length && b !in u.Repr()
    modifies u.Repr(), b
    ensures u.Valid() && fresh(u.Repr() - old(u.Repr()))
    ensures var want := old(u.Reads(b[front..front + n], from, t));
            && (r.None? <==> want.None?)
            && (r.Some? ==>
                  var (source, start, length) := r.value;
                  && start + length <= b.Length && want == Some((source, b[start..start + length]))
                  && Unpacked(front, n, ServerHeader(u.Kind(), source), Rear(u.Kind()), start, length))
  {
    hide DecodeAddrPort, ReadServer, MappedEqual, PacketClient.Unpack, Crypto.Primitives.Lawful;
    match u
    case DirectReply =>
      r := Some((from, front, n));
    case PlainReply(f, server) =>
      var source, start, length := ClientUnpackInPlace(f, server, b, from, front, n);
      r := if source.Err? then None else Some((source.value, start, length));
    case ShadowReply(p) =>
      ShadowServerSpans(p.keys, p.Spec(), b[front..front + n], t);
      var source, start, length := p.UnpackInPlace(b, front, n, t);
      r := if source.Err? then None else Some((source.value, start, length));
  }

  lemma ShadowAnswerCarries(p: ShadowPacketServerPacker, spid: U64, s: Bytes, ts: U64, padLen: nat, source: AddrPort,
                            start: nat, length: nat)
    requires padLen <= 0xffff && padLen + LengthOfAddrPort(source) <= start && start + length <= |s|
    ensures ShadowAnswer(p).Carries(spid,
              ServerPacket(p.suite, p.psk, p.ssid, spid, ServerMessageIn(s, ts, p.csid, padLen, source, start, length)),
              source, s[start..start + length])
  {
    hide ServerPacket, ServerMessage, LengthOfAddrPort;
    var pad := s[start - LengthOfAddrPort(source) - padLen..start - LengthOfAddrPort(source)];
    assert |pad| == padLen;
  }

  lemma PlainAnswerCarries(f: Framing, source: AddrPort, payload: Bytes)
    ensures PlainAnswer(f).Carries(0, Header(f, EncodeAddrPort(source)) + payload, source, payload)
  {}

  lemma DirectAnswerCarries(s: ServerPacker, source: AddrPort, payload: Bytes)
    requires s.DirectAnswer?
    ensures s.Carries(0, payload, source, payload)
  {}

  method PackDownlink(s: ServerPacker, b: array<Byte>, source: AddrPort, start: nat, length: nat, maxPacketLen: int,
                      now: int, draw: nat)
    returns (r: Option<Packed>)
    requires ServerHeader(s.Kind(), source) <= start && start + length + Rear(s.Kind()) <= b.Length
    modifies s.Repr(), b
    ensures r.Some? <==> s.Sends(source, length, maxPacketLen)
    ensures r.Some? ==>
              && r.value.start + r.value.length <= b.Length && r.value.length <= maxPacketLen
              && s.Carries(old(s.PacketId()), b[r.value.start..r.value.start + r.value.length], source,
                           old(b[start..start + length]))
  {
    hide ServerPacket, ServerMessageIn, EncodeAddrPort, Patch, ServerPacker.Carries, LengthOfAddrPort,
         Crypto.Primitives.Lawful, MappedEqual;
    ghost var was := b[..];
    match s {
      case DirectAnswer(target, targetOnly) =>
        DirectAnswerCarries(s, source, b[start..start + length]);
        r := Some(Packed(start, length));
        if length > maxPacketLen {
          r := None;
        }
        if targetOnly && !MappedEqual(source, IPPortOf(target)) {
          r := None;
        }
      case PlainAnswer(f) =>
        var p := PackHeader(b, f, EncodeAddrPort(source), start, length, maxPacketLen);
        r := if p.Err? then None else Some(p.value);
        PlainAnswerCarries(f, source, was[start..start + length]);
      case ShadowAnswer(p) =>
        var packed, padLen := p.PackInPlace(b, source, start, length, maxPacketLen, now, draw);
        if packed.Err? {
          return None;
        }
        r := Some(packed.value);
        ghost var spid := old(p.spid);
        ShadowAnswerCarries(p, spid, was, ToU64(now), padLen, source, start, length);
        PatchedPacket(was, packed.value.start,
          ServerPacket(p.suite, p.psk, p.ssid, spid, ServerMessageIn(was, ToU64(now), p.csid, padLen, source, start, length)));
    }
  }

  /** One packet from target to client. It is sent exactly when the client's protocol accepts it and the
      packet fits the client's link. */
  method RelayDownlink(u: ClientUnpacker, s: ServerPacker, b: array<Byte>, recv: nat, n: nat, from: AddrPort,
                       maxPacketLen: int, t: PacketClient.Times, now: int, draw: nat)
    returns (r: Option<Packed>)
    requires u.Valid() && b !in u.Repr() && u.Repr() !! s.Repr() && n <= recv
    requires b.Length == DownlinkFront(s.Kind(), u.Kind()) + recv + DownlinkRear(s.Kind(), u.Kind())
    modifies u.Repr(), s.Repr(), b
    ensures u.Valid()
    ensures var front := DownlinkFront(s.Kind(), u.Kind());
            var want := old(u.Reads(b[front..front + n], from, t));
            && (r.Some? <==> want.Some? && s.Sends(want.value.0, |want.value.1|, maxPacketLen))
            && (r.Some? ==>
                  && r.value.start + r.value.length <= b.Length && r.value.length <= maxPacketLen
                  && s.Carries(old(s.PacketId()), b[r.value.start..r.value.start + r.value.length],
                               want.value.0, want.value.1))
  {
    hide ServerHeader, ClientUnpacker.Reads, ServerPacker.Carries, ServerPacker.Sends, Rear, ServerMessageFront, Unpacked,
         DownlinkFront, DownlinkRear, ClientUnpacker.Kind, ServerPacker.Kind, ServerPacker.PacketId, ServerPacker.Wants,
         ClientUnpacker.Valid, PacketClient.ShadowPacketClientUnpacker.Valid, Crypto.Primitives.Lawful;
    var front := DownlinkFront(s.Kind(), u.Kind());
    var got := UnpackDownlink(u, b, front, n, from, t);
    if got.None? {
      return None;
    }
    var (source, start, length) := got.value;
    DownlinkRoom(s.Kind(), u.Kind(), source, recv, n, start, length);
    r := PackDownlink(s, b, source, start, length, maxPacketLen, now, draw);
  }
}
