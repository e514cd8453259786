/** Packets without encryption: direct, Shadowsocks none, and SOCKS5 (section 7 of RFC 1928). The last two
    differ only in the three bytes RSV, RSV, FRAG before the address. */
module DirectPackets {
  import opened Words
  import opened SocksAddr
  import opened PacketPacker

  datatype Framing = ShadowsocksNone | Socks5 {
    function Lead(): Bytes {
      if Socks5? then [0, 0, 0] else []
    }
  }

  datatype UnpackError = PacketTooSmall | Fragmented | NotFromServer | BadAddr(e: AddrError)

  const IPv4HeaderLength := 20
  const IPv6HeaderLength := 40
  const UDPHeaderLength := 8
  const JumboPayloadOptionLength := 8

  function MaxPacketSizeForAddr(mtu: int, ip: IP): int {
    if ip.V4? || ip.Is4In6() then mtu - IPv4HeaderLength - UDPHeaderLength
    else if mtu > 65575 then mtu - IPv6HeaderLength - JumboPayloadOptionLength - UDPHeaderLength
    else mtu - IPv6HeaderLength - UDPHeaderLength
  }

  // ----- specification -----

  function CheckLead(f: Framing, pkt: Bytes): Option<UnpackError> {
    if f.ShadowsocksNone? then None
    else if |pkt| < 3 then Some(PacketTooSmall)
    else if pkt[2] != 0 then Some(Fragmented)
    else None
  }

  /** Target address and payload offset of a client packet. */
  function ReadClient(f: Framing, pkt: Bytes): (r: Result<(Addr, nat), UnpackError>)
    ensures r.Ok? ==> |f.Lead()| + LengthOf(r.value.0) <= r.value.1 <= |pkt|
  {
    if CheckLead(f, pkt).Some? then Err(CheckLead(f, pkt).value)
    else
      match Decode(pkt[|f.Lead()|..])
      case Err(e) => Err(BadAddr(e))
      case Ok((a, n)) => Ok((a, |f.Lead()| + n))
  }

  function ReadServer(f: Framing, pkt: Bytes): (r: Result<(AddrPort, nat), UnpackError>)
    ensures r.Ok? ==> |f.Lead()| + LengthOfAddrPort(r.value.0) <= r.value.1 <= |pkt|
  {
    if CheckLead(f, pkt).Some? then Err(CheckLead(f, pkt).value)
    else
      match DecodeAddrPort(pkt[|f.Lead()|..])
      case Err(e) => Err(BadAddr(e))
      case Ok((a, n)) => Ok((a, |f.Lead()| + n))
  }

  /** What either packer writes in front of the payload. */
  function Header(f: Framing, addr: Bytes): Bytes {
    f.Lead() + addr
  }

  lemma LeadPasses(f: Framing, rest: Bytes)
    ensures CheckLead(f, f.Lead() + rest).None? && (f.Lead() + rest)[|f.Lead()|..] == rest
  {}

  /** The server reads what the client packed: the address (IPv4-mapped becomes IPv4) and the payload. */
  lemma ReadClientOfPacked(f: Framing, target: Addr, payload: Bytes)
    ensures var pkt := Header(f, Encode(target)) + payload;
            && ReadClient(f, pkt) == Ok((target.Unmap(), |f.Lead()| + LengthOf(target)))
            && pkt[|f.Lead()| + LengthOf(target)..] == payload
  {
    hide Decode, Encode, CheckLead;
    var pkt := Header(f, Encode(target)) + payload;
    assert pkt == f.Lead() + (Encode(target) + payload);
    LeadPasses(f, Encode(target) + payload);
    DecodeEncode(target, payload);
  }

  lemma ReadServerOfPacked(f: Framing, source: AddrPort, payload: Bytes)
    ensures var pkt := Header(f, EncodeAddrPort(source)) + payload;
            && ReadServer(f, pkt) == Ok((source.Unmap(), |f.Lead()| + LengthOfAddrPort(source)))
            && pkt[|f.Lead()| + LengthOfAddrPort(source)..] == payload
  {
    hide DecodeAddrPort, EncodeAddrPort, CheckLead;
    var pkt := Header(f, EncodeAddrPort(source)) + payload;
    assert pkt == f.Lead() + (EncodeAddrPort(source) + payload);
    LeadPasses(f, EncodeAddrPort(source) + payload);
    DecodeEncodeAddrPort(source, payload);
  }

  /** What a SOCKS5 packet must be (section 7 of RFC 1928): at least its three first bytes, not a fragment, an address. */
  lemma Socks5Exactly(pkt: Bytes)
    ensures |pkt| < 3 ==> ReadClient(Socks5, pkt) == Err(PacketTooSmall) && ReadServer(Socks5, pkt) == Err(PacketTooSmall)
    ensures |pkt| >= 3 && pkt[2] != 0 ==> ReadClient(Socks5, pkt) == Err(Fragmented) && ReadServer(Socks5, pkt) == Err(Fragmented)
    ensures |pkt| >= 3 && pkt[2] == 0 ==>
              && (ReadClient(Socks5, pkt).Ok? <==> Decode(pkt[3..]).Ok?)
              && (ReadServer(Socks5, pkt).Ok? <==> DecodeAddrPort(pkt[3..]).Ok?)
    ensures forall a: Bytes :: Header(Socks5, a) == [0, 0, 0] + a && Header(ShadowsocksNone, a) == a
  {
    hide Decode, DecodeAddrPort;
    assert forall a: Bytes :: [] + a == a;
  }

  /** What fits in one datagram: IP and UDP headers take 28 bytes, 48 with IPv6, 56 in a jumbogram. */
  lemma RoomInDatagram(mtu: int, ip: IP)
    ensures ip.V4? ==> MaxPacketSizeForAddr(mtu, ip) == mtu - 28
    ensures ip.V6? && ip.Unmap().V4? ==> MaxPacketSizeForAddr(mtu, ip) == mtu - 28
    ensures ip.Unmap().V6? ==> MaxPacketSizeForAddr(mtu, ip) == mtu - if mtu > 65575 then 56 else 48
  {}

  // ----- packing -----

  lemma PatchBefore(s: Bytes, start: nat, len: nat, d: Bytes, e: Bytes)
    requires |d| + |e| <= start && start + len <= |s|
    ensures var at := start - |e| - |d|;
            var s' := Patch(Patch(s, at, d), at + |d|, e);
            && s' == Patch(s, at, d + e)
            && s'[at..start + len] == d + e + s[start..start + len]
  {}

  /** The header goes right before the payload, which stays where it is. The header is written even when the
      packet turns out too big; the caller must have left room for it. */
  method PackHeader(b: array<Byte>, f: Framing, addr: Bytes, payloadStart: nat, payloadLen: nat, maxPacketLen: int)
    returns (r: Result<Packed, PackError>)
    requires |f.Lead()| + |addr| <= payloadStart && payloadStart + payloadLen <= b.Length
    modifies b
    ensures r.Err? <==> |f.Lead()| + |addr| + payloadLen > maxPacketLen
    ensures b[..] == Patch(old(b[..]), payloadStart - |addr| - |f.Lead()|, Header(f, addr))
    ensures r.Ok? ==>
              && r.value == Packed(payloadStart - |addr| - |f.Lead()|, |f.Lead()| + |addr| + payloadLen)
              && r.value.length <= maxPacketLen
              && b[r.value.start..r.value.start + r.value.length]
                 == Header(f, addr) + old(b[payloadStart..payloadStart + payloadLen])
  {
    hide Patch;
    var packetStart := payloadStart - |addr| - |f.Lead()|;
    var packetLen := payloadLen + |addr| + |f.Lead()|;
    PatchBefore(b[..], payloadStart, payloadLen, f.Lead(), addr);
    ghost var was := b[..];
    Put(b, packetStart, f.Lead());
    Put(b, packetStart + |f.Lead()|, addr);
    assert b[packetStart..packetStart + packetLen] == b[..][packetStart..payloadStart + payloadLen];
    assert was[payloadStart..payloadStart + payloadLen] == old(b[payloadStart..payloadStart + payloadLen]);
    r := if packetLen > maxPacketLen then Err(PayloadTooBig) else Ok(Packed(packetStart, packetLen));
  }

  /** ShadowsocksNonePacketServerUnpacker and Socks5PacketServerUnpacker. */
  class PacketServerUnpacker {
    const framing: Framing
    var cachedDomain: Bytes

    constructor (framing: Framing)
      ensures this.framing == framing && cachedDomain == []
    {
      this.framing, cachedDomain := framing, [];
    }

    method UnpackInPlace(b: array<Byte>, packetStart: nat, packetLen: nat)
      returns (target: Result<Addr, UnpackError>, start: nat, length: nat)
      requires packetStart + packetLen <= b.Length
      modifies this
      ensures var pkt := b[packetStart..packetStart + packetLen];
              var r := ReadClient(framing, pkt);
              && (r.Err? ==> target == Err(r.error))
              && (r.Ok? ==>
                    && target == Ok(r.value.0) && start == packetStart + r.value.1
                    && start + length == packetStart + packetLen
                    && b[start..start + length] == pkt[r.value.1..])
      ensures cachedDomain == if target.Ok? && target.value.FromDomain? then target.value.domain else old(cachedDomain)
    {
      hide Decode;
      start, length := 0, 0;
      var pkt := b[packetStart..packetStart + packetLen];
      if framing.Socks5? {
        if packetLen < 3 {
          return Err(PacketTooSmall), 0, 0;
        }
        if pkt[2] != 0 {
          return Err(Fragmented), 0, 0;
        }
      }
      var (a, cache) := DecodeCached(pkt[|framing.Lead()|..], cachedDomain);
      cachedDomain := cache;
      if a.Err? {
        return Err(BadAddr(a.error)), 0, 0;
      }
      target := Ok(a.value.0);
      start := packetStart + |framing.Lead()| + a.value.1;
      length := packetLen - |framing.Lead()| - a.value.1;
      SubSlice(b[..], packetStart, packetLen, |framing.Lead()| + a.value.1, packetLen);
    }
  }

  function MappedEqual(l: AddrPort, r: AddrPort): bool {
    l.Unmap() == r.Unmap()
  }

  const UnspecifiedIPv6: IP := V6([0, 0, 0, 0, 0, 0, 0, 0, 0, 0, 0, 0, 0, 0, 0, 0])

  /** A domain has the zero address for its IP. */
  function IPPortOf(a: Addr): AddrPort {
    if a.FromIP? then a.ap else AddrPort(UnspecifiedIPv6, a.domainPort)
  }

  /** Where a reply of the target comes from, a domain having been resolved to `ip`. */
  function ReplyFrom(target: Addr, ip: IP): AddrPort {
    if target.FromIP? then target.ap else AddrPort(ip, target.domainPort)
  }

  /** ShadowsocksNonePacketClientUnpacker and Socks5PacketClientUnpacker. */
  method ClientUnpackInPlace(f: Framing, server: AddrPort, b: array<Byte>, from: AddrPort, packetStart: nat, packetLen: nat)
    returns (source: Result<AddrPort, UnpackError>, start: nat, length: nat)
    requires packetStart + packetLen <= b.Length
    ensures source == Err(NotFromServer) <==> !MappedEqual(from, server)
    ensures MappedEqual(from, server) ==>
              var pkt := b[packetStart..packetStart + packetLen];
              var r := ReadServer(f, pkt);
              && (r.Err? ==> source == Err(r.error))
              && (r.Ok? ==>
                    && source == Ok(r.value.0) && start == packetStart + r.value.1
                    && start + length == packetStart + packetLen
                    && b[start..start + length] == pkt[r.value.1..])
  {
    hide DecodeAddrPort;
    if !MappedEqual(from, server) {
      return Err(NotFromServer), 0, 0;
    }
    var pkt := b[packetStart..packetStart + packetLen];
    if f.Socks5? {
      if packetLen < 3 {
        return Err(PacketTooSmall), 0, 0;
      }
      if pkt[2] != 0 {
        return Err(Fragmented), 0, 0;
      }
    }
    var a := DecodeAddrPort(pkt[|f.Lead()|..]);
    if a.Err? {
      return Err(BadAddr(a.error)), 0, 0;
    }
    source := Ok(a.value.0);
    start := packetStart + |f.Lead()| + a.value.1;
    length := packetLen - |f.Lead()| - a.value.1;
    SubSlice(b[..], packetStart, packetLen, |f.Lead()| + a.value.1, packetLen);
  }

  // ----- direct -----

  datatype DirectError = TooBig | ResolveFailed

  /** DirectPacketClientPackUnpacker: a domain target is resolved, and the last resolution is kept. */
  class DirectPacketClient {
    const mtu: int
    var cachedDomain: Bytes
    var cachedDomainIP: IP

    constructor (mtu: int, zero: IP)
      ensures this.mtu == mtu && cachedDomain == [] && cachedDomainIP == zero
    {
      this.mtu, cachedDomain, cachedDomainIP := mtu, [], zero;
    }

    /** `resolved` is what a lookup of the target's domain would answer now. The payload is sent as it is; a
        repeated domain goes to the address it resolved to last, without a lookup. */
    method PackInPlace(target: Addr, payloadStart: nat, payloadLen: nat, resolved: Option<IP>)
      returns (dest: AddrPort, r: Result<Packed, DirectError>)
      modifies this
      ensures target.FromIP? ==> dest == target.ap && unchanged(this)
      ensures target.FromDomain? && target.domain == old(cachedDomain) ==>
                dest == AddrPort(old(cachedDomainIP), target.domainPort) && unchanged(this)
      ensures target.FromDomain? && target.domain != old(cachedDomain) && resolved.Some? ==>
                && dest == AddrPort(resolved.value, target.domainPort)
                && cachedDomain == target.domain && cachedDomainIP == resolved.value
      ensures r == Err(ResolveFailed) <==> target.FromDomain? && target.domain != old(cachedDomain) && resolved.None?
      ensures r == Err(ResolveFailed) ==> unchanged(this)
      ensures r != Err(ResolveFailed) ==>
                r == if payloadLen > MaxPacketSizeForAddr(mtu, dest.ip) then Err(TooBig)
                     else Ok(Packed(payloadStart, payloadLen))
    {
      if target.FromIP? {
        dest := target.ap;
      } else {
        if cachedDomain != target.domain {
          if resolved.None? {
            dest := AddrPort(cachedDomainIP, 0);
            return dest, Err(ResolveFailed);
          }
          cachedDomain, cachedDomainIP := target.domain, resolved.value;
        }
        dest := AddrPort(cachedDomainIP, target.domainPort);
      }
      r := if payloadLen > MaxPacketSizeForAddr(mtu, dest.ip) then Err(TooBig) else Ok(Packed(payloadStart, payloadLen));
    }
  }
}
