/** The Shadowsocks 2022 UDP packers: in-place packing with random padding under a size limit. */
module PacketPacker {
  import opened Words
  import opened SocksAddr
  import opened PacketHeader
  import opened Crypto

  // ----- packets on the wire -----

  /** A client's user PSK and the identity PSKs of the relays before the server. */
  datatype ClientKeys = ClientKeys(psk: Bytes, ipsks: seq<Bytes>) {
    function BlockKey(): Bytes {
      if |ipsks| > 0 then ipsks[0] else psk
    }

    /** The PSK that the i-th identity header points to. */
    function NextPSK(i: nat): Bytes
      requires i < |ipsks|
    {
      if i + 1 < |ipsks| then ipsks[i + 1] else psk
    }
  }

  function IdentityHeader(s: Suite, keys: ClientKeys, sep: Bytes, i: nat): (r: Bytes)
    requires |sep| == SeparateHeaderLength && i < |keys.ipsks|
    ensures |r| == IdentityHeaderLength
  {
    Encrypt(s, keys.ipsks[i], Xor(s, PSKHash(s, keys.NextPSK(i)), sep))
  }

  /** The first n identity headers. */
  function IdentityHeaders(s: Suite, keys: ClientKeys, sep: Bytes, n: nat): (r: Bytes)
    requires |sep| == SeparateHeaderLength && n <= |keys.ipsks|
    ensures |r| == n * IdentityHeaderLength
  {
    if n == 0 then [] else IdentityHeaders(s, keys, sep, n - 1) + IdentityHeader(s, keys, sep, n - 1)
  }

  lemma IdentityNone(s: Suite, keys: ClientKeys, sep: Bytes, b: Bytes, start: nat)
    requires |sep| == SeparateHeaderLength && start <= |b|
    ensures Patch(b, start, IdentityHeaders(s, keys, sep, 0)) == b
  {}

  lemma IdentityStep(s: Suite, keys: ClientKeys, sep: Bytes, i: nat, b: Bytes, start: nat)
    requires |sep| == SeparateHeaderLength && i < |keys.ipsks|
    requires start + |keys.ipsks| * IdentityHeaderLength <= |b|
    ensures start + (i + 1) * IdentityHeaderLength <= |b|
    ensures Patch(Patch(b, start, IdentityHeaders(s, keys, sep, i)), start + i * IdentityHeaderLength,
                  IdentityHeader(s, keys, sep, i))
         == Patch(b, start, IdentityHeaders(s, keys, sep, i + 1))
  {
    hide Patch, IdentityHeader, Crypto.Primitives.Lawful;
    PatchAppend(b, start, IdentityHeaders(s, keys, sep, i), IdentityHeader(s, keys, sep, i));
  }

  /** Encrypted separate header, identity headers, sealed body. */
  function ClientPacket(s: Suite, keys: ClientKeys, csid: U64, cpid: U64, message: Bytes): (r: Bytes)
    ensures |r| == SeparateHeaderLength + |keys.ipsks| * IdentityHeaderLength + |message| + Overhead
  {
    var sep := SeparateHeader(csid, cpid);
    Encrypt(s, keys.BlockKey(), sep)
    + IdentityHeaders(s, keys, sep, |keys.ipsks|)
    + Seal(s, SessionKey(s, keys.psk, Put64(csid)), sep[4..16], message)
  }

  function ServerPacket(s: Suite, psk: Bytes, ssid: U64, spid: U64, message: Bytes): (r: Bytes)
    ensures |r| == SeparateHeaderLength + |message| + Overhead
  {
    var sep := SeparateHeader(ssid, spid);
    Encrypt(s, psk, sep) + Seal(s, SessionKey(s, psk, Put64(ssid)), sep[4..16], message)
  }

  // ----- padding -----

  /** The most padding that keeps the packet within the size limit, the front room and 16 bits;
      negative when the packet does not fit even without padding. */
  function MaxPadding(maxPacketSize: int, headerLen: nat, payloadStart: nat, payloadLen: nat): int {
    Min(Min(maxPacketSize - headerLen - payloadLen - Overhead, payloadStart - headerLen), 0xffff)
  }

  /** `draw` stands for the random source: `1 + rand.Intn(maxPadding)` over all draws. */
  function PaddingLength(maxPadding: nat, shouldPad: bool, draw: nat): (r: nat)
    ensures r <= maxPadding
  {
    if maxPadding > 0 && shouldPad then 1 + draw % maxPadding else 0
  }

  /** Padding is between one byte and the maximum, and every such length is drawn; it is none where the policy or the room
      says so. */
  lemma PaddingDrawn(maxPadding: nat, n: nat)
    ensures (exists draw: nat :: PaddingLength(maxPadding, true, draw) == n) <==> 1 <= n <= maxPadding || (n == 0 && maxPadding == 0)
    ensures forall draw: nat :: PaddingLength(maxPadding, false, draw) == 0
  {
    if 1 <= n <= maxPadding {
      assert (n - 1) % maxPadding == n - 1;
      assert PaddingLength(maxPadding, true, n - 1) == n;
    } else if n == 0 && maxPadding == 0 {
      assert PaddingLength(maxPadding, true, 0) == 0;
    }
  }

  /** For some draw a packet is padded with more than the 900 bytes that headrooms reserve, exactly when its address is to
      be padded and both the front room and the size limit leave more than that. */
  lemma PaddingExceedsExactly(maxPacketSize: int, headerLen: nat, payloadStart: nat, payloadLen: nat, pad: bool)
    requires MaxPadding(maxPacketSize, headerLen, payloadStart, payloadLen) >= 0
    ensures (exists draw: nat :: PaddingLength(MaxPadding(maxPacketSize, headerLen, payloadStart, payloadLen), pad, draw) > MaxPaddingLength)
            <==>
            && pad && payloadStart - headerLen > MaxPaddingLength
            && maxPacketSize - headerLen - payloadLen - Overhead > MaxPaddingLength
  {
    var most: nat := MaxPadding(maxPacketSize, headerLen, payloadStart, payloadLen);
    hide MaxPadding, PaddingLength;
    NoPadding(most);
    if pad && most > MaxPaddingLength {
      SmallDraw(most, most - 1);
      assert PaddingLength(most, pad, most - 1) > MaxPaddingLength;
    }
    MaxPaddingBounds(maxPacketSize, headerLen, payloadStart, payloadLen);
  }

  lemma SmallDraw(most: nat, draw: nat)
    requires draw < most
    ensures PaddingLength(most, true, draw) == draw + 1
  {
    assert draw % most == draw;
  }

  lemma NoPadding(most: nat)
    ensures forall draw :: PaddingLength(most, false, draw) == 0
  {}

  lemma MaxPaddingBounds(maxPacketSize: int, headerLen: nat, payloadStart: nat, payloadLen: nat)
    ensures MaxPadding(maxPacketSize, headerLen, payloadStart, payloadLen) > MaxPaddingLength <==>
            payloadStart - headerLen > MaxPaddingLength && maxPacketSize - headerLen - payloadLen - Overhead > MaxPaddingLength
  {}

  // ----- in-place steps shared by both packers -----

  /** What a message becomes when header and address are written around a padding gap and the payload. */
  ghost function MessageAround(s: Bytes, at: nat, head: Bytes, padLen: nat, addr: Bytes, payloadLen: nat): (r: Bytes)
    requires at + |head| + padLen + |addr| + payloadLen <= |s|
    ensures |r| == |head| + padLen + |addr| + payloadLen
  {
    var padStart := at + |head|;
    var payloadStart := padStart + padLen + |addr|;
    head + s[padStart..padStart + padLen] + addr + s[payloadStart..payloadStart + payloadLen]
  }

  lemma PatchAround(s: Bytes, at: nat, head: Bytes, padLen: nat, addr: Bytes, payloadLen: nat)
    requires at + |head| + padLen + |addr| + payloadLen <= |s|
    ensures Patch(Patch(s, at, head), at + |head| + padLen, addr)
         == Patch(s, at, MessageAround(s, at, head, padLen, addr, payloadLen))
  {}

  method WriteAround(b: array<Byte>, at: nat, head: Bytes, padLen: nat, addr: Bytes, payloadLen: nat)
    requires at + |head| + padLen + |addr| + payloadLen <= b.Length
    modifies b
    ensures b[..] == Patch(old(b[..]), at, MessageAround(old(b[..]), at, head, padLen, addr, payloadLen))
  {
    hide Patch, MessageAround;
    PatchAround(b[..], at, head, padLen, addr, payloadLen);
    Put(b, at, head);
    Put(b, at + |head| + padLen, addr);
  }

  lemma PatchEnds(s: Bytes, at: nat, d: Bytes, gap: nat, f: Bytes)
    requires at + |d| + gap + |f| <= |s|
    ensures Patch(Patch(s, at + |d| + gap, f), at, d)
         == Patch(s, at, d + s[at + |d|..at + |d| + gap] + f)
  {}

  /** Seals the message over itself and the rear room, then encrypts the separate header. */
  method SealPacket(suite: Suite, b: array<Byte>, at: nat, idsLen: nat, messageLen: nat, blockKey: Bytes, aeadKey: Bytes)
    requires at + SeparateHeaderLength + idsLen + messageLen + Overhead <= b.Length
    modifies b
    ensures var idsStart := at + SeparateHeaderLength;
            var start := idsStart + idsLen;
            var sep := old(b[..])[at..idsStart];
            b[..] == Patch(old(b[..]), at,
                           Encrypt(suite, blockKey, sep) + old(b[..])[idsStart..start] +
                           Seal(suite, aeadKey, sep[4..16], old(b[..])[start..start + messageLen]))
  {
    hide Patch, Seal, Encrypt, Crypto.Primitives.Lawful;
    var start := at + SeparateHeaderLength + idsLen;
    var sep := b[at..at + SeparateHeaderLength];
    var plaintext := b[start..start + messageLen];
    var sealed := Seal(suite, aeadKey, sep[4..16], plaintext);
    PatchEnds(b[..], at, Encrypt(suite, blockKey, sep), idsLen, sealed);
    Put(b, start, sealed);
    Put(b, at, Encrypt(suite, blockKey, sep));
  }

  lemma PatchThree(s: Bytes, at: nat, d: Bytes, e: Bytes, f: Bytes)
    requires at + |d| + |e| + |f| <= |s|
    ensures var s1 := Patch(s, at + |d| + |e|, f);
            var s2 := Patch(s1, at, d);
            var s3 := Patch(s2, at + |d|, e);
            && s3 == Patch(s, at, d + e + f)
            && s3[at..at + |d|] == d && s3[at + |d|..at + |d| + |e|] == e
            && s3[at + |d| + |e|..at + |d| + |e| + |f|] == f
  {}

  lemma JoinEmpty(d: Bytes, e: Bytes)
    ensures d + [] + e == d + e
  {}

  lemma PatchTwice(s: Bytes, at: nat, d: Bytes, e: Bytes)
    requires |d| <= |e| && at + |e| <= |s|
    ensures Patch(Patch(s, at, d), at, e) == Patch(s, at, e)
  {}

  /** The message around the payload at `payloadStart`, whose padding is whatever the buffer held. */
  ghost function MessageIn(s: Bytes, ts: U64, padLen: nat, target: Addr, payloadStart: nat, payloadLen: nat): (r: Bytes)
    requires padLen <= 0xffff && padLen + LengthOf(target) <= payloadStart && payloadStart + payloadLen <= |s|
    ensures |r| == ClientMessageFixedLength + padLen + LengthOf(target) + payloadLen
  {
    var addrStart := payloadStart - LengthOf(target);
    ClientMessage(ts, s[addrStart - padLen..addrStart], target, s[payloadStart..payloadStart + payloadLen])
  }

  lemma MessageAroundIsMessage(s: Bytes, ts: U64, padLen: nat, target: Addr, payloadStart: nat, payloadLen: nat)
    requires padLen <= 0xffff && ClientMessageFixedLength + padLen + LengthOf(target) <= payloadStart
    requires payloadStart + payloadLen <= |s|
    ensures MessageAround(s, payloadStart - LengthOf(target) - padLen - ClientMessageFixedLength,
                          ClientHead(ts, padLen), padLen, Encode(target), payloadLen)
         == MessageIn(s, ts, padLen, target, payloadStart, payloadLen)
  {
    hide Encode, LengthOf, ClientHead;
  }

  // ----- what each server on the way reads -----

  lemma {:induction false} IdentityAt(s: Suite, keys: ClientKeys, sep: Bytes, n: nat, i: nat)
    requires |sep| == SeparateHeaderLength && i < n <= |keys.ipsks|
    ensures IdentityHeaders(s, keys, sep, n)[16 * i..16 * i + 16] == IdentityHeader(s, keys, sep, i)
  {
    hide IdentityHeader, Crypto.Primitives.Lawful;
    if i < n - 1 {
      IdentityAt(s, keys, sep, n - 1, i);
    }
  }

  /** A client packet, seen from the servers it passes: the first PSK of the chain decrypts the separate header, each
      identity PSK decrypts its own identity header to the hash of the next PSK of the chain, and the last one opens the
      body with the last twelve bytes of the separate header as nonce. */
  lemma ClientPacketOnTheWay(s: Suite, keys: ClientKeys, csid: U64, cpid: U64, message: Bytes)
    ensures var pkt := ClientPacket(s, keys, csid, cpid, message);
            var chain := keys.ipsks + [keys.psk];
            var sep := Put64(csid) + Put64(cpid);
            var bodyStart := 16 + 16 * |keys.ipsks|;
            && |pkt| == bodyStart + |message| + 16
            && Decrypt(s, chain[0], pkt[..16]) == sep
            && (forall i :: 0 <= i < |keys.ipsks| ==>
                  Xor(s, Decrypt(s, chain[i], pkt[16 + 16 * i..32 + 16 * i]), sep) == PSKHash(s, chain[i + 1]))
            && Open(s, SessionKey(s, keys.psk, Put64(csid)), Put64(csid)[4..] + Put64(cpid), pkt[bodyStart..]) == Some(message)
  {
    hide Put64, IdentityHeaders, Seal, Crypto.Primitives.Lawful;
    var sep := SeparateHeader(csid, cpid);
    var a, ids := Encrypt(s, keys.BlockKey(), sep), IdentityHeaders(s, keys, sep, |keys.ipsks|);
    var body := Seal(s, SessionKey(s, keys.psk, Put64(csid)), sep[4..16], message);
    var pkt := a + ids + body;
    assert pkt[..16] == a && pkt[16 + |ids|..] == body && sep[4..16] == Put64(csid)[4..] + Put64(cpid);
    forall i | 0 <= i < |keys.ipsks|
      ensures Xor(s, Decrypt(s, keys.ipsks[i], pkt[16 + 16 * i..32 + 16 * i]), sep) == PSKHash(s, (keys.ipsks + [keys.psk])[i + 1])
    {
      IdentityAt(s, keys, sep, |keys.ipsks|, i);
      assert pkt[16 + 16 * i..32 + 16 * i] == ids[16 * i..16 * i + 16];
      XorTwice(s, PSKHash(s, keys.NextPSK(i)), sep);
    }
  }

  /** The same for a server packet, which has one PSK. */
  lemma ServerPacketOnTheWay(s: Suite, psk: Bytes, ssid: U64, spid: U64, message: Bytes)
    ensures var pkt := ServerPacket(s, psk, ssid, spid, message);
            && |pkt| == 16 + |message| + 16 && Decrypt(s, psk, pkt[..16]) == Put64(ssid) + Put64(spid)
            && Open(s, SessionKey(s, psk, Put64(ssid)), Put64(ssid)[4..] + Put64(spid), pkt[16..]) == Some(message)
  {
    hide Put64, Seal, Crypto.Primitives.Lawful;
    var sep := SeparateHeader(ssid, spid);
    var a, body := Encrypt(s, psk, sep), Seal(s, SessionKey(s, psk, Put64(ssid)), sep[4..16], message);
    assert (a + body)[..16] == a && (a + body)[16..] == body && sep[4..16] == Put64(ssid)[4..] + Put64(spid);
  }

  datatype Packed = Packed(start: nat, length: nat)

  datatype PackError = PayloadTooBig

  class ShadowPacketClientPacker {
    const suite: Suite
    const keys: ClientKeys
    const csid: U64
    const maxPacketSize: int
    const shouldPad: Addr -> bool
    const serverAddrPort: AddrPort
    var cpid: U64

    ghost function HeaderNoPaddingLength(target: Addr): nat {
      IdentityEnd() + ClientMessageFixedLength + LengthOf(target)
    }

    function IdentityEnd(): nat {
      SeparateHeaderLength + |keys.ipsks| * IdentityHeaderLength
    }

    constructor (suite: Suite, keys: ClientKeys, csid: U64, maxPacketSize: int, shouldPad: Addr -> bool, server: AddrPort)
      ensures this.suite == suite && this.keys == keys && this.csid == csid && cpid == 0
      ensures this.maxPacketSize == maxPacketSize && this.shouldPad == shouldPad && serverAddrPort == server
    {
      this.suite, this.keys, this.csid, this.maxPacketSize, this.shouldPad, this.serverAddrPort, this.cpid :=
        suite, keys, csid, maxPacketSize, shouldPad, server, 0;
    }

    /** The packet is written around the payload; bytes outside it are untouched. Packing fails
        exactly when the packet without padding exceeds the size limit or the front room. */
    method PackInPlace(b: array<Byte>, target: Addr, payloadStart: nat, payloadLen: nat, now: int, draw: nat)
      returns (r: Result<Packed, PackError>, dest: AddrPort, ghost padLen: nat)
      requires payloadStart + payloadLen + Overhead <= b.Length
      modifies this, b
      ensures dest == serverAddrPort
      ensures r.Err? <==>
              || HeaderNoPaddingLength(target) + payloadLen + Overhead > maxPacketSize
              || HeaderNoPaddingLength(target) > payloadStart
      ensures r.Err? ==> b[..] == old(b[..]) && cpid == old(cpid)
      ensures r.Ok? ==>
                && cpid == (old(cpid) + 1) % Two64
                && padLen == PaddingLength(MaxPadding(maxPacketSize, HeaderNoPaddingLength(target), payloadStart, payloadLen),
                                           shouldPad(target), draw) <= 0xffff
                && r.value.start + HeaderNoPaddingLength(target) + padLen == payloadStart
                && r.value.length == HeaderNoPaddingLength(target) + padLen + payloadLen + Overhead <= maxPacketSize
                && b[..] == Patch(old(b[..]), r.value.start,
                     ClientPacket(suite, keys, csid, old(cpid),
                       MessageIn(old(b[..]), ToU64(now), padLen, target, payloadStart, payloadLen)))
    {
      hide PaddingLength, ClientPacket, MessageIn, Patch, LengthOf, Crypto.Primitives.Lawful;
      dest := serverAddrPort;
      var headerNoPaddingLen := IdentityEnd() + ClientMessageFixedLength + LengthOf(target);
      var maxPadding := MaxPadding(maxPacketSize, headerNoPaddingLen, payloadStart, payloadLen);
      if maxPadding < 0 {
        return Err(PayloadTooBig), dest, 0;
      }
      var paddingLen := PaddingLength(maxPadding, shouldPad(target), draw);
      padLen := paddingLen;
      var start, length := Write(b, target, payloadStart, payloadLen, paddingLen, now);
      r := Ok(Packed(start, length));
    }

    /** The packing itself, once the padding length is chosen. */
    method Write(b: array<Byte>, target: Addr, payloadStart: nat, payloadLen: nat, padLen: nat, now: int)
      returns (packetStart: nat, packetLen: nat)
      requires padLen <= 0xffff
      requires HeaderNoPaddingLength(target) + padLen <= payloadStart
      requires payloadStart + payloadLen + Overhead <= b.Length
      modifies this, b
      ensures cpid == (old(cpid) + 1) % Two64
      ensures packetStart == payloadStart - HeaderNoPaddingLength(target) - padLen
      ensures packetLen == HeaderNoPaddingLength(target) + padLen + payloadLen + Overhead
      ensures b[..] == Patch(old(b[..]), packetStart,
                ClientPacket(suite, keys, csid, old(cpid),
                  MessageIn(old(b[..]), ToU64(now), padLen, target, payloadStart, payloadLen)))
    {
      hide Patch, IdentityHeaders, IdentityHeader, MessageAround, Encode, LengthOf, SeparateHeader, ClientHead,
           Put64, SessionKey, Crypto.Primitives.Lawful;
      var messageStart := payloadStart - ClientMessageFixedLength - LengthOf(target) - padLen;
      ghost var b0 := b[..];
      ghost var message := MessageIn(b0, ToU64(now), padLen, target, payloadStart, payloadLen);
      MessageAroundIsMessage(b0, ToU64(now), padLen, target, payloadStart, payloadLen);
      WriteAround(b, messageStart, ClientHead(ToU64(now), padLen), padLen, Encode(target), payloadLen);

      packetStart := messageStart - IdentityEnd();
      packetLen := payloadStart - packetStart + payloadLen + Overhead;
      var sep := SeparateHeader(csid, cpid);
      Put(b, packetStart, sep);
      cpid := (cpid + 1) % Two64;
      WriteIdentityHeaders(b, packetStart + SeparateHeaderLength, sep);
      ghost var ids := IdentityHeaders(suite, keys, sep, |keys.ipsks|);
      PatchThree(b0, packetStart, sep, ids, message);

      SealPacket(suite, b, packetStart, |keys.ipsks| * IdentityHeaderLength, payloadStart + payloadLen - messageStart,
                 keys.BlockKey(), SessionKey(suite, keys.psk, Put64(csid)));
      PatchTwice(b0, packetStart, sep + ids + message, ClientPacket(suite, keys, csid, old(cpid), message));
    }

    method WriteIdentityHeaders(b: array<Byte>, start: nat, sep: Bytes)
      requires |sep| == SeparateHeaderLength
      requires start + |keys.ipsks| * IdentityHeaderLength <= b.Length
      modifies b
      ensures b[..] == Patch(old(b[..]), start, IdentityHeaders(suite, keys, sep, |keys.ipsks|))
    {
      hide Patch, IdentityHeaders, IdentityHeader, Crypto.Primitives.Lawful;
      IdentityNone(suite, keys, sep, b[..], start);
      for i := 0 to |keys.ipsks|
        invariant b[..] == Patch(old(b[..]), start, IdentityHeaders(suite, keys, sep, i))
      {
        IdentityStep(suite, keys, sep, i, old(b[..]), start);
        Put(b, start + i * IdentityHeaderLength, IdentityHeader(suite, keys, sep, i));
      }
    }
  }

  /** The server message around the payload at `payloadStart`. */
  ghost function ServerMessageIn(s: Bytes, ts: U64, csid: U64, padLen: nat, source: AddrPort, payloadStart: nat, payloadLen: nat): (r: Bytes)
    requires padLen <= 0xffff && padLen + LengthOfAddrPort(source) <= payloadStart && payloadStart + payloadLen <= |s|
    ensures |r| == ServerMessageFixedLength + padLen + LengthOfAddrPort(source) + payloadLen
  {
    var addrStart := payloadStart - LengthOfAddrPort(source);
    ServerMessage(ts, csid, s[addrStart - padLen..addrStart], source, s[payloadStart..payloadStart + payloadLen])
  }

  lemma MessageAroundIsServerMessage(s: Bytes, ts: U64, csid: U64, padLen: nat, source: AddrPort, payloadStart: nat, payloadLen: nat)
    requires padLen <= 0xffff && ServerMessageFixedLength + padLen + LengthOfAddrPort(source) <= payloadStart
    requires payloadStart + payloadLen <= |s|
    ensures MessageAround(s, payloadStart - LengthOfAddrPort(source) - padLen - ServerMessageFixedLength,
                          ServerHead(ts, csid, padLen), padLen, EncodeAddrPort(source), payloadLen)
         == ServerMessageIn(s, ts, csid, padLen, source, payloadStart, payloadLen)
  {
    hide EncodeAddrPort, LengthOfAddrPort, ServerHead;
  }

  class ShadowPacketServerPacker {
    const suite: Suite
    const psk: Bytes
    const ssid: U64
    const csid: U64
    const shouldPad: Addr -> bool
    var spid: U64

    function HeaderNoPaddingLength(source: AddrPort): nat {
      SeparateHeaderLength + ServerMessageFixedLength + LengthOfAddrPort(source)
    }

    constructor (suite: Suite, psk: Bytes, ssid: U64, csid: U64, shouldPad: Addr -> bool)
      ensures this.suite == suite && this.psk == psk && this.ssid == ssid && this.csid == csid
      ensures this.shouldPad == shouldPad && spid == 0
    {
      this.suite, this.psk, this.ssid, this.csid, this.shouldPad, spid := suite, psk, ssid, csid, shouldPad, 0;
    }

    method PackInPlace(b: array<Byte>, source: AddrPort, payloadStart: nat, payloadLen: nat, maxPacketLen: int, now: int, draw: nat)
      returns (r: Result<Packed, PackError>, ghost padLen: nat)
      requires payloadStart + payloadLen + Overhead <= b.Length
      modifies this, b
      ensures r.Err? <==>
              || HeaderNoPaddingLength(source) + payloadLen + Overhead > maxPacketLen
              || HeaderNoPaddingLength(source) > payloadStart
      ensures r.Err? ==> b[..] == old(b[..]) && spid == old(spid)
      ensures r.Ok? ==>
                && spid == (old(spid) + 1) % Two64
                && padLen == PaddingLength(MaxPadding(maxPacketLen, HeaderNoPaddingLength(source), payloadStart, payloadLen),
                                           shouldPad(FromIP(source)), draw) <= 0xffff
                && r.value.start + HeaderNoPaddingLength(source) + padLen == payloadStart
                && r.value.length == HeaderNoPaddingLength(source) + padLen + payloadLen + Overhead <= maxPacketLen
                && b[..] == Patch(old(b[..]), r.value.start,
                     ServerPacket(suite, psk, ssid, old(spid),
                       ServerMessageIn(old(b[..]), ToU64(now), csid, padLen, source, payloadStart, payloadLen)))
    {
      hide PaddingLength, ServerPacket, ServerMessageIn, Patch, LengthOfAddrPort, Crypto.Primitives.Lawful;
      var maxPadding := MaxPadding(maxPacketLen, HeaderNoPaddingLength(source), payloadStart, payloadLen);
      if maxPadding < 0 {
        return Err(PayloadTooBig), 0;
      }
      var paddingLen := PaddingLength(maxPadding, shouldPad(FromIP(source)), draw);
      padLen := paddingLen;
      var start, length := Write(b, source, payloadStart, payloadLen, paddingLen, now);
      r := Ok(Packed(start, length));
    }

    /** The packing itself, once the padding length is chosen. */
    method Write(b: array<Byte>, source: AddrPort, payloadStart: nat, payloadLen: nat, padLen: nat, now: int)
      returns (packetStart: nat, packetLen: nat)
      requires padLen <= 0xffff
      requires HeaderNoPaddingLength(source) + padLen <= payloadStart
      requires payloadStart + payloadLen + Overhead <= b.Length
      modifies this, b
      ensures spid == (old(spid) + 1) % Two64
      ensures packetStart == payloadStart - HeaderNoPaddingLength(source) - padLen
      ensures packetLen == HeaderNoPaddingLength(source) + padLen + payloadLen + Overhead
      ensures b[..] == Patch(old(b[..]), packetStart,
                ServerPacket(suite, psk, ssid, old(spid),
                  ServerMessageIn(old(b[..]), ToU64(now), csid, padLen, source, payloadStart, payloadLen)))
    {
      hide Patch, MessageAround, EncodeAddrPort, LengthOfAddrPort, SeparateHeader, ServerHead,
           Put64, SessionKey, Crypto.Primitives.Lawful;
      var messageStart := payloadStart - ServerMessageFixedLength - padLen - LengthOfAddrPort(source);
      ghost var b0 := b[..];
      ghost var message := ServerMessageIn(b0, ToU64(now), csid, padLen, source, payloadStart, payloadLen);
      MessageAroundIsServerMessage(b0, ToU64(now), csid, padLen, source, payloadStart, payloadLen);
      WriteAround(b, messageStart, ServerHead(ToU64(now), csid, padLen), padLen, EncodeAddrPort(source), payloadLen);

      packetStart := messageStart - SeparateHeaderLength;
      packetLen := payloadStart - packetStart + payloadLen + Overhead;
      var sep := SeparateHeader(ssid, spid);
      PatchThree(b0, packetStart, sep, [], message);
      PatchEmpty(Patch(Patch(b0, messageStart, message), packetStart, sep), messageStart);
      Put(b, packetStart, sep);
      spid := (spid + 1) % Two64;
      SealPacket(suite, b, packetStart, 0, payloadStart + payloadLen - messageStart,
                 psk, SessionKey(suite, psk, Put64(ssid)));
      JoinEmpty(Encrypt(suite, psk, sep), Seal(suite, SessionKey(suite, psk, Put64(ssid)), sep[4..16], message));
      PatchTwice(b0, packetStart, sep + [] + message, ServerPacket(suite, psk, ssid, old(spid), message));
    }
  }
}
