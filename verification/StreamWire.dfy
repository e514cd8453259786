/** Shadowsocks 2022 streams as byte sequences: nonces, chunks, request and response headers, and the
    transparency of both directions. */
module StreamWire {
  import opened Words
  import opened SocksAddr
  import opened PacketHeader
  import opened Crypto
  import opened PacketPacker
  import opened PacketServer

  const MaxPayloadSize := 0xffff
  const NonceSize: nat := 12

  // ----- nonces: little-endian counters -----

  function LE(n: nat, k: nat): (r: Bytes)
    ensures |r| == k
    decreases k
  {
    if k == 0 then [] else [n % 256] + LE(n / 256, k - 1)
  }

  function FromLE(b: Bytes): nat {
    if b == [] then 0 else b[0] + 256 * FromLE(b[1..])
  }

  lemma {:induction false} FromLEofLE(n: nat, k: nat)
    requires n < Pow256(k)
    ensures FromLE(LE(n, k)) == n
    decreases k
  {
    if k > 0 {
      FromLEofLE(n / 256, k - 1);
      assert LE(n, k)[1..] == LE(n / 256, k - 1);
    }
  }

  function NonceOf(ops: nat): (r: Bytes)
    ensures |r| == NonceSize
  {
    LE(ops, NonceSize)
  }

  /** Below 2^96 operations no nonce is used twice. */
  lemma NoncesDistinct(m: nat, n: nat)
    requires m < Pow256(NonceSize) && n < Pow256(NonceSize) && m != n
    ensures NonceOf(m) != NonceOf(n)
  {
    FromLEofLE(m, NonceSize);
    FromLEofLE(n, NonceSize);
  }

  // ----- chunks -----

  datatype StreamError =
    | ShortRead | FirstRead | PrefixMismatch | UserNotFound | OpenFailed | ZeroLengthChunk | RepeatedSalt
    | IncompleteFirstChunk | PaddingExceedsChunk | ClientSaltMismatch | BadStreamHeader(e: HeaderError)

  /** One write: sealed length, sealed payload, under nonces `ops` and `ops + 1`. */
  function Chunk(s: Suite, key: Bytes, ops: nat, payload: Bytes): (r: Bytes)
    requires |payload| <= MaxPayloadSize
    ensures |r| == 2 + Overhead + |payload| + Overhead
  {
    Seal(s, key, NonceOf(ops), Put16(|payload|)) + Seal(s, key, NonceOf(ops + 1), payload)
  }

  predicate Writable(ps: seq<Bytes>) {
    forall i :: 0 <= i < |ps| ==> 1 <= |ps[i]| <= MaxPayloadSize
  }

  function Chunks(s: Suite, key: Bytes, ops: nat, ps: seq<Bytes>): Bytes
    requires Writable(ps)
    decreases |ps|
  {
    if ps == [] then [] else Chunk(s, key, ops, ps[0]) + Chunks(s, key, ops + 2, ps[1..])
  }

  datatype Read = Read(payload: Bytes, rest: Bytes, ops: nat)

  /** ShadowStreamReader.ReadZeroCopy on the bytes still to be received. */
  function ReadChunk(s: Suite, key: Bytes, ops: nat, input: Bytes): (r: Result<Read, StreamError>)
    ensures r.Ok? ==> |r.value.rest| < |input|
  {
    if |input| < 2 + Overhead then Err(ShortRead)
    else
      match Open(s, key, NonceOf(ops), input[..18])
      case None => Err(OpenFailed)
      case Some(l) =>
        var len := Get16(l);
        if len == 0 then Err(ZeroLengthChunk)
        else if |input| < 18 + len as int + Overhead then Err(ShortRead)
        else
          match Open(s, key, NonceOf(ops + 1), input[18..18 + len as int + Overhead])
          case None => Err(OpenFailed)
          case Some(p) => Ok(Read(p, input[18 + len as int + Overhead..], ops + 2))
  }

  /** Reads until the input is used up. */
  function ReadAll(s: Suite, key: Bytes, ops: nat, input: Bytes): Result<(seq<Bytes>, nat), StreamError>
    decreases |input|
  {
    if input == [] then Ok(([], ops))
    else
      match ReadChunk(s, key, ops, input)
      case Err(e) => Err(e)
      case Ok(r) =>
        match ReadAll(s, key, r.ops, r.rest)
        case Err(e) => Err(e)
        case Ok((ps, ops')) => Ok(([r.payload] + ps, ops'))
  }

  lemma ReadOfChunk(s: Suite, key: Bytes, ops: nat, payload: Bytes, rest: Bytes)
    requires 1 <= |payload| <= MaxPayloadSize
    ensures ReadChunk(s, key, ops, Chunk(s, key, ops, payload) + rest) == Ok(Read(payload, rest, ops + 2))
  {
    hide Seal, Open, Crypto.Primitives.Lawful, NonceOf, Put16, Get16;
    var a := Seal(s, key, NonceOf(ops), Put16(|payload|));
    var b := Seal(s, key, NonceOf(ops + 1), payload);
    ThreeParts(a, b, rest);
    Get16Put16(|payload|, []);
    assert Put16(|payload|) + [] == Put16(|payload|);
  }

  lemma ThreeParts(a: Bytes, b: Bytes, c: Bytes)
    ensures var t := a + b + c;
            t[..|a|] == a && t[|a|..|a| + |b|] == b && t[|a| + |b|..] == c && t[|a|..] == b + c
  {}

  /** Whatever is written is read back: same chunks, same order, and both ends have counted the same
      number of AEAD operations. */
  lemma {:induction false} ReadAllOfChunks(s: Suite, key: Bytes, ops: nat, ps: seq<Bytes>)
    requires Writable(ps)
    ensures ReadAll(s, key, ops, Chunks(s, key, ops, ps)) == Ok((ps, ops + 2 * |ps|))
    decreases |ps|
  {
    hide Seal, Open, Crypto.Primitives.Lawful, Chunk, ReadChunk;
    if ps != [] {
      ReadOfChunk(s, key, ops, ps[0], Chunks(s, key, ops + 2, ps[1..]));
      ReadAllOfChunks(s, key, ops + 2, ps[1..]);
      assert ps == [ps[0]] + ps[1..];
    }
  }

  /** What is refused: too few bytes, a sealed length or payload that does not open, a length of zero. A chunk is only ever
      delivered whole, under the next two nonces. */
  lemma ReadChunkExactly(s: Suite, key: Bytes, ops: nat, input: Bytes)
    ensures var r := ReadChunk(s, key, ops, input);
            if |input| < 18 then r == Err(ShortRead)
            else
              var l := Open(s, key, NonceOf(ops), input[..18]);
              if l.None? then r == Err(OpenFailed)
              else
                var n := 0x100 * l.value[0] as int + l.value[1];
                if n == 0 then r == Err(ZeroLengthChunk)
                else if |input| < 18 + n + 16 then r == Err(ShortRead)
                else
                  var p := Open(s, key, NonceOf(ops + 1), input[18..18 + n + 16]);
                  if p.None? then r == Err(OpenFailed) else r == Ok(Read(p.value, input[18 + n + 16..], ops + 2))
  {
    hide Open, Get16, NonceOf, Crypto.Primitives.Lawful;
    if |input| >= 18 {
      var l := Open(s, key, NonceOf(ops), input[..18]);
      if l.Some? {
        BigEndian(l.value);
      }
    }
  }

  /** Whole chunks in the first n bytes, and bytes of one more. */
  function Cut(ps: seq<Bytes>, n: nat): (r: (nat, nat))
    ensures r.0 <= |ps|
    decreases |ps|
  {
    if ps == [] || n < 34 + |ps[0]| then (0, n)
    else var (k, left) := Cut(ps[1..], n - 34 - |ps[0]|); (k + 1, left)
  }

  /** A stream that was cut short is never taken for a shorter one, unless it was cut between two chunks. */
  lemma {:induction false} CutStreamRefused(s: Suite, key: Bytes, ops: nat, ps: seq<Bytes>, n: nat)
    requires Writable(ps) && n <= |Chunks(s, key, ops, ps)|
    ensures var (k, left) := Cut(ps, n);
            ReadAll(s, key, ops, Chunks(s, key, ops, ps)[..n]) == if left == 0 then Ok((ps[..k], ops + 2 * k)) else Err(ShortRead)
    decreases |ps|
  {
    hide Seal, Open, Crypto.Primitives.Lawful, Chunk, ReadChunk;
    if ps != [] && n > 0 {
      var c, rest := Chunk(s, key, ops, ps[0]), Chunks(s, key, ops + 2, ps[1..]);
      if n < |c| {
        assert (c + rest)[..n] == c[..n];
        CutChunkRefused(s, key, ops, ps[0], n);
      } else {
        assert (c + rest)[..n] == c + rest[..n - |c|];
        ReadOfChunk(s, key, ops, ps[0], rest[..n - |c|]);
        CutStreamRefused(s, key, ops + 2, ps[1..], n - |c|);
        var k := Cut(ps[1..], n - |c|).0;
        assert ps[..k + 1] == [ps[0]] + ps[1..][..k];
      }
    }
  }

  lemma CutChunkRefused(s: Suite, key: Bytes, ops: nat, payload: Bytes, n: nat)
    requires 1 <= |payload| <= MaxPayloadSize && n < 34 + |payload|
    ensures ReadChunk(s, key, ops, Chunk(s, key, ops, payload)[..n]) == Err(ShortRead)
  {
    hide Seal, Open, Crypto.Primitives.Lawful, NonceOf, Put16, Get16;
    var a := Seal(s, key, NonceOf(ops), Put16(|payload|));
    var c := Chunk(s, key, ops, payload);
    if n >= 18 {
      assert c[..n][..18] == a;
      Get16Put16(|payload|, []);
      assert Put16(|payload|) + [] == Put16(|payload|);
    }
  }

  function Flatten(ps: seq<Bytes>): Bytes {
    if ps == [] then [] else ps[0] + Flatten(ps[1..])
  }

  lemma {:induction false} FlattenAppend(ps: seq<Bytes>, qs: seq<Bytes>)
    ensures Flatten(ps + qs) == Flatten(ps) + Flatten(qs)
  {
    if ps == [] {
      assert ps + qs == qs;
    } else {
      FlattenAppend(ps[1..], qs);
      assert (ps + qs)[1..] == ps[1..] + qs;
      Assoc(ps[0], Flatten(ps[1..]), Flatten(qs));
    }
  }

  /** A payload cut into pieces of at most `MaxPayloadSize`. */
  function Split(p: Bytes): (r: seq<Bytes>)
    ensures Writable(r) && Flatten(r) == p
    decreases |p|
  {
    if p == [] then []
    else if |p| <= MaxPayloadSize then [p]
    else [p[..MaxPayloadSize]] + Split(p[MaxPayloadSize..])
  }

  /** All pieces but the last are full. */
  lemma {:induction false} SplitFull(p: Bytes, i: nat)
    requires i < |Split(p)| - 1
    ensures |Split(p)[i]| == 65535
    decreases |p|
  {
    if i > 0 {
      SplitFull(p[MaxPayloadSize..], i - 1);
    }
  }

  // ----- request -----

  /** How much of the variable-length header is padding and payload, over all random draws. */
  function PaddingPayloadLen(payloadLen: nat, room: nat, draw: nat): (r: nat)
    requires room >= MaxPaddingLength
    ensures 1 <= r <= room && (payloadLen <= room ==> payloadLen <= r <= payloadLen + MaxPaddingLength)
    ensures payloadLen > room ==> r == room
  {
    if payloadLen > room then room
    else if payloadLen >= MaxPaddingLength then payloadLen
    else if payloadLen > 0 then payloadLen + draw % (MaxPaddingLength - payloadLen + 1)
    else 1 + draw % MaxPaddingLength
  }

  /** Without a payload every padding of 1 to 900 bytes is drawn, with a short payload every padding up to 900 bytes in all,
      and with a longer one there is none. */
  lemma RequestPaddingDrawn(payloadLen: nat, room: nat, n: nat)
    requires room >= 900
    ensures (exists draw: nat :: PaddingPayloadLen(payloadLen, room, draw) == n) <==>
            if payloadLen == 0 then 1 <= n <= 900 else if payloadLen < 900 then payloadLen <= n <= 900 else n == Min(payloadLen, room)
  {
    forall draw: nat
      ensures var r := PaddingPayloadLen(payloadLen, room, draw);
              if payloadLen == 0 then 1 <= r <= 900 else if payloadLen < 900 then payloadLen <= r <= 900 else r == Min(payloadLen, room)
    {
      Remainder(draw, 900);
      Remainder(draw, if payloadLen < 900 then 901 - payloadLen else 1);
    }
    if payloadLen == 0 && 1 <= n <= 900 {
      assert (n - 1) % 900 == n - 1;
      assert PaddingPayloadLen(payloadLen, room, n - 1) == n;
    } else if 0 < payloadLen < 900 && payloadLen <= n <= 900 {
      SmallRemainder(n - payloadLen, 901 - payloadLen);
      assert PaddingPayloadLen(payloadLen, room, n - payloadLen) == n;
    } else if payloadLen >= 900 && n == Min(payloadLen, room) {
      assert PaddingPayloadLen(payloadLen, room, 0) == n;
    }
  }

  lemma Remainder(a: nat, m: nat)
    requires m > 0
    ensures 0 <= a % m < m
  {}

  lemma SmallRemainder(a: nat, m: nat)
    requires a < m
    ensures a % m == a
  {}

  function RoomForPayload(target: Addr): (r: nat)
    ensures r >= MaxPaddingLength && LengthOf(target) + 2 + r == MaxPayloadSize
  {
    assert LengthOf(target) == |Encode(target)|;
    MaxPayloadSize - LengthOf(target) - 2
  }

  function FixedHeader(ts: U64, len: U16): (r: Bytes)
    ensures |r| == 11
  {
    ClientHead(ts, len)
  }

  function VariableHeader(target: Addr, pad: Bytes, payload: Bytes): (r: Bytes)
    requires |pad| <= 0xffff
    ensures |r| == LengthOf(target) + 2 + |pad| + |payload|
  {
    Encode(target) + Put16(|pad|) + pad + payload
  }

  function ParseFixed(b: Bytes, now: int): Result<U16, StreamError>
    requires |b| == 11
  {
    if b[0] != 0 then Err(BadStreamHeader(TypeMismatch))
    else if !TimestampOk(Get64(b[1..]), now) then Err(BadStreamHeader(BadTimestamp))
    else Ok(Get16(b[9..]))
  }

  function ParseVariable(b: Bytes): Result<(Addr, Bytes), StreamError> {
    match Decode(b)
    case Err(e) => Err(BadStreamHeader(BadAddr(e)))
    case Ok((a, n)) =>
      var rest := b[n..];
      if |rest| <= 2 then Err(IncompleteFirstChunk)
      else
        var padLen := Get16(rest);
        if 2 + padLen as int > |rest| then Err(PaddingExceedsChunk)
        else Ok((a, rest[2 + padLen as int..]))
  }

  lemma ParseOfVariable(target: Addr, pad: Bytes, payload: Bytes)
    requires |pad| <= 0xffff
    ensures ParseVariable(VariableHeader(target, pad, payload)) ==
            if |pad| + |payload| == 0 then Err(IncompleteFirstChunk) else Ok((target.Unmap(), payload))
  {
    hide Encode, Decode, LengthOf, Put16, Get16, Addr.Unmap;
    var v := VariableHeader(target, pad, payload);
    var rest := Put16(|pad|) + (pad + payload);
    assert v == Encode(target) + rest;
    DecodeEncode(target, rest);
    assert v[LengthOf(target)..] == rest;
    Get16Put16(|pad|, pad + payload);
    assert rest[2 + |pad|..] == payload;
  }

  /** The bytes of an accepted variable-length header: an address, a padding length that fits, and something after it. */
  lemma VariableAccepted(b: Bytes)
    ensures var a := Decode(b);
            var r := ParseVariable(b);
            && (a.Err? ==> r == Err(BadStreamHeader(BadAddr(a.error))))
            && (a.Ok? ==>
                  var n := a.value.1;
                  if |b| < n + 3 then r == Err(IncompleteFirstChunk)
                  else
                    var start := n + 2 + 0x100 * b[n] as int + b[n + 1];
                    if start > |b| then r == Err(PaddingExceedsChunk) else r == Ok((a.value.0, b[start..])))
  {
    hide Decode, Get16;
    var a := Decode(b);
    if a.Ok? {
      BigEndian(b[a.value.1..]);
    }
  }

  // ----- identity headers of a stream -----

  function IdentityBlock(s: Suite, keys: ClientKeys, salt: Bytes, i: nat): (r: Bytes)
    requires i < |keys.ipsks|
    ensures |r| == IdentityHeaderLength
  {
    Encrypt(s, IdentityKey(s, keys.ipsks[i], salt), PSKHash(s, keys.NextPSK(i)))
  }

  function IdentityBlocks(s: Suite, keys: ClientKeys, salt: Bytes, n: nat): (r: Bytes)
    requires n <= |keys.ipsks|
    ensures |r| == n * IdentityHeaderLength
  {
    if n == 0 then [] else IdentityBlocks(s, keys, salt, n - 1) + IdentityBlock(s, keys, salt, n - 1)
  }

  function StreamUser(s: Suite, cfg: ServerConfig, salt: Bytes, identity: Bytes): Result<Bytes, StreamError>
    requires |identity| == cfg.IdentityLen()
  {
    if cfg.IdentityLen() == 0 then Ok(cfg.psk)
    else
      var h := Decrypt(s, IdentityKey(s, cfg.psk, salt), identity);
      if h in cfg.users then Ok(cfg.users[h]) else Err(UserNotFound)
  }

  lemma StreamUserFound(s: Suite, cfg: ServerConfig, keys: ClientKeys, salt: Bytes)
    requires Matches(s, cfg, keys)
    ensures |IdentityBlocks(s, keys, salt, |keys.ipsks|)| == cfg.IdentityLen()
    ensures StreamUser(s, cfg, salt, IdentityBlocks(s, keys, salt, |keys.ipsks|)) == Ok(keys.psk)
  {
    hide Crypto.Primitives.Lawful, IdentityKey, PSKHash;
    if |keys.ipsks| == 1 {
      assert IdentityBlocks(s, keys, salt, 1) == [] + IdentityBlock(s, keys, salt, 0) == IdentityBlock(s, keys, salt, 0);
    }
  }

  /** An identity header that names no user is refused. */
  lemma StreamUserUnknown(s: Suite, cfg: ServerConfig, user: Bytes, salt: Bytes)
    requires cfg.users != map[] && PSKHash(s, user) !in cfg.users
    ensures var block := IdentityBlock(s, ClientKeys(user, [cfg.psk]), salt, 0);
            |block| == cfg.IdentityLen() && StreamUser(s, cfg, salt, block) == Err(UserNotFound)
  {
    hide Crypto.Primitives.Lawful, IdentityKey, PSKHash;
  }

  lemma {:induction false} BlockAt(s: Suite, keys: ClientKeys, salt: Bytes, n: nat, i: nat)
    requires i < n <= |keys.ipsks|
    ensures IdentityBlocks(s, keys, salt, n)[16 * i..16 * i + 16] == IdentityBlock(s, keys, salt, i)
  {
    hide IdentityBlock;
    if i < n - 1 {
      BlockAt(s, keys, salt, n - 1, i);
    }
  }

  /** Each identity PSK decrypts its own block to the hash of the next PSK of the chain. */
  lemma BlocksOnTheWay(s: Suite, keys: ClientKeys, salt: Bytes, i: nat)
    requires i < |keys.ipsks|
    ensures var chain := keys.ipsks + [keys.psk];
            var blocks := IdentityBlocks(s, keys, salt, |keys.ipsks|);
            Decrypt(s, IdentityKey(s, chain[i], salt), blocks[16 * i..16 * i + 16]) == PSKHash(s, chain[i + 1])
  {
    BlockAt(s, keys, salt, |keys.ipsks|, i);
  }

  // ----- client to server -----

  /** The request handshake: prefix, salt, identity headers, sealed fixed-length header, sealed
      variable-length header; then the payload that did not fit, in chunks. */
  function Request(s: Suite, keys: ClientKeys, prefix: Bytes, salt: Bytes, ts: U64, target: Addr, pad: Bytes,
                   payload: Bytes, excess: Bytes): Bytes
    requires |pad| <= 0xffff && LengthOf(target) + 2 + |pad| + |payload| <= MaxPayloadSize
  {
    var key := SessionKey(s, keys.psk, salt);
    var v := VariableHeader(target, pad, payload);
    prefix + salt + IdentityBlocks(s, keys, salt, |keys.ipsks|)
    + Seal(s, key, NonceOf(0), FixedHeader(ts, |v|)) + Seal(s, key, NonceOf(1), v)
    + Chunks(s, key, 2, Split(excess))
  }

  /** A request, byte by byte: prefix, salt, identity blocks, then under the first two nonces type, timestamp and length, and
      address, padding length, padding and payload; what does not fit follows in chunks. */
  lemma RequestOnTheWire(s: Suite, keys: ClientKeys, prefix: Bytes, salt: Bytes, ts: U64, target: Addr, pad: Bytes,
                         payload: Bytes, excess: Bytes)
    requires |pad| <= 0xffff && LengthOf(target) + 2 + |pad| + |payload| <= MaxPayloadSize
    ensures var key := SessionKey(s, keys.psk, salt);
            var v := Encode(target) + Put16(|pad|) + pad + payload;
            Request(s, keys, prefix, salt, ts, target, pad, payload, excess) ==
            prefix + salt + IdentityBlocks(s, keys, salt, |keys.ipsks|)
            + Seal(s, key, [0, 0, 0, 0, 0, 0, 0, 0, 0, 0, 0, 0], [0] + Put64(ts) + Put16(|v|))
            + Seal(s, key, [1, 0, 0, 0, 0, 0, 0, 0, 0, 0, 0, 0], v)
            + Chunks(s, key, 2, Split(excess))
  {
    hide Seal, Chunks, Split, Encode, LengthOf, Put16, Put64, IdentityBlocks, Crypto.Primitives.Lawful;
    FirstNonces();
  }

  lemma {:induction false} SmallLE(n: nat, k: nat)
    ensures LE(0, k) == seq(k, _ => 0)
    ensures n < 256 && k > 0 ==> LE(n, k) == [n] + seq(k - 1, _ => 0)
  {
    if k > 0 {
      SmallLE(0, k - 1);
      assert LE(0, k) == [0] + LE(0, k - 1);
    }
  }

  lemma FirstNonces()
    ensures NonceOf(0) == [0, 0, 0, 0, 0, 0, 0, 0, 0, 0, 0, 0]
    ensures NonceOf(1) == [1, 0, 0, 0, 0, 0, 0, 0, 0, 0, 0, 0]
  {
    SmallLE(0, 12);
    SmallLE(1, 12);
  }

  datatype Accept = Accept(target: Addr, payload: Bytes, psk: Bytes, salt: Bytes, key: Bytes, rest: Bytes)

  /** What the first part of a request settles: the user's PSK, the salt and the length of the next part. */
  datatype FixedPart = FixedPart(psk: Bytes, salt: Bytes, vlen: nat)

  /** Errors before the fixed-length header is authenticated. */
  predicate Unauthenticated(e: StreamError) {
    e.FirstRead? || e.PrefixMismatch? || e.UserNotFound? || e.OpenFailed?
  }

  function FixedEnd(cfg: ServerConfig, prefix: Bytes): nat {
    |prefix| + |cfg.psk| + cfg.IdentityLen() + 11 + Overhead
  }

  /** A request up to the salt pool. */
  function AcceptFixed(s: Suite, cfg: ServerConfig, prefix: Bytes, input: Bytes, now: int): (r: Result<FixedPart, StreamError>)
    ensures r.Ok? ==> FixedEnd(cfg, prefix) <= |input|
  {
    var idStart := |prefix| + |cfg.psk|;
    var fixedStart := idStart + cfg.IdentityLen();
    if |input| < FixedEnd(cfg, prefix) then Err(FirstRead)
    else if input[..|prefix|] != prefix then Err(PrefixMismatch)
    else
      var salt := input[|prefix|..idStart];
      match StreamUser(s, cfg, salt, input[idStart..fixedStart])
      case Err(e) => Err(e)
      case Ok(psk) =>
        match Open(s, SessionKey(s, psk, salt), NonceOf(0), input[fixedStart..FixedEnd(cfg, prefix)])
        case None => Err(OpenFailed)
        case Some(fixed) =>
          match ParseFixed(fixed, now)
          case Err(e) => Err(e)
          case Ok(vlen) => Ok(FixedPart(psk, salt, vlen))
  }

  /** A request after the salt pool. */
  function AcceptVariable(s: Suite, f: FixedPart, rest: Bytes): (r: Result<Accept, StreamError>)
    ensures r.Ok? ==> r.value.salt == f.salt && r.value.key == SessionKey(s, f.psk, f.salt)
  {
    var end := f.vlen + Overhead;
    if |rest| < end then Err(ShortRead)
    else
      var key := SessionKey(s, f.psk, f.salt);
      match Open(s, key, NonceOf(1), rest[..end])
      case None => Err(OpenFailed)
      case Some(v) =>
        match ParseVariable(v)
        case Err(e) => Err(e)
        case Ok((target, payload)) => Ok(Accept(target, payload, f.psk, f.salt, key, rest[end..]))
  }

  /** NewShadowStreamServerReadWriter: `unused` is the salt pool's answer for the request's salt. */
  function AcceptRequest(s: Suite, cfg: ServerConfig, prefix: Bytes, input: Bytes, now: int, unused: Bytes -> bool):
    Result<Accept, StreamError>
  {
    match AcceptFixed(s, cfg, prefix, input, now)
    case Err(e) => Err(e)
    case Ok(f) => if unused(f.salt) then AcceptVariable(s, f, input[FixedEnd(cfg, prefix)..]) else Err(RepeatedSalt)
  }

  lemma SixParts(a: Bytes, b: Bytes, c: Bytes, d: Bytes, e: Bytes, f: Bytes)
    ensures var t := a + b + c + d + e + f;
            var i1 := |a|; var i2 := i1 + |b|; var i3 := i2 + |c|; var i4 := i3 + |d|; var i5 := i4 + |e|;
            && |t| == i5 + |f| && t[..i1] == a && t[i1..i2] == b && t[i2..i3] == c
            && t[i3..i4] == d && t[i4..i5] == e && t[i5..] == f && t[i4..] == e + f
  {}

  lemma ParseOfFixed(ts: U64, len: U16, now: int)
    ensures ParseFixed(FixedHeader(ts, len), now) == if TimestampOk(ts, now) then Ok(len) else Err(BadStreamHeader(BadTimestamp))
  {
    hide Get64, Get16, TimestampOk;
    ClientHeadFields(ts, len, []);
    assert ClientHead(ts, len) + [] == ClientHead(ts, len);
  }

  /** The bytes of an accepted fixed-length header: type 0, a timestamp within 30 s, a length. */
  lemma FixedAccepted(b: Bytes, now: int)
    requires |b| == 11 && SaneNow(now)
    ensures var r := ParseFixed(b, now);
            && (r.Ok? <==> b[0] == 0 && -30 <= ToInt64(Get64(b[1..9])) - now <= 30)
            && (r.Ok? ==> r.value == 0x100 * b[9] as int + b[10])
  {
    hide Get64, Get16, ToInt64, TimestampOk;
    BigEndian(b[9..]);
    TimestampOkIsWithin(Get64(b[1..]), now);
    SameField(b);
  }

  /** A written request, exactly: a timestamp out of range is refused before the salt is looked at, a salt that was used
      after it; otherwise target, payload, user and salt are read, and what follows is left unread. */
  lemma AcceptOfRequest(s: Suite, cfg: ServerConfig, keys: ClientKeys, prefix: Bytes, salt: Bytes, ts: U64, target: Addr,
                        pad: Bytes, payload: Bytes, excess: Bytes, more: Bytes, now: int, unused: Bytes -> bool)
    requires Matches(s, cfg, keys) && |salt| == |cfg.psk|
    requires |pad| <= 0xffff && LengthOf(target) + 2 + |pad| + |payload| <= MaxPayloadSize && |pad| + |payload| >= 1
    ensures var key := SessionKey(s, keys.psk, salt);
            var input := Request(s, keys, prefix, salt, ts, target, pad, payload, excess) + more;
            && (AcceptFixed(s, cfg, prefix, input, now).Ok? ==> AcceptFixed(s, cfg, prefix, input, now).value.salt == salt)
            && (!TimestampOk(ts, now) ==> AcceptFixed(s, cfg, prefix, input, now) == Err(BadStreamHeader(BadTimestamp)))
            && AcceptRequest(s, cfg, prefix, input, now, unused) ==
               if !TimestampOk(ts, now) then Err(BadStreamHeader(BadTimestamp))
               else if !unused(salt) then Err(RepeatedSalt)
               else Ok(Accept(target.Unmap(), payload, keys.psk, salt, key, Chunks(s, key, 2, Split(excess)) + more))
  {
    hide Seal, Open, Crypto.Primitives.Lawful, NonceOf, ParseFixed, ParseVariable, SessionKey, Matches, StreamUser,
         IdentityBlocks, VariableHeader, FixedHeader, Chunks, Split, TimestampOk, LengthOf, Addr.Unmap, AcceptFixed, AcceptVariable;
    var key := SessionKey(s, keys.psk, salt);
    var v := VariableHeader(target, pad, payload);
    var ids := IdentityBlocks(s, keys, salt, |keys.ipsks|);
    var a := Seal(s, key, NonceOf(0), FixedHeader(ts, |v|));
    var b := Seal(s, key, NonceOf(1), v);
    var tail := Chunks(s, key, 2, Split(excess)) + more;
    var input := Request(s, keys, prefix, salt, ts, target, pad, payload, excess) + more;
    assert input == prefix + salt + ids + a + b + tail;
    SixParts(prefix, salt, ids, a, b, tail);
    FixedOfRequest(s, cfg, keys, prefix, salt, ts, |v|, input, now);
    VariableOfRequest(s, FixedPart(keys.psk, salt, |v|), target, pad, payload, tail);
  }

  lemma FixedOfRequest(s: Suite, cfg: ServerConfig, keys: ClientKeys, prefix: Bytes, salt: Bytes, ts: U64, vlen: U16, input: Bytes, now: int)
    requires Matches(s, cfg, keys) && |salt| == |cfg.psk|
    requires var ids := IdentityBlocks(s, keys, salt, |keys.ipsks|);
             var a := Seal(s, SessionKey(s, keys.psk, salt), NonceOf(0), FixedHeader(ts, vlen));
             var i1 := |prefix|; var i2 := i1 + |salt|; var i3 := i2 + |ids|; var i4 := i3 + |a|;
             && |input| >= i4 && input[..i1] == prefix && input[i1..i2] == salt && input[i2..i3] == ids && input[i3..i4] == a
    ensures |IdentityBlocks(s, keys, salt, |keys.ipsks|)| == cfg.IdentityLen()
    ensures AcceptFixed(s, cfg, prefix, input, now)
         == if TimestampOk(ts, now) then Ok(FixedPart(keys.psk, salt, vlen)) else Err(BadStreamHeader(BadTimestamp))
  {
    hide Seal, Open, Crypto.Primitives.Lawful, NonceOf, ParseFixed, SessionKey, Matches, StreamUser, IdentityBlocks, FixedHeader, TimestampOk;
    StreamUserFound(s, cfg, keys, salt);
    ParseOfFixed(ts, vlen, now);
  }

  lemma VariableOfRequest(s: Suite, f: FixedPart, target: Addr, pad: Bytes, payload: Bytes, tail: Bytes)
    requires |pad| <= 0xffff && LengthOf(target) + 2 + |pad| + |payload| <= MaxPayloadSize && |pad| + |payload| >= 1
    requires f.vlen == |VariableHeader(target, pad, payload)|
    ensures var key := SessionKey(s, f.psk, f.salt);
            AcceptVariable(s, f, Seal(s, key, NonceOf(1), VariableHeader(target, pad, payload)) + tail)
            == Ok(Accept(target.Unmap(), payload, f.psk, f.salt, key, tail))
  {
    hide Seal, Open, Crypto.Primitives.Lawful, NonceOf, ParseVariable, SessionKey, VariableHeader, LengthOf, Addr.Unmap;
    ParseOfVariable(target, pad, payload);
  }

  /** Any bytes at all as a request: why they are refused, in this order, or what is accepted. */
  lemma RequestExactly(s: Suite, cfg: ServerConfig, prefix: Bytes, input: Bytes, now: int, unused: Bytes -> bool)
    ensures var n1 := |prefix| + |cfg.psk|;
            var n2 := n1 + if cfg.users == map[] then 0 else 16;
            var n3 := n2 + 27;
            var r := AcceptRequest(s, cfg, prefix, input, now, unused);
            if |input| < n3 then r == Err(FirstRead)
            else if !(prefix <= input) then r == Err(PrefixMismatch)
            else
              var salt := input[|prefix|..n1];
              var user := if cfg.users == map[] then Some(cfg.psk)
                          else var h := Decrypt(s, IdentityKey(s, cfg.psk, salt), input[n1..n2]);
                               if h in cfg.users then Some(cfg.users[h]) else None;
              if user.None? then r == Err(UserNotFound)
              else
                var key := SessionKey(s, user.value, salt);
                var head := Open(s, key, NonceOf(0), input[n2..n3]);
                if head.None? then r == Err(OpenFailed)
                else
                  var len := ParseFixed(head.value, now);
                  if len.Err? then r == Err(len.error)
                  else if !unused(salt) then r == Err(RepeatedSalt)
                  else
                    var n4 := n3 + len.value as int + 16;
                    if |input| < n4 then r == Err(ShortRead)
                    else
                      var v := Open(s, key, NonceOf(1), input[n3..n4]);
                      if v.None? then r == Err(OpenFailed)
                      else
                        var body := ParseVariable(v.value);
                        if body.Err? then r == Err(body.error)
                        else r == Ok(Accept(body.value.0, body.value.1, user.value, salt, key, input[n4..]))
  {
    hide Open, ParseFixed, ParseVariable, SessionKey, IdentityKey, Decrypt, NonceOf, Crypto.Primitives.Lawful;
    UsersEmpty(cfg);
    var n3 := FixedEnd(cfg, prefix);
    if |input| >= n3 {
      RestSlices(input, n3);
    }
  }

  lemma UsersEmpty(cfg: ServerConfig)
    ensures |cfg.users| == 0 <==> cfg.users == map[]
  {}

  lemma RestSlices(b: Bytes, n: nat)
    requires n <= |b|
    ensures forall m :: 0 <= m <= |b| - n ==> b[n..][..m] == b[n..n + m] && b[n..][m..] == b[n + m..]
  {}

  predicate PaddedFor(target: Addr, initial: Bytes, pad: Bytes, draw: nat) {
    |pad| == PaddingPayloadLen(|initial|, RoomForPayload(target), draw) - |FirstPayload(target, initial)|
  }

  function ExcessPayload(target: Addr, initial: Bytes): Bytes {
    initial[|FirstPayload(target, initial)|..]
  }

  /** AEAD operations of the client for the request and for a number of later writes. */
  function ClientOps(target: Addr, initial: Bytes, writes: nat): nat {
    2 + 2 * |Split(ExcessPayload(target, initial))| + 2 * writes
  }

  /** Everything the client sends: handshake, excess payload, later writes. */
  function ClientStream(s: Suite, keys: ClientKeys, prefix: Bytes, salt: Bytes, ts: U64, target: Addr, pad: Bytes,
                        initial: Bytes, writes: seq<Bytes>, draw: nat): Bytes
    requires PaddedFor(target, initial, pad, draw) && Writable(writes)
  {
    Request(s, keys, prefix, salt, ts, target, pad, FirstPayload(target, initial), ExcessPayload(target, initial))
    + Chunks(s, SessionKey(s, keys.psk, salt), ClientOps(target, initial, 0), writes)
  }

  /** Client to server: for any initial payload and any later writes, the server recovers the target
      address and the same bytes in the same order, and after reading them both ends have done the
      same number of AEAD operations. */
  lemma ClientToServerTransparent(s: Suite, cfg: ServerConfig, keys: ClientKeys, prefix: Bytes, salt: Bytes, ts: U64,
                                  target: Addr, pad: Bytes, initial: Bytes, writes: seq<Bytes>, draw: nat, now: int, unused: Bytes -> bool)
    requires Matches(s, cfg, keys) && |salt| == |cfg.psk| && Writable(writes)
    requires TimestampOk(ts, now) && unused(salt) && PaddedFor(target, initial, pad, draw)
    ensures var a := AcceptRequest(s, cfg, prefix, ClientStream(s, keys, prefix, salt, ts, target, pad, initial, writes, draw), now, unused);
            && a.Ok? && a.value.target == target.Unmap() && a.value.salt == salt && a.value.psk == keys.psk
            && var r := ReadAll(s, a.value.key, 2, a.value.rest);
               && r.Ok? && r.value.1 == ClientOps(target, initial, |writes|)
               && a.value.payload + Flatten(r.value.0) == initial + Flatten(writes)
  {
    hide Seal, Open, Crypto.Primitives.Lawful, SessionKey, Matches, Request, AcceptRequest, ReadAll, Chunks, TimestampOk,
         LengthOf, Addr.Unmap, Split, Flatten;
    var key := SessionKey(s, keys.psk, salt);
    var first := FirstPayload(target, initial);
    var excess := ExcessPayload(target, initial);
    var cut := Split(excess);
    AcceptOfRequest(s, cfg, keys, prefix, salt, ts, target, pad, first, excess,
                    Chunks(s, key, 2 + 2 * |cut|, writes), now, unused);
    WritableAppend(cut, writes);
    ChunksAppend(s, key, 2, cut, writes);
    ReadAllOfChunks(s, key, 2, cut + writes);
    FlattenAppend(cut, writes);
    Assoc(first, excess, Flatten(writes));
    assert initial == first + excess;
  }

  /** The part of the initial payload that travels in the request header. */
  function FirstPayload(target: Addr, initial: Bytes): Bytes {
    if |initial| > RoomForPayload(target) then initial[..RoomForPayload(target)] else initial
  }

  /** As much of the initial payload as fits beside the address and the padding length travels in the header, the rest
      follows. */
  lemma FirstPayloadFits(target: Addr, initial: Bytes)
    ensures var room := 65533 - |Encode(target)|;
            && room >= 0 && FirstPayload(target, initial) == initial[..Min(|initial|, room)]
            && initial == FirstPayload(target, initial) + ExcessPayload(target, initial)
  {}

  lemma {:induction false} ChunksAppend(s: Suite, key: Bytes, ops: nat, ps: seq<Bytes>, qs: seq<Bytes>)
    requires Writable(ps) && Writable(qs) && Writable(ps + qs)
    ensures Chunks(s, key, ops, ps + qs) == Chunks(s, key, ops, ps) + Chunks(s, key, ops + 2 * |ps|, qs)
    decreases |ps|
  {
    hide Chunk, Chunks;
    if ps == [] {
      ChunksNil(s, key, ops, ps);
      assert ps + qs == qs;
    } else {
      assert Writable(ps[1..] + qs);
      ChunksAppend(s, key, ops + 2, ps[1..], qs);
      ChunksStep(s, key, ops, ps, qs, Chunks(s, key, ops + 2 * |ps|, qs));
    }
  }

  lemma ChunksStep(s: Suite, key: Bytes, ops: nat, ps: seq<Bytes>, qs: seq<Bytes>, tail: Bytes)
    requires Writable(ps) && Writable(ps + qs) && ps != [] && Writable(ps[1..] + qs)
    requires Chunks(s, key, ops + 2, ps[1..] + qs) == Chunks(s, key, ops + 2, ps[1..]) + tail
    ensures Chunks(s, key, ops, ps + qs) == Chunks(s, key, ops, ps) + tail
  {
    hide Chunk, Chunks;
    ChunksCons(s, key, ops, ps);
    ChunksCons(s, key, ops, ps + qs);
    assert (ps + qs)[1..] == ps[1..] + qs;
    Assoc(Chunk(s, key, ops, ps[0]), Chunks(s, key, ops + 2, ps[1..]), tail);
  }

  lemma WritableAppend(ps: seq<Bytes>, qs: seq<Bytes>)
    requires Writable(ps) && Writable(qs)
    ensures Writable(ps + qs)
  {}

  lemma ChunksNil(s: Suite, key: Bytes, ops: nat, ps: seq<Bytes>)
    requires ps == []
    ensures Chunks(s, key, ops, ps) == []
  {}

  lemma ChunksCons(s: Suite, key: Bytes, ops: nat, ps: seq<Bytes>)
    requires Writable(ps) && ps != []
    ensures Chunks(s, key, ops, ps) == Chunk(s, key, ops, ps[0]) + Chunks(s, key, ops + 2, ps[1..])
  {}

  // ----- server to client -----

  function ResponseHeader(ts: U64, requestSalt: Bytes, len: U16): (r: Bytes)
    ensures |r| == 1 + 8 + |requestSalt| + 2
  {
    [1] + Put64(ts) + requestSalt + Put16(len)
  }

  /** The first write of the server: prefix, salt, sealed response header, sealed payload. */
  function Response(s: Suite, psk: Bytes, prefix: Bytes, salt: Bytes, requestSalt: Bytes, ts: U64, payload: Bytes): Bytes
    requires |payload| <= MaxPayloadSize
  {
    var key := SessionKey(s, psk, salt);
    prefix + salt + Seal(s, key, NonceOf(0), ResponseHeader(ts, requestSalt, |payload|))
    + Seal(s, key, NonceOf(1), payload)
  }

  /** A response, byte by byte: prefix, salt, then under the first two nonces type, timestamp, the request's salt and length,
      and the payload. */
  lemma ResponseOnTheWire(s: Suite, psk: Bytes, prefix: Bytes, salt: Bytes, requestSalt: Bytes, ts: U64, payload: Bytes)
    requires |payload| <= MaxPayloadSize
    ensures var key := SessionKey(s, psk, salt);
            Response(s, psk, prefix, salt, requestSalt, ts, payload) ==
            prefix + salt + Seal(s, key, [0, 0, 0, 0, 0, 0, 0, 0, 0, 0, 0, 0], [1] + Put64(ts) + requestSalt + Put16(|payload|))
            + Seal(s, key, [1, 0, 0, 0, 0, 0, 0, 0, 0, 0, 0, 0], payload)
  {
    hide Seal, Put16, Put64, Crypto.Primitives.Lawful;
    FirstNonces();
  }

  function ParseResponse(b: Bytes, requestSalt: Bytes, now: int): Result<U16, StreamError>
    requires |b| == 1 + 8 + |requestSalt| + 2
  {
    if b[0] != 1 then Err(BadStreamHeader(TypeMismatch))
    else if !TimestampOk(Get64(b[1..]), now) then Err(BadStreamHeader(BadTimestamp))
    else if b[9..9 + |requestSalt|] != requestSalt then Err(ClientSaltMismatch)
    else Ok(Get16(b[9 + |requestSalt|..]))
  }

  /** The client's first ReadZeroCopy. */
  function ReadResponse(s: Suite, psk: Bytes, prefix: Bytes, requestSalt: Bytes, input: Bytes, now: int):
    Result<(Bytes, Read), StreamError>
    requires |requestSalt| == |psk|
  {
    var saltStart := |prefix|;
    var headerStart := saltStart + |psk|;
    var headerEnd := headerStart + 11 + |psk| + Overhead;
    if |input| < headerEnd then Err(FirstRead)
    else if input[..saltStart] != prefix then Err(PrefixMismatch)
    else
      var key := SessionKey(s, psk, input[saltStart..headerStart]);
      match Open(s, key, NonceOf(0), input[headerStart..headerEnd])
      case None => Err(OpenFailed)
      case Some(h) =>
        match ParseResponse(h, requestSalt, now)
        case Err(e) => Err(e)
        case Ok(len) =>
          var end := headerEnd + len as int + Overhead;
          if |input| < end then Err(ShortRead)
          else
            match Open(s, key, NonceOf(1), input[headerEnd..end])
            case None => Err(OpenFailed)
            case Some(p) => Ok((key, Read(p, input[end..], 2)))
  }

  /** Any bytes at all as a response. */
  lemma ResponseExactly(s: Suite, psk: Bytes, prefix: Bytes, requestSalt: Bytes, input: Bytes, now: int)
    requires |requestSalt| == |psk|
    ensures var n1 := |prefix| + |psk|;
            var n2 := n1 + |psk| + 27;
            var r := ReadResponse(s, psk, prefix, requestSalt, input, now);
            if |input| < n2 then r == Err(FirstRead)
            else if !(prefix <= input) then r == Err(PrefixMismatch)
            else
              var key := SessionKey(s, psk, input[|prefix|..n1]);
              var head := Open(s, key, NonceOf(0), input[n1..n2]);
              if head.None? then r == Err(OpenFailed)
              else
                var len := ParseResponse(head.value, requestSalt, now);
                if len.Err? then r == Err(len.error)
                else
                  var n3 := n2 + len.value as int + 16;
                  if |input| < n3 then r == Err(ShortRead)
                  else
                    var p := Open(s, key, NonceOf(1), input[n2..n3]);
                    if p.None? then r == Err(OpenFailed) else r == Ok((key, Read(p.value, input[n3..], 2)))
  {
    hide Open, ParseResponse, SessionKey, NonceOf, Crypto.Primitives.Lawful;
  }

  lemma ResponseSlices(t: Bytes, ts: Bytes, salt: Bytes, l: Bytes)
    requires |t| == 1 && |ts| == 8 && |l| == 2
    ensures var m := t + ts + salt + l;
            && m[0] == t[0] && m[1..] == ts + (salt + l) && m[9..9 + |salt|] == salt && m[9 + |salt|..] == l + []
  {}

  lemma ParseOfResponse(ts: U64, answered: Bytes, len: U16, requestSalt: Bytes, now: int)
    requires |answered| == |requestSalt|
    ensures ParseResponse(ResponseHeader(ts, answered, len), requestSalt, now) ==
            if !TimestampOk(ts, now) then Err(BadStreamHeader(BadTimestamp))
            else if answered != requestSalt then Err(ClientSaltMismatch)
            else Ok(len)
  {
    hide Put64, Put16, Get64, Get16, TimestampOk;
    ResponseSlices([1], Put64(ts), answered, Put16(len));
    Get64Put64(ts, answered + Put16(len));
    Get16Put16(len, []);
  }

  /** The bytes of an accepted response header: type 1, a timestamp within 30 s, the request's salt, a length. */
  lemma ResponseAccepted(b: Bytes, requestSalt: Bytes, now: int)
    requires |b| == 11 + |requestSalt| && SaneNow(now)
    ensures var r := ParseResponse(b, requestSalt, now);
            var end := 9 + |requestSalt|;
            && (r.Ok? <==> b[0] == 1 && -30 <= ToInt64(Get64(b[1..9])) - now <= 30 && b[9..end] == requestSalt)
            && (r.Ok? ==> r.value == 0x100 * b[end] as int + b[end + 1])
  {
    hide Get64, Get16, ToInt64, TimestampOk;
    BigEndian(b[9 + |requestSalt|..]);
    TimestampOkIsWithin(Get64(b[1..]), now);
    SameField(b);
  }

  /** A written response, exactly: refused for its timestamp, refused for answering another request, or read. */
  lemma ReadOfResponse(s: Suite, psk: Bytes, prefix: Bytes, salt: Bytes, answered: Bytes, ts: U64, payload: Bytes,
                       more: Bytes, requestSalt: Bytes, now: int)
    requires |salt| == |psk| == |requestSalt| == |answered| && |payload| <= MaxPayloadSize
    ensures ReadResponse(s, psk, prefix, requestSalt, Response(s, psk, prefix, salt, answered, ts, payload) + more, now) ==
            if !TimestampOk(ts, now) then Err(BadStreamHeader(BadTimestamp))
            else if answered != requestSalt then Err(ClientSaltMismatch)
            else Ok((SessionKey(s, psk, salt), Read(payload, more, 2)))
  {
    hide Seal, Open, Crypto.Primitives.Lawful, NonceOf, ParseResponse, ResponseHeader, SessionKey, TimestampOk;
    var key := SessionKey(s, psk, salt);
    var a := Seal(s, key, NonceOf(0), ResponseHeader(ts, answered, |payload|));
    var b := Seal(s, key, NonceOf(1), payload);
    assert Response(s, psk, prefix, salt, answered, ts, payload) + more == prefix + salt + [] + a + b + more;
    SixParts(prefix, salt, [], a, b, more);
    ParseOfResponse(ts, answered, |payload|, requestSalt, now);
  }

  /** Server to client: the client reads the chunks the server wrote, in order, and both ends have
      counted the same number of AEAD operations. */
  lemma ServerToClientTransparent(s: Suite, psk: Bytes, prefix: Bytes, salt: Bytes, requestSalt: Bytes, ts: U64,
                                  first: Bytes, writes: seq<Bytes>, now: int)
    requires |salt| == |psk| == |requestSalt| && |first| <= MaxPayloadSize && Writable(writes) && TimestampOk(ts, now)
    ensures var key := SessionKey(s, psk, salt);
            var input := Response(s, psk, prefix, salt, requestSalt, ts, first) + Chunks(s, key, 2, writes);
            var r := ReadResponse(s, psk, prefix, requestSalt, input, now);
            && r.Ok? && r.value.0 == key && r.value.1.payload == first
            && ReadAll(s, key, r.value.1.ops, r.value.1.rest) == Ok((writes, 2 + 2 * |writes|))
  {
    hide Response, ReadResponse, Chunks, ReadAll, TimestampOk, SessionKey, Crypto.Primitives.Lawful;
    ReadOfResponse(s, psk, prefix, salt, requestSalt, ts, first, Chunks(s, SessionKey(s, psk, salt), 2, writes), requestSalt, now);
    ReadAllOfChunks(s, SessionKey(s, psk, salt), 2, writes);
  }
}
