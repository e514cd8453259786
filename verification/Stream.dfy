/** The stream objects: cipher with its nonce counter, chunk writer and reader, and both handshakes,
    working in place on buffers and proved against `StreamWire`. */
module Stream {
  import opened Words
  import opened SocksAddr
  import opened PacketHeader
  import opened Crypto
  import opened PacketPacker
  import opened PacketServer
  import opened StreamWire
  import opened SaltPools

  /** How far each write gets, by its number: None when all of it is sent, otherwise how much before it fails. */
  type Plan = nat -> Option<nat>

  /** The writes from `lo` up to `hi` all got through. */
  ghost predicate Through(plan: Plan, lo: nat, hi: nat) {
    forall k :: lo <= k < hi ==> plan(k).None?
  }

  /** Some first part of `d` was sent. */
  ghost predicate SentPart(before: Bytes, d: Bytes, after: Bytes) {
    exists k :: 0 <= k <= |d| && after == before + d[..k]
  }

  lemma SentPartOfMore(before: Bytes, d: Bytes, e: Bytes, after: Bytes)
    requires SentPart(before, d, after)
    ensures SentPart(before, d + e, after)
  {
    var k :| 0 <= k <= |d| && after == before + d[..k];
    assert (d + e)[..k] == d[..k];
  }

  lemma SentPartAfter(before: Bytes, d: Bytes, e: Bytes, after: Bytes)
    requires SentPart(before + d, e, after)
    ensures SentPart(before, d + e, after)
  {
    var k :| 0 <= k <= |e| && after == before + d + e[..k];
    assert (d + e)[..|d| + k] == d + e[..k];
    assert before + d + e[..k] == before + (d + e[..k]);
  }

  /** A connection: the bytes still to be received and the bytes sent so far. */
  class Conn {
    const plan: Plan
    var inbox: Bytes
    var outbox: Bytes
    var writes: nat

    constructor (inbox: Bytes, plan: Plan)
      ensures this.inbox == inbox && this.plan == plan && outbox == [] && writes == 0
    {
      this.plan, this.inbox, outbox, writes := plan, inbox, [], 0;
    }

    method Write(d: Bytes) returns (ok: bool)
      modifies this`outbox, this`writes
      ensures writes == old(writes) + 1 && (ok <==> plan(old(writes)).None?)
      ensures ok ==> outbox == old(outbox) + d
      ensures !ok ==> SentPart(old(outbox), d, outbox)
    {
      var fate := plan(writes);
      ok := fate.None?;
      var k := if ok then |d| else Min(|d|, fate.value);
      assert d[..|d|] == d;
      outbox, writes := outbox + d[..k], writes + 1;
    }

    /** One read of at most `n` bytes, which the transport fills as far as it can. */
    method Read(n: nat) returns (d: Bytes)
      modifies this`inbox
      ensures d == old(inbox)[..Min(n, |old(inbox)|)] && inbox == old(inbox)[Min(n, |old(inbox)|)..]
    {
      var k := Min(n, |inbox|);
      d, inbox := inbox[..k], inbox[k..];
    }

    /** Reads exactly `n` bytes into a new buffer, or fails when fewer are left. */
    method Take(n: nat) returns (d: Option<Bytes>)
      modifies this`inbox
      ensures if n <= |old(inbox)| then d == Some(old(inbox)[..n]) && inbox == old(inbox)[n..] else d == None
    {
      if |inbox| < n {
        inbox := [];
        return None;
      }
      d := Some(inbox[..n]);
      inbox := inbox[n..];
    }

    /** Fills `b[start..start + len]`, or fails when fewer bytes are left. */
    method ReadFull(b: array<Byte>, start: nat, len: nat) returns (ok: bool)
      requires start + len <= b.Length
      modifies this`inbox, b
      ensures ok <==> len <= |old(inbox)|
      ensures ok ==>
                && inbox == old(inbox)[len..] && b[..] == Patch(old(b[..]), start, old(inbox)[..len])
                && b[start..start + len] == old(inbox)[..len]
    {
      if |inbox| < len {
        inbox := [];
        return false;
      }
      Put(b, start, inbox[..len]);
      inbox := inbox[len..];
      ok := true;
    }
  }

  // ----- nonce -----

  /** What adding one does to a little-endian counter. */
  function Inc(b: Bytes): (r: Bytes)
    ensures |r| == |b|
  {
    if b == [] then [] else if b[0] == 255 then [0] + Inc(b[1..]) else [b[0] + 1] + b[1..]
  }

  lemma {:induction false} IncLE(n: nat, k: nat)
    ensures Inc(LE(n, k)) == LE(n + 1, k)
    decreases k
  {
    if k > 0 {
      assert LE(n, k)[1..] == LE(n / 256, k - 1);
      if n % 256 == 255 {
        IncLE(n / 256, k - 1);
        assert (n + 1) % 256 == 0 && (n + 1) / 256 == n / 256 + 1;
      } else {
        assert (n + 1) % 256 == n % 256 + 1 && (n + 1) / 256 == n / 256;
      }
    }
  }

  /** Carrying out of the byte `x` after `pre`, or stopping there. */
  lemma IncAt(pre: Bytes, x: Byte, rest: Bytes)
    ensures x == 255 ==> pre + Inc([x] + rest) == (pre + [0]) + Inc(rest)
    ensures x == 255 ==> (pre + ([x] + rest))[|pre| := 0] == (pre + [0]) + rest
    ensures x != 255 ==> pre + Inc([x] + rest) == (pre + ([x] + rest))[|pre| := x + 1]
  {
    hide Inc;
    IncCons(x, rest);
    SetMiddle(pre, x, rest, if x == 255 then 0 else x + 1);
  }

  lemma IncCons(x: Byte, rest: Bytes)
    ensures Inc([x] + rest) == if x == 255 then [0] + Inc(rest) else [x + 1] + rest
  {
    assert ([x] + rest)[1..] == rest;
  }

  lemma SetMiddle(pre: Bytes, x: Byte, rest: Bytes, y: Byte)
    ensures (pre + ([x] + rest))[|pre| := y] == (pre + [y]) + rest == pre + ([y] + rest)
    ensures pre + ([y] + Inc(rest)) == (pre + [y]) + Inc(rest)
  {}

  method Increment(b: array<Byte>)
    modifies b
    ensures b[..] == Inc(old(b[..]))
  {
    hide Inc;
    ghost var was := b[..];
    ghost var pre: Bytes := [];
    assert was[0..] == was && pre + Inc(was) == Inc(was);
    var i := 0;
    while i < b.Length
      invariant 0 <= i <= b.Length && |pre| == i
      invariant b[..] == pre + was[i..]
      invariant Inc(was) == pre + Inc(was[i..])
    {
      assert was[i..] == [was[i]] + was[i + 1..];
      assert b[i] == (pre + was[i..])[i] == was[i];
      IncAt(pre, was[i], was[i + 1..]);
      var carry := b[i] == 255;
      b[i] := if carry then 0 else b[i] + 1;
      if !carry {
        return;
      }
      pre := pre + [0];
      i := i + 1;
    }
    assert was[i..] == [];
    IncEmpty(was[i..]);
  }

  lemma IncEmpty(b: Bytes)
    requires b == []
    ensures Inc(b) == []
  {}

  // ----- cipher -----

  class ShadowStreamCipher {
    const suite: Suite
    const key: Bytes
    const nonce: array<Byte>
    /** AEAD operations done so far. */
    ghost var ops: nat

    ghost predicate Valid()
      reads this, nonce
    {
      nonce[..] == NonceOf(ops)
    }

    constructor (suite: Suite, psk: Bytes, salt: Bytes)
      ensures Valid() && ops == 0 && this.suite == suite && key == SessionKey(suite, psk, salt) && fresh(nonce)
    {
      this.suite, key, ops := suite, SessionKey(suite, psk, salt), 0;
      nonce := new Byte[NonceSize](_ => 0);
      new;
      ZeroNonce(nonce[..], NonceSize);
    }

    method Advance()
      requires Valid()
      modifies this, nonce
      ensures Valid() && ops == old(ops) + 1
    {
      hide LE, Inc;
      IncLE(ops, NonceSize);
      Increment(nonce);
      ops := ops + 1;
    }

    /** Seals `b[start..start + len]` over itself and the 16 bytes after it. */
    method EncryptInPlace(b: array<Byte>, start: nat, len: nat)
      requires Valid() && b != nonce && start + len + Overhead <= b.Length
      modifies this, nonce, b
      ensures Valid() && ops == old(ops) + 1
      ensures b[..] == Patch(old(b[..]), start, Seal(suite, key, NonceOf(old(ops)), old(b[start..start + len])))
    {
      hide Seal, NonceOf, Patch, Crypto.Primitives.Lawful;
      Put(b, start, Seal(suite, key, nonce[..], b[start..start + len]));
      Advance();
    }

    method Encrypt(plain: Bytes) returns (sealed: Bytes)
      requires Valid()
      modifies this, nonce
      ensures Valid() && ops == old(ops) + 1 && sealed == Seal(suite, key, NonceOf(old(ops)), plain)
    {
      hide Seal, NonceOf, Crypto.Primitives.Lawful;
      sealed := Seal(suite, key, nonce[..], plain);
      Advance();
    }

    method Decrypt(sealed: Bytes) returns (plain: Option<Bytes>)
      requires Valid()
      modifies this, nonce
      ensures Valid() && plain == Open(suite, key, NonceOf(old(ops)), sealed)
      ensures ops == old(ops) + (if plain.Some? then 1 else 0)
    {
      hide Open, NonceOf, Crypto.Primitives.Lawful;
      plain := Open(suite, key, nonce[..], sealed);
      if plain.Some? {
        Advance();
      }
    }

    /** Opens `b[start..start + len]` in place; a failed operation does not advance the nonce. */
    method DecryptInPlace(b: array<Byte>, start: nat, len: nat) returns (plain: Option<Bytes>)
      requires Valid() && b != nonce && start + len <= b.Length
      modifies this, nonce, b
      ensures Valid() && plain == Open(suite, key, NonceOf(old(ops)), old(b[start..start + len]))
      ensures ops == old(ops) + (if plain.Some? then 1 else 0)
      ensures plain.Some? ==>
                b[..] == Patch(old(b[..]), start, plain.value) && b[start..start + |plain.value|] == plain.value
    {
      hide Open, NonceOf, Patch, Crypto.Primitives.Lawful;
      plain := Open(suite, key, nonce[..], b[start..start + len]);
      if plain.Some? {
        Put(b, start, plain.value);
        Advance();
      }
    }
  }

  lemma {:induction false} ZeroNonce(b: Bytes, k: nat)
    requires |b| == k && forall i :: 0 <= i < k ==> b[i] == 0
    ensures b == LE(0, k)
    decreases k
  {
    if k > 0 {
      ZeroNonce(b[1..], k - 1);
      assert b == [b[0]] + b[1..];
    }
  }

  // ----- writer and reader -----

  class ShadowStreamWriter {
    const conn: Conn
    const ssc: ShadowStreamCipher

    constructor (conn: Conn, ssc: ShadowStreamCipher)
      ensures this.conn == conn && this.ssc == ssc
    {
      this.conn, this.ssc := conn, ssc;
    }

    /** Needs 18 bytes of front room and 16 of rear room around the payload, and touches nothing else. */
    method WriteZeroCopy(b: array<Byte>, payloadStart: nat, payloadLen: nat) returns (ok: bool)
      requires ssc.Valid() && b != ssc.nonce && payloadLen <= MaxPayloadSize
      requires 2 + Overhead <= payloadStart && payloadStart + payloadLen + Overhead <= b.Length
      modifies conn`outbox, conn`writes, ssc, ssc.nonce, b
      ensures ssc.Valid() && ssc.ops == old(ssc.ops) + 2
      ensures conn.writes == old(conn.writes) + 1 && (ok <==> conn.plan(old(conn.writes)).None?)
      ensures var chunk := Chunk(ssc.suite, ssc.key, old(ssc.ops), old(b[payloadStart..payloadStart + payloadLen]));
              && (ok ==> conn.outbox == old(conn.outbox) + chunk)
              && (!ok ==> SentPart(old(conn.outbox), chunk, conn.outbox))
              && b[..] == Patch(old(b[..]), payloadStart - 18, chunk)
    {
      hide Seal, NonceOf, Patch, Put16, Crypto.Primitives.Lawful;
      var lengthStart := payloadStart - Overhead - 2;
      ghost var b0 := b[..];
      ghost var payload := b[payloadStart..payloadStart + payloadLen];
      Put(b, lengthStart, Put16(payloadLen));
      ssc.EncryptInPlace(b, lengthStart, 2);
      ghost var sealedLen := Seal(ssc.suite, ssc.key, NonceOf(old(ssc.ops)), Put16(payloadLen));
      PatchTwice(b0, lengthStart, Put16(payloadLen), sealedLen);
      PatchKeepsAfter(b0, lengthStart, sealedLen, payloadStart, payloadLen);
      ssc.EncryptInPlace(b, payloadStart, payloadLen);
      ghost var sealed := Seal(ssc.suite, ssc.key, NonceOf(old(ssc.ops) + 1), payload);
      PatchAppend(b0, lengthStart, sealedLen, sealed);
      PatchSlice(b0, lengthStart, sealedLen + sealed);
      ok := conn.Write(b[lengthStart..payloadStart + payloadLen + Overhead]);
    }
  }

  lemma PatchKeepsAfter(s: Bytes, at: nat, d: Bytes, start: nat, len: nat)
    requires at + |d| <= start && start + len <= |s|
    ensures Patch(s, at, d)[start..start + len] == s[start..start + len]
  {}

  class ShadowStreamReader {
    const conn: Conn
    const ssc: ShadowStreamCipher

    constructor (conn: Conn, ssc: ShadowStreamCipher)
      ensures this.conn == conn && this.ssc == ssc
    {
      this.conn, this.ssc := conn, ssc;
    }

    /** The payload lands in `b[payloadBufStart..payloadBufStart + payloadLen]`. */
    method ReadZeroCopy(b: array<Byte>, payloadBufStart: nat) returns (r: Result<nat, StreamError>)
      requires ssc.Valid() && b != ssc.nonce
      requires 2 + Overhead <= payloadBufStart && payloadBufStart + MaxPayloadSize + Overhead <= b.Length
      modifies conn`inbox, ssc, ssc.nonce, b
      ensures ssc.Valid()
      ensures match ReadChunk(ssc.suite, ssc.key, old(ssc.ops), old(conn.inbox))
              case Err(e) => r == Err(e)
              case Ok(c) =>
                && r == Ok(|c.payload|) && conn.inbox == c.rest && ssc.ops == c.ops
                && b[payloadBufStart..payloadBufStart + |c.payload|] == c.payload
    {
      hide Open, NonceOf, Patch, Get16, Crypto.Primitives.Lawful;
      ghost var input := conn.inbox;
      var lengthStart := payloadBufStart - Overhead - 2;
      var ok := conn.ReadFull(b, lengthStart, 2 + Overhead);
      if !ok {
        return Err(ShortRead);
      }
      var length := ssc.DecryptInPlace(b, lengthStart, 2 + Overhead);
      if length.None? {
        return Err(OpenFailed);
      }
      var payloadLen := Get16(length.value);
      if payloadLen == 0 {
        return Err(ZeroLengthChunk);
      }
      ok := conn.ReadFull(b, payloadBufStart, payloadLen + Overhead);
      if !ok {
        return Err(ShortRead);
      }
      DropTake(input, 18, payloadLen + Overhead);
      var plain := ssc.DecryptInPlace(b, payloadBufStart, payloadLen + Overhead);
      if plain.None? {
        return Err(OpenFailed);
      }
      r := Ok(payloadLen);
    }
  }

  lemma DropTake(s: Bytes, k: nat, n: nat)
    requires k + n <= |s|
    ensures s[k..][..n] == s[k..k + n] && s[k..][n..] == s[k + n..]
  {}

  // ----- client handshake -----

  lemma PatchFrame(s: Bytes, at: nat, d: Bytes)
    requires at + |d| <= |s|
    ensures var t := Patch(s, at, d);
            && t[..at] == s[..at] && t[at..at + |d|] == d && t[at + |d|..] == s[at + |d|..]
            && t[..at + |d|] == s[..at] + d
  {}

  lemma {:induction false} SplitStep(excess: Bytes)
    requires excess != []
    ensures var n := if |excess| <= MaxPayloadSize then |excess| else MaxPayloadSize;
            Split(excess) == [excess[..n]] + Split(excess[n..])
  {
    if |excess| <= MaxPayloadSize {
      assert excess[..|excess|] == excess;
    }
  }

  /** Writes the payload that did not fit into the request, reusing the variable-length header's
      place in the buffer. Nothing before the length chunk's place is touched. */
  method WriteExcess(w: ShadowStreamWriter, b: array<Byte>, start: nat, payload: Bytes) returns (ok: bool)
    requires w.ssc.Valid() && b != w.ssc.nonce && 18 <= start && start + MaxPayloadSize + Overhead <= b.Length
    modifies w.conn`outbox, w.conn`writes, w.ssc, w.ssc.nonce, b
    ensures w.ssc.Valid() && old(w.conn.writes) <= w.conn.writes
    ensures ok <==> Through(w.conn.plan, old(w.conn.writes), w.conn.writes)
    ensures ok ==> w.ssc.ops == old(w.ssc.ops) + 2 * |Split(payload)|
    ensures var chunks := Chunks(w.ssc.suite, w.ssc.key, old(w.ssc.ops), Split(payload));
            if ok then w.conn.outbox == old(w.conn.outbox) + chunks else SentPart(old(w.conn.outbox), chunks, w.conn.outbox)
    ensures b[..start - 18] == old(b[..start - 18])
  {
    hide Chunks, Chunk, Split, Patch, NonceOf, Crypto.Primitives.Lawful, SentPart, ShadowStreamCipher.Valid;
    var excess := payload;
    ghost var s, key, before := w.ssc.suite, w.ssc.key, w.conn.outbox;
    ghost var all := Chunks(s, key, w.ssc.ops, Split(payload));
    ghost var sent: Bytes := [];
    assert before + [] == before && [] + all == all;
    while |excess| > 0
      invariant w.ssc.Valid() && old(w.conn.writes) <= w.conn.writes && Through(w.conn.plan, old(w.conn.writes), w.conn.writes)
      invariant w.ssc.ops + 2 * |Split(excess)| == old(w.ssc.ops) + 2 * |Split(payload)|
      invariant w.conn.outbox == before + sent && all == sent + Chunks(s, key, w.ssc.ops, Split(excess))
      invariant b[..start - 18] == old(b[..start - 18])
    {
      var n := if |excess| <= MaxPayloadSize then |excess| else MaxPayloadSize;
      SplitStep(excess);
      ChunksCons(s, key, w.ssc.ops, Split(excess));
      assert Split(excess)[1..] == Split(excess[n..]);
      ghost var chunk, rest := Chunk(s, key, w.ssc.ops, excess[..n]), Chunks(s, key, w.ssc.ops + 2, Split(excess[n..]));
      var piece := PutPiece(w, b, start, excess[..n]);
      if !piece {
        PartSent(before, sent, chunk, rest, w.conn.outbox);
        return false;
      }
      Assoc(before, sent, chunk);
      Assoc(sent, chunk, rest);
      sent := sent + chunk;
      excess := excess[n..];
    }
    SplitNil(excess);
    ChunksNil(s, key, w.ssc.ops, Split(excess));
    assert sent + [] == sent;
    return true;
  }

  lemma PartSent(before: Bytes, sent: Bytes, chunk: Bytes, rest: Bytes, after: Bytes)
    requires SentPart(before + sent, chunk, after)
    ensures SentPart(before, sent + (chunk + rest), after)
  {
    hide SentPart;
    SentPartAfter(before, sent, chunk, after);
    SentPartOfMore(before, sent + chunk, rest, after);
    Assoc(sent, chunk, rest);
  }

  lemma SplitNil(excess: Bytes)
    requires excess == []
    ensures Split(excess) == []
  {}

  method PutPiece(w: ShadowStreamWriter, b: array<Byte>, start: nat, piece: Bytes) returns (ok: bool)
    requires w.ssc.Valid() && b != w.ssc.nonce && 18 <= start && |piece| <= MaxPayloadSize
    requires start + |piece| + Overhead <= b.Length
    modifies w.conn`outbox, w.conn`writes, w.ssc, w.ssc.nonce, b
    ensures w.ssc.Valid() && w.ssc.ops == old(w.ssc.ops) + 2
    ensures w.conn.writes == old(w.conn.writes) + 1 && (ok <==> w.conn.plan(old(w.conn.writes)).None?)
    ensures var chunk := Chunk(w.ssc.suite, w.ssc.key, old(w.ssc.ops), piece);
            if ok then w.conn.outbox == old(w.conn.outbox) + chunk else SentPart(old(w.conn.outbox), chunk, w.conn.outbox)
    ensures b[..start - 18] == old(b[..start - 18])
  {
    hide Chunk, Patch, NonceOf, Crypto.Primitives.Lawful;
    PatchFrame(b[..], start, piece);
    ghost var b1 := Patch(b[..], start, piece);
    assert b1[..start - 18] == b1[..start][..start - 18] == b[..start - 18];
    Put(b, start, piece);
    PatchFrame(b1, start - 18, Chunk(w.ssc.suite, w.ssc.key, w.ssc.ops, piece));
    ok := w.WriteZeroCopy(b, start, |piece|);
  }

  method WriteIdentityBlocks(s: Suite, keys: ClientKeys, b: array<Byte>, start: nat, salt: Bytes)
    requires start + |keys.ipsks| * IdentityHeaderLength <= b.Length
    modifies b
    ensures b[..] == Patch(old(b[..]), start, IdentityBlocks(s, keys, salt, |keys.ipsks|))
  {
    hide Patch, IdentityBlocks, IdentityBlock, Crypto.Primitives.Lawful;
    IdentityBlocksNone(s, keys, salt, b[..], start);
    for i := 0 to |keys.ipsks|
      invariant b[..] == Patch(old(b[..]), start, IdentityBlocks(s, keys, salt, i))
    {
      IdentityBlocksStep(s, keys, salt, i, old(b[..]), start);
      Put(b, start + i * IdentityHeaderLength, IdentityBlock(s, keys, salt, i));
    }
  }

  lemma IdentityBlocksNone(s: Suite, keys: ClientKeys, salt: Bytes, b: Bytes, start: nat)
    requires start <= |b|
    ensures Patch(b, start, IdentityBlocks(s, keys, salt, 0)) == b
  {}

  lemma IdentityBlocksStep(s: Suite, keys: ClientKeys, salt: Bytes, i: nat, b: Bytes, start: nat)
    requires i < |keys.ipsks| && start + |keys.ipsks| * IdentityHeaderLength <= |b|
    ensures start + (i + 1) * IdentityHeaderLength <= |b|
    ensures Patch(Patch(b, start, IdentityBlocks(s, keys, salt, i)), start + i * IdentityHeaderLength,
                  IdentityBlock(s, keys, salt, i))
         == Patch(b, start, IdentityBlocks(s, keys, salt, i + 1))
  {
    hide Patch, IdentityBlock, Crypto.Primitives.Lawful;
    PatchAppend(b, start, IdentityBlocks(s, keys, salt, i), IdentityBlock(s, keys, salt, i));
  }

  /** WriteTCPRequestVariableLengthHeader: the room left between header and payload is padding. */
  method WriteVariable(b: array<Byte>, start: nat, padLen: nat, target: Addr, payload: Bytes) returns (ghost pad: Bytes)
    requires padLen <= 0xffff && start + LengthOf(target) + 2 + padLen + |payload| <= b.Length
    modifies b
    ensures |pad| == padLen
    ensures b[..] == Patch(old(b[..]), start, VariableHeader(target, pad, payload))
  {
    hide Encode, LengthOf, Put16, Patch;
    var head := Encode(target) + Put16(padLen);
    pad := b[start + |head|..start + |head| + padLen];
    PatchAround2(b[..], start, head, pad, payload);
    Put(b, start, head);
    Put(b, start + |head| + padLen, payload);
  }

  lemma PatchAround2(s: Bytes, at: nat, head: Bytes, pad: Bytes, payload: Bytes)
    requires at + |head| + |pad| + |payload| <= |s|
    requires s[at + |head|..at + |head| + |pad|] == pad
    ensures Patch(Patch(s, at, head), at + |head| + |pad|, payload) == Patch(s, at, head + pad + payload)
  {}

  /** Fills everything of the request buffer but the sealing: prefix, salt and identity headers in
      front, the variable-length header at `vStart`, the fixed-length header before its tag. */
  method FillRequest(s: Suite, keys: ClientKeys, b: array<Byte>, prefix: Bytes, salt: Bytes, ts: U64, target: Addr,
                     padLen: nat, payload: Bytes)
    returns (fixedStart: nat, vLen: nat, ghost pad: Bytes)
    requires padLen <= 0xffff && LengthOf(target) + 2 + padLen + |payload| <= MaxPayloadSize
    requires b.Length == |prefix| + |salt| + |keys.ipsks| * IdentityHeaderLength + 11 + Overhead
                         + LengthOf(target) + 2 + padLen + |payload| + Overhead
    modifies b
    ensures |pad| == padLen && vLen == LengthOf(target) + 2 + padLen + |payload|
    ensures fixedStart == |prefix| + |salt| + |keys.ipsks| * IdentityHeaderLength
    ensures b[..fixedStart] == prefix + salt + IdentityBlocks(s, keys, salt, |keys.ipsks|)
    ensures b[fixedStart..fixedStart + 11] == FixedHeader(ts, vLen)
    ensures b[fixedStart + 11 + Overhead..fixedStart + 11 + Overhead + vLen] == VariableHeader(target, pad, payload)
  {
    hide Patch, IdentityBlocks, VariableHeader, FixedHeader, Encode, LengthOf, Crypto.Primitives.Lawful;
    fixedStart := FillFront(s, keys, b, prefix, salt);
    vLen := LengthOf(target) + 2 + padLen + |payload|;
    ghost var b3 := b[..];
    assert b3[..fixedStart] == b[..fixedStart];
    var vStart := fixedStart + 11 + Overhead;
    pad := WriteVariable(b, vStart, padLen, target, payload);
    ghost var b4 := b[..];
    PatchFrame(b3, vStart, VariableHeader(target, pad, payload));
    assert b4[..fixedStart] == b4[..vStart][..fixedStart] == b3[..fixedStart];
    Put(b, fixedStart, FixedHeader(ts, vLen));
    PatchFrame(b4, fixedStart, FixedHeader(ts, vLen));
    PatchKeepsAfter(b4, fixedStart, FixedHeader(ts, vLen), vStart, vLen);
    assert b[..fixedStart] == b[..][..fixedStart];
  }

  /** Prefix, salt and identity headers. */
  method FillFront(s: Suite, keys: ClientKeys, b: array<Byte>, prefix: Bytes, salt: Bytes) returns (end: nat)
    requires |prefix| + |salt| + |keys.ipsks| * IdentityHeaderLength <= b.Length
    modifies b
    ensures end == |prefix| + |salt| + |keys.ipsks| * IdentityHeaderLength
    ensures b[..end] == prefix + salt + IdentityBlocks(s, keys, salt, |keys.ipsks|)
  {
    hide Patch, IdentityBlocks, Crypto.Primitives.Lawful;
    ghost var ids := IdentityBlocks(s, keys, salt, |keys.ipsks|);
    var idStart := |prefix| + |salt|;
    end := idStart + |keys.ipsks| * IdentityHeaderLength;
    PatchFrame(b[..], 0, prefix);
    Put(b, 0, prefix);
    assert b[..|prefix|] == prefix;
    PatchFrame(b[..], |prefix|, salt);
    Put(b, |prefix|, salt);
    assert b[..idStart] == prefix + salt;
    PatchFrame(b[..], idStart, ids);
    WriteIdentityBlocks(s, keys, b, idStart, salt);
  }

  /** Seals both headers in place: the buffer becomes the request. */
  method SealRequest(ssc: ShadowStreamCipher, b: array<Byte>, fixedStart: nat, vLen: nat)
    requires ssc.Valid() && ssc.ops == 0 && b != ssc.nonce
    requires b.Length == fixedStart + 11 + Overhead + vLen + Overhead
    modifies ssc, ssc.nonce, b
    ensures ssc.Valid() && ssc.ops == 2
    ensures var vStart := fixedStart + 11 + Overhead;
            b[..] == old(b[..fixedStart])
                     + Seal(ssc.suite, ssc.key, NonceOf(0), old(b[fixedStart..fixedStart + 11]))
                     + Seal(ssc.suite, ssc.key, NonceOf(1), old(b[vStart..vStart + vLen]))
  {
    hide Patch, Seal, NonceOf, Crypto.Primitives.Lawful;
    var vStart := fixedStart + 11 + Overhead;
    ghost var b0 := b[..];
    ghost var x := Seal(ssc.suite, ssc.key, NonceOf(0), b[fixedStart..fixedStart + 11]);
    PatchFrame(b0, fixedStart, x);
    PatchKeepsAfter(b0, fixedStart, x, vStart, vLen);
    ssc.EncryptInPlace(b, fixedStart, 11);
    ghost var b1 := b[..];
    ghost var y := Seal(ssc.suite, ssc.key, NonceOf(1), b[vStart..vStart + vLen]);
    PatchFrame(b1, vStart, y);
    ssc.EncryptInPlace(b, vStart, vLen);
    assert b[..vStart + |y|] == b[..];
  }

  /** NewShadowStreamClientReadWriter: sends the request and the excess payload; the saved request
      salt, which lives in the reused buffer, is intact afterwards. It fails exactly when one of its writes does,
      and then a first part of the same bytes was sent. */
  method NewClient(s: Suite, keys: ClientKeys, conn: Conn, prefix: Bytes, salt: Bytes, ts: U64, target: Addr,
                   initial: Bytes, draw: nat)
    returns (w: ShadowStreamWriter?, b: array<Byte>, ghost pad: Bytes)
    modifies conn`outbox, conn`writes
    ensures old(conn.writes) < conn.writes && (w != null <==> Through(conn.plan, old(conn.writes), conn.writes))
    ensures w != null ==>
              && fresh(w) && fresh(w.ssc) && fresh(w.ssc.nonce) && w.conn == conn
              && w.ssc.Valid() && w.ssc.suite == s && w.ssc.key == SessionKey(s, keys.psk, salt)
              && w.ssc.ops == ClientOps(target, initial, 0) && w.ssc.nonce != b
    ensures PaddedFor(target, initial, pad, draw)
    ensures var request := Request(s, keys, prefix, salt, ts, target, pad, FirstPayload(target, initial), ExcessPayload(target, initial));
            if w != null then conn.outbox == old(conn.outbox) + request else SentPart(old(conn.outbox), request, conn.outbox)
    ensures fresh(b) && |prefix| + |salt| <= b.Length && b[|prefix|..|prefix| + |salt|] == salt
  {
    hide Patch, Crypto.Primitives.Lawful, Chunks, Split, Request, RequestHead, SessionKey, Encode, LengthOf,
         PaddingPayloadLen, RoomForPayload, FirstPayload, ExcessPayload, SaltAt, ShadowStreamCipher.Valid, NonceOf, SentPart;
    RequestSizes(target, initial, draw);
    var payload, excess := FirstPayload(target, initial), ExcessPayload(target, initial);
    var paddingPayloadLen := PaddingPayloadLen(|initial|, RoomForPayload(target), draw);
    var padLen := paddingPayloadLen - |payload|;
    var ssc, fixedStart;
    b, ssc, fixedStart, pad := BuildRequest(s, keys, prefix, salt, ts, target, padLen, payload);
    RequestInParts(s, keys, prefix, salt, ts, target, pad, payload, excess);
    ghost var head, chunks := b[..], Chunks(s, ssc.key, 2, Split(excess));
    var ok := conn.Write(b[..]);
    if !ok {
      SaltInFront(b, fixedStart + 9, |prefix|, salt);
      SentPartOfMore(old(conn.outbox), head, chunks, conn.outbox);
      return null, b, pad;
    }
    w := new ShadowStreamWriter(conn, ssc);
    ok := SendExcess(w, b, fixedStart + 11 + Overhead, excess);
    SaltInFront(b, fixedStart + 9, |prefix|, salt);
    if !ok {
      SentPartAfter(old(conn.outbox), head, chunks, conn.outbox);
      return null, b, pad;
    }
    Assoc(old(conn.outbox), head, chunks);
  }

  /** The rest of the initial payload, if any, through the buffer of the request. */
  method SendExcess(w: ShadowStreamWriter, b: array<Byte>, start: nat, excess: Bytes) returns (ok: bool)
    requires w.ssc.Valid() && b != w.ssc.nonce && 18 <= start <= b.Length
    requires |excess| > 0 ==> start + MaxPayloadSize + Overhead <= b.Length
    modifies w.conn`outbox, w.conn`writes, w.ssc, w.ssc.nonce, b
    ensures w.ssc.Valid() && old(w.conn.writes) <= w.conn.writes
    ensures ok <==> Through(w.conn.plan, old(w.conn.writes), w.conn.writes)
    ensures ok ==> w.ssc.ops == old(w.ssc.ops) + 2 * |Split(excess)|
    ensures var chunks := Chunks(w.ssc.suite, w.ssc.key, old(w.ssc.ops), Split(excess));
            if ok then w.conn.outbox == old(w.conn.outbox) + chunks else SentPart(old(w.conn.outbox), chunks, w.conn.outbox)
    ensures b[..start - 18] == old(b[..start - 18])
  {
    hide Chunks, Split, Crypto.Primitives.Lawful, SentPart, ShadowStreamCipher.Valid;
    if |excess| > 0 {
      ok := WriteExcess(w, b, start, excess);
    } else {
      SplitNil(excess);
      ChunksNil(w.ssc.suite, w.ssc.key, w.ssc.ops, Split(excess));
      ok := true;
    }
  }

  /** Padding fills the request up; excess payload is left only by a full request. */
  lemma RequestSizes(target: Addr, initial: Bytes, draw: nat)
    ensures var payload, excess := FirstPayload(target, initial), ExcessPayload(target, initial);
            var padLen := PaddingPayloadLen(|initial|, RoomForPayload(target), draw) - |payload|;
            && 0 <= padLen <= 0xffff && LengthOf(target) + 2 + padLen + |payload| <= MaxPayloadSize
            && (|excess| > 0 ==> LengthOf(target) + 2 + padLen + |payload| == MaxPayloadSize)
  {
    hide LengthOf;
  }

  ghost predicate SaltAt(s: Bytes, at: nat, salt: Bytes) {
    at + |salt| <= |s| && s[at..at + |salt|] == salt
  }

  lemma SaltInFront(b: array<Byte>, k: nat, at: nat, salt: Bytes)
    requires k <= b.Length && SaltAt(b[..k], at, salt)
    ensures at + |salt| <= b.Length && b[at..at + |salt|] == salt
  {
    assert b[..k][at..at + |salt|] == b[at..at + |salt|];
  }

  ghost function RequestHead(s: Suite, keys: ClientKeys, prefix: Bytes, salt: Bytes, ts: U64, target: Addr, pad: Bytes,
                             payload: Bytes): Bytes
    requires |pad| <= 0xffff && LengthOf(target) + 2 + |pad| + |payload| <= MaxPayloadSize
  {
    var key := SessionKey(s, keys.psk, salt);
    var v := VariableHeader(target, pad, payload);
    prefix + salt + IdentityBlocks(s, keys, salt, |keys.ipsks|)
    + Seal(s, key, NonceOf(0), FixedHeader(ts, |v|)) + Seal(s, key, NonceOf(1), v)
  }

  /** The buffer of the request, filled and sealed; the salt in it stays where it is. */
  method BuildRequest(s: Suite, keys: ClientKeys, prefix: Bytes, salt: Bytes, ts: U64, target: Addr, padLen: nat, payload: Bytes)
    returns (b: array<Byte>, ssc: ShadowStreamCipher, fixedStart: nat, ghost pad: Bytes)
    requires padLen <= 0xffff && LengthOf(target) + 2 + padLen + |payload| <= MaxPayloadSize
    ensures fresh(b) && fresh(ssc) && fresh(ssc.nonce) && b != ssc.nonce
    ensures ssc.Valid() && ssc.ops == 2 && ssc.suite == s && ssc.key == SessionKey(s, keys.psk, salt)
    ensures |pad| == padLen
    ensures b.Length == fixedStart + 11 + Overhead + LengthOf(target) + 2 + padLen + |payload| + Overhead
    ensures b[..] == RequestHead(s, keys, prefix, salt, ts, target, pad, payload)
    ensures SaltAt(b[..fixedStart + 9], |prefix|, salt)
  {
    hide Patch, Seal, NonceOf, Crypto.Primitives.Lawful, IdentityBlocks, VariableHeader, FixedHeader,
         SessionKey, Encode, LengthOf;
    b := new Byte[|prefix| + |salt| + |keys.ipsks| * IdentityHeaderLength + 11 + Overhead
                  + LengthOf(target) + 2 + padLen + |payload| + Overhead](_ => 0);
    var vLen;
    fixedStart, vLen, pad := FillRequest(s, keys, b, prefix, salt, ts, target, padLen, payload);
    ssc := new ShadowStreamCipher(s, keys.psk, salt);
    SealRequest(ssc, b, fixedStart, vLen);
    SaltInHead(prefix, salt, IdentityBlocks(s, keys, salt, |keys.ipsks|),
               Seal(s, ssc.key, NonceOf(0), FixedHeader(ts, vLen)),
               Seal(s, ssc.key, NonceOf(1), VariableHeader(target, pad, payload)), b[..], fixedStart);
  }

  lemma RequestInParts(s: Suite, keys: ClientKeys, prefix: Bytes, salt: Bytes, ts: U64, target: Addr, pad: Bytes,
                       payload: Bytes, excess: Bytes)
    requires |pad| <= 0xffff && LengthOf(target) + 2 + |pad| + |payload| <= MaxPayloadSize
    ensures Request(s, keys, prefix, salt, ts, target, pad, payload, excess)
         == RequestHead(s, keys, prefix, salt, ts, target, pad, payload) + Chunks(s, SessionKey(s, keys.psk, salt), 2, Split(excess))
  {}

  lemma SaltInHead(prefix: Bytes, salt: Bytes, ids: Bytes, x: Bytes, y: Bytes, head: Bytes, fixedStart: nat)
    requires head == prefix + salt + ids + x + y && fixedStart == |prefix| + |salt| + |ids| && |x| + |y| >= 9
    ensures SaltAt(head[..fixedStart + 9], |prefix|, salt)
  {
    var rest := ids + x + y;
    assert head == prefix + (salt + rest);
    assert head[|prefix|..] == salt + rest;
    assert head[|prefix|..|prefix| + |salt|] == head[|prefix|..][..|salt|];
    SubSlice(head, 0, fixedStart + 9, |prefix|, |prefix| + |salt|);
    assert head[0..fixedStart + 9] == head[..fixedStart + 9];
  }

  // ----- server handshake -----

  /** NewShadowStreamServerReadWriter: a request is accepted as `AcceptRequest` says, the salt pool
      being consulted after the timestamp and before the rest is read: whatever follows, a salt that got so far
      is in the pool. What was read of a request that could not be authenticated is handed back. */
  method NewServer(s: Suite, cfg: ServerConfig, conn: Conn, pool: SaltPool, prefix: Bytes, now: int, t: int)
    returns (r: Result<Accept, StreamError>, reader: ShadowStreamReader?, seen: Bytes)
    modifies conn`inbox, pool
    ensures var p := old(pool.Spec());
            r == AcceptRequest(s, cfg, prefix, old(conn.inbox), now, (salt: Bytes) => AddTo(p, salt, t).1)
    ensures var fixed := AcceptFixed(s, cfg, prefix, old(conn.inbox), now);
            && pool.Spec() == (if fixed.Ok? then AddTo(old(pool.Spec()), fixed.value.salt, t).0 else old(pool.Spec()))
            && seen == (if fixed.Err? && Unauthenticated(fixed.error)
                        then old(conn.inbox)[..Min(FixedEnd(cfg, prefix), |old(conn.inbox)|)] else [])
    ensures reader != null <==> r.Ok?
    ensures r.Ok? ==>
              && fresh(reader) && fresh(reader.ssc) && fresh(reader.ssc.nonce)
              && reader.conn == conn && conn.inbox == r.value.rest
              && reader.ssc.Valid() && reader.ssc.ops == 2
              && reader.ssc.suite == s && reader.ssc.key == r.value.key
  {
    hide AcceptFixed, AcceptVariable, SessionKey, AddTo, Crypto.Primitives.Lawful, ShadowStreamCipher.Valid;
    ghost var p := pool.Spec();
    var fixed, ssc;
    fixed, ssc, seen := ReadFixedPart(s, cfg, conn, prefix, now);
    if fixed.Err? {
      return Err(fixed.error), null, seen;
    }
    var ok := pool.Add(fixed.value.salt, t);
    if !ok {
      return Err(RepeatedSalt), null, seen;
    }
    r := ReadVariablePart(conn, ssc, fixed.value);
    reader := null;
    if r.Ok? {
      reader := new ShadowStreamReader(conn, ssc);
    }
  }

  /** Salt, identity header and fixed-length header of a request. */
  method ReadFixedPart(s: Suite, cfg: ServerConfig, conn: Conn, prefix: Bytes, now: int)
    returns (r: Result<FixedPart, StreamError>, ssc: ShadowStreamCipher, seen: Bytes)
    modifies conn`inbox
    ensures r == AcceptFixed(s, cfg, prefix, old(conn.inbox), now)
    ensures fresh(ssc) && fresh(ssc.nonce)
    ensures r.Ok? ==>
              && FixedEnd(cfg, prefix) <= |old(conn.inbox)| && conn.inbox == old(conn.inbox)[FixedEnd(cfg, prefix)..]
              && ssc.Valid() && ssc.ops == 1 && ssc.suite == s && ssc.key == SessionKey(s, r.value.psk, r.value.salt)
    ensures seen == if r.Err? && Unauthenticated(r.error) then old(conn.inbox)[..Min(FixedEnd(cfg, prefix), |old(conn.inbox)|)] else []
  {
    hide Open, NonceOf, Crypto.Primitives.Lawful, SessionKey, StreamUser, ShadowStreamCipher.Valid;
    ssc := new ShadowStreamCipher(s, [], []);
    ghost var input := conn.inbox;
    var idStart := |prefix| + |cfg.psk|;
    var fixedStart := idStart + cfg.IdentityLen();
    var bufferLen := fixedStart + 11 + Overhead;
    var b := conn.Read(bufferLen);
    if |b| < bufferLen {
      return Err(StreamError.FirstRead), ssc, b;
    }
    TakeSlices(input, bufferLen, |prefix|, idStart, fixedStart);
    if b[..|prefix|] != prefix {
      return Err(PrefixMismatch), ssc, b;
    }
    var salt := b[|prefix|..idStart];
    UserErrors(s, cfg, salt, b[idStart..fixedStart]);
    var user := StreamUser(s, cfg, salt, b[idStart..fixedStart]);
    if user.Err? {
      return Err(user.error), ssc, b;
    }
    ssc := new ShadowStreamCipher(s, user.value, salt);
    var fixed := ssc.Decrypt(b[fixedStart..]);
    if fixed.None? {
      return Err(OpenFailed), ssc, b;
    }
    seen := [];
    var vlen := ParseFixed(fixed.value, now);
    if vlen.Err? {
      return Err(vlen.error), ssc, seen;
    }
    r := Ok(FixedPart(user.value, salt, vlen.value));
  }

  lemma UserErrors(s: Suite, cfg: ServerConfig, salt: Bytes, identity: Bytes)
    requires |identity| == cfg.IdentityLen()
    ensures StreamUser(s, cfg, salt, identity).Err? ==> StreamUser(s, cfg, salt, identity).error.UserNotFound?
  {}

  /** The variable-length header, once the salt is known to be new. */
  method ReadVariablePart(conn: Conn, ssc: ShadowStreamCipher, f: FixedPart) returns (r: Result<Accept, StreamError>)
    requires ssc.Valid() && ssc.ops == 1 && ssc.key == SessionKey(ssc.suite, f.psk, f.salt)
    modifies conn`inbox, ssc, ssc.nonce
    ensures r == AcceptVariable(ssc.suite, f, old(conn.inbox))
    ensures r.Ok? ==> ssc.Valid() && ssc.ops == 2 && conn.inbox == r.value.rest
  {
    hide Open, NonceOf, Crypto.Primitives.Lawful, ParseVariable, SessionKey;
    var second := conn.Take(f.vlen + Overhead);
    if second.None? {
      return Err(ShortRead);
    }
    var v := ssc.Decrypt(second.value);
    if v.None? {
      return Err(OpenFailed);
    }
    var parsed := ParseVariable(v.value);
    if parsed.Err? {
      return Err(parsed.error);
    }
    r := Ok(Accept(parsed.value.0, parsed.value.1, f.psk, f.salt, ssc.key, conn.inbox));
  }

  lemma TakeSlices(s: Bytes, n: nat, i: nat, j: nat, k: nat)
    requires i <= j <= k <= n <= |s|
    ensures s[..n][..i] == s[..i] && s[..n][i..j] == s[i..j] && s[..n][j..k] == s[j..k] && s[..n][k..] == s[k..n]
  {}

  /** The server's first WriteZeroCopy. */
  method FirstWrite(s: Suite, psk: Bytes, conn: Conn, prefix: Bytes, salt: Bytes, requestSalt: Bytes, ts: U64, payload: Bytes)
    returns (w: ShadowStreamWriter, ok: bool)
    requires |payload| <= MaxPayloadSize
    modifies conn`outbox, conn`writes
    ensures conn.writes == old(conn.writes) + 1 && (ok <==> conn.plan(old(conn.writes)).None?)
    ensures fresh(w) && fresh(w.ssc) && fresh(w.ssc.nonce) && w.conn == conn
    ensures w.ssc.Valid() && w.ssc.ops == 2 && w.ssc.suite == s && w.ssc.key == SessionKey(s, psk, salt)
    ensures var response := Response(s, psk, prefix, salt, requestSalt, ts, payload);
            if ok then conn.outbox == old(conn.outbox) + response else SentPart(old(conn.outbox), response, conn.outbox)
  {
    hide SentPart, Seal, NonceOf, Crypto.Primitives.Lawful, SessionKey, ResponseHeader, Patch, ShadowStreamCipher.Valid;
    var headerStart := |prefix| + |salt|;
    var header := ResponseHeader(ts, requestSalt, |payload|);
    var payloadBufStart := headerStart + |header| + Overhead;
    var hb := new Byte[payloadBufStart + |payload| + Overhead](_ => 0);
    var ssc := new ShadowStreamCipher(s, psk, salt);
    FillResponse(hb, prefix, salt, header);
    ghost var h0 := hb[..];
    ghost var x := Seal(s, ssc.key, NonceOf(0), header);
    assert hb[..headerStart] == h0[..headerStart];
    PatchFrame(h0, headerStart, x);
    ssc.EncryptInPlace(hb, headerStart, |header|);
    ghost var h1 := hb[..];
    assert h1[..payloadBufStart] == prefix + salt + x;
    var sealed := ssc.Encrypt(payload);
    PatchFrame(h1, payloadBufStart, sealed);
    Put(hb, payloadBufStart, sealed);
    assert hb[..][..payloadBufStart + |sealed|] == hb[..];
    ok := conn.Write(hb[..]);
    w := new ShadowStreamWriter(conn, ssc);
  }

  /** Prefix, salt and the header still to be sealed. */
  method FillResponse(hb: array<Byte>, prefix: Bytes, salt: Bytes, header: Bytes)
    requires |prefix| + |salt| + |header| <= hb.Length
    modifies hb
    ensures hb[..][..|prefix| + |salt|] == prefix + salt
    ensures hb[|prefix| + |salt|..|prefix| + |salt| + |header|] == header
  {
    hide Patch;
    var headerStart := |prefix| + |salt|;
    PatchFrame(hb[..], 0, prefix);
    Put(hb, 0, prefix);
    ghost var h1 := hb[..];
    assert h1[..|prefix|] == prefix;
    PatchFrame(h1, |prefix|, salt);
    Put(hb, |prefix|, salt);
    ghost var h2 := hb[..];
    assert h2[..headerStart] == prefix + salt;
    PatchFrame(h2, headerStart, header);
    Put(hb, headerStart, header);
  }

  /** The client's first ReadZeroCopy. The reader exists from when the salt is known, also if the read fails later. */
  method FirstRead(s: Suite, psk: Bytes, conn: Conn, prefix: Bytes, requestSalt: Bytes, now: int,
                   b: array<Byte>, payloadBufStart: nat)
    returns (r: Result<(Bytes, Read), StreamError>, reader: ShadowStreamReader?)
    requires |requestSalt| == |psk| && payloadBufStart + MaxPayloadSize + Overhead <= b.Length
    modifies conn`inbox, b
    ensures r == ReadResponse(s, psk, prefix, requestSalt, old(conn.inbox), now)
    ensures reader == null <==> r.Err? && (r.error.FirstRead? || r.error.PrefixMismatch?)
    ensures reader != null ==>
              && fresh(reader) && fresh(reader.ssc) && fresh(reader.ssc.nonce)
              && reader.conn == conn && reader.ssc.Valid() && reader.ssc.suite == s
              && |prefix| + |psk| <= |old(conn.inbox)|
              && reader.ssc.key == SessionKey(s, psk, old(conn.inbox)[|prefix|..|prefix| + |psk|])
    ensures r.Ok? ==>
              && conn.inbox == r.value.1.rest && reader.ssc.ops == r.value.1.ops && reader.ssc.key == r.value.0
              && payloadBufStart + |r.value.1.payload| <= b.Length
              && b[payloadBufStart..payloadBufStart + |r.value.1.payload|] == r.value.1.payload
  {
    hide Open, NonceOf, Crypto.Primitives.Lawful, ParseResponse, SessionKey, Patch, ShadowStreamCipher.Valid;
    reader := null;
    ghost var input := conn.inbox;
    var headerStart := |prefix| + |psk|;
    var headerEnd := headerStart + 11 + |psk| + Overhead;
    var hb := conn.Read(headerEnd);
    if |hb| < headerEnd {
      return Err(StreamError.FirstRead), null;
    }
    TakeSlices(input, headerEnd, |prefix|, headerStart, headerStart);
    if hb[..|prefix|] != prefix {
      return Err(PrefixMismatch), null;
    }
    var ssc := new ShadowStreamCipher(s, psk, hb[|prefix|..headerStart]);
    reader := new ShadowStreamReader(conn, ssc);
    var h := ssc.Decrypt(hb[headerStart..]);
    if h.None? {
      return Err(OpenFailed), reader;
    }
    ResponseErrors(h.value, requestSalt, now);
    var n := ParseResponse(h.value, requestSalt, now);
    if n.Err? {
      return Err(n.error), reader;
    }
    var ok := conn.ReadFull(b, payloadBufStart, n.value + Overhead);
    if !ok {
      return Err(ShortRead), reader;
    }
    DropTake(input, headerEnd, n.value + Overhead);
    var payload := ssc.DecryptInPlace(b, payloadBufStart, n.value + Overhead);
    if payload.None? {
      return Err(OpenFailed), reader;
    }
    r := Ok((ssc.key, Read(payload.value, conn.inbox, 2)));
  }

  lemma ResponseErrors(b: Bytes, requestSalt: Bytes, now: int)
    requires |b| == 11 + |requestSalt|
    ensures var r := ParseResponse(b, requestSalt, now);
            r.Err? ==> !r.error.FirstRead? && !r.error.PrefixMismatch?
  {}
}
