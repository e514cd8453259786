/** A whole stream from client to server, through the objects that make it. */
module StreamSession {
  import opened Words
  import opened Crypto
  import opened SocksAddr
  import opened PacketHeader
  import opened PacketPacker
  import opened PacketServer
  import opened SaltPools
  import opened StreamWire
  import opened Stream

  /** Writes one after another through the writer, each in a buffer with its headroom, until one fails. */
  method WriteAll(w: ShadowStreamWriter, writes: seq<Bytes>) returns (ok: bool)
    requires w.ssc.Valid() && Writable(writes)
    modifies w.conn`outbox, w.conn`writes, w.ssc, w.ssc.nonce
    ensures w.ssc.Valid() && old(w.conn.writes) <= w.conn.writes
    ensures ok <==> Through(w.conn.plan, old(w.conn.writes), w.conn.writes)
    ensures ok ==> w.ssc.ops == old(w.ssc.ops) + 2 * |writes|
    ensures var chunks := Chunks(w.ssc.suite, w.ssc.key, old(w.ssc.ops), writes);
            if ok then w.conn.outbox == old(w.conn.outbox) + chunks else SentPart(old(w.conn.outbox), chunks, w.conn.outbox)
  {
    hide Chunks, Chunk, Crypto.Primitives.Lawful, ShadowStreamCipher.Valid, SentPart;
    ghost var s, key, before := w.ssc.suite, w.ssc.key, w.conn.outbox;
    ghost var all := Chunks(s, key, w.ssc.ops, writes);
    ghost var sent: Bytes := [];
    assert writes[0..] == writes && before + [] == before && [] + all == all;
    for i := 0 to |writes|
      invariant w.ssc.Valid() && w.ssc.ops == old(w.ssc.ops) + 2 * i
      invariant old(w.conn.writes) <= w.conn.writes && Through(w.conn.plan, old(w.conn.writes), w.conn.writes)
      invariant w.conn.outbox == before + sent && all == sent + Chunks(s, key, w.ssc.ops, writes[i..])
    {
      assert writes[i..][0] == writes[i] && writes[i..][1..] == writes[i + 1..];
      ChunksCons(s, key, w.ssc.ops, writes[i..]);
      ghost var chunk, rest := Chunk(s, key, w.ssc.ops, writes[i]), Chunks(s, key, w.ssc.ops + 2, writes[i + 1..]);
      var b := new Byte[18 + |writes[i]| + Overhead];
      var piece := PutPiece(w, b, 18, writes[i]);
      if !piece {
        PartSent(before, sent, chunk, rest, w.conn.outbox);
        return false;
      }
      Assoc(before, sent, chunk);
      Assoc(sent, chunk, rest);
      sent := sent + chunk;
    }
    assert writes[|writes|..] == [] && sent + [] == sent;
    ChunksNil(s, key, w.ssc.ops, writes[|writes|..]);
    return true;
  }

  /** Reads chunk after chunk until the input is used up or a chunk is refused. */
  method ReadToEnd(r: ShadowStreamReader) returns (got: Result<Bytes, StreamError>)
    requires r.ssc.Valid()
    modifies r.conn`inbox, r.ssc, r.ssc.nonce
    ensures match ReadAll(r.ssc.suite, r.ssc.key, old(r.ssc.ops), old(r.conn.inbox))
            case Err(e) => got == Err(e)
            case Ok((ps, ops)) => got == Ok(Flatten(ps)) && r.ssc.ops == ops
  {
    hide ReadChunk, ReadAll, Flatten, Crypto.Primitives.Lawful, ShadowStreamCipher.Valid;
    ghost var s, key := r.ssc.suite, r.ssc.key;
    ghost var all := ReadAll(s, key, r.ssc.ops, r.conn.inbox);
    var b := new Byte[18 + MaxPayloadSize + Overhead];
    var bytes: Bytes := [];
    ghost var done: seq<Bytes> := [];
    ContinueNone(all);
    FlattenNil();
    while r.conn.inbox != []
      invariant r.ssc.Valid() && b != r.ssc.nonce && fresh(b)
      invariant all == Continue(done, ReadAll(s, key, r.ssc.ops, r.conn.inbox)) && bytes == Flatten(done)
      decreases |r.conn.inbox|
    {
      ReadAllStep(s, key, r.ssc.ops, r.conn.inbox);
      ChunkFits(s, key, r.ssc.ops, r.conn.inbox);
      var n := r.ReadZeroCopy(b, 18);
      if n.Err? {
        return Err(n.error);
      }
      ghost var piece := b[18..18 + n.value];
      ContinueMore(done, piece, ReadAll(s, key, r.ssc.ops, r.conn.inbox));
      FlattenSnoc(done, piece);
      bytes := bytes + b[18..18 + n.value];
      done := done + [piece];
    }
    ReadAllEnd(s, key, r.ssc.ops);
    assert done + [] == done;
    return Ok(bytes);
  }

  /** What is read in all, when `done` has been read already. */
  ghost function Continue(done: seq<Bytes>, r: Result<(seq<Bytes>, nat), StreamError>): Result<(seq<Bytes>, nat), StreamError> {
    match r
    case Err(e) => Err(e)
    case Ok((ps, ops)) => Ok((done + ps, ops))
  }

  lemma ContinueNone(r: Result<(seq<Bytes>, nat), StreamError>)
    ensures Continue([], r) == r
  {
    if r.Ok? {
      assert [] + r.value.0 == r.value.0;
    }
  }

  lemma ContinueMore(done: seq<Bytes>, p: Bytes, r: Result<(seq<Bytes>, nat), StreamError>)
    ensures Continue(done, Continue([p], r)) == Continue(done + [p], r)
  {
    if r.Ok? {
      assert done + ([p] + r.value.0) == done + [p] + r.value.0;
    }
  }

  lemma ReadAllStep(s: Suite, key: Bytes, ops: nat, input: Bytes)
    requires input != []
    ensures ReadAll(s, key, ops, input) ==
            match ReadChunk(s, key, ops, input)
            case Err(e) => Err(e)
            case Ok(c) => Continue([c.payload], ReadAll(s, key, c.ops, c.rest))
  {
    hide ReadChunk;
  }

  lemma ChunkFits(s: Suite, key: Bytes, ops: nat, input: Bytes)
    ensures var c := ReadChunk(s, key, ops, input);
            c.Ok? ==> |c.value.payload| <= MaxPayloadSize
  {
    hide NonceOf, Get16;
  }

  lemma ReadAllEnd(s: Suite, key: Bytes, ops: nat)
    ensures ReadAll(s, key, ops, []) == Ok(([], ops))
  {}

  lemma FlattenNil()
    ensures Flatten([]) == []
  {}

  lemma FlattenSnoc(ps: seq<Bytes>, p: Bytes)
    ensures Flatten(ps + [p]) == Flatten(ps) + p
  {
    FlattenAppend(ps, [p]);
    assert [p][1..] == [];
    assert Flatten([p]) == p + Flatten([]);
    assert p + [] == p;
  }

  /** The client's half: handshake with the initial payload, then the writes. It gets through exactly when every write
      of the connection does; otherwise a first part of the same stream was sent. */
  method ClientSends(s: Suite, keys: ClientKeys, conn: Conn, prefix: Bytes, salt: Bytes, ts: U64, target: Addr,
                     initial: Bytes, writes: seq<Bytes>, draw: nat)
    returns (w: ShadowStreamWriter?, b: array<Byte>, ok: bool, ghost pad: Bytes)
    requires Writable(writes)
    modifies conn`outbox, conn`writes
    ensures fresh(b) && |prefix| + |salt| <= b.Length && b[|prefix|..|prefix| + |salt|] == salt
    ensures old(conn.writes) <= conn.writes && (ok <==> Through(conn.plan, old(conn.writes), conn.writes))
    ensures ok ==> w != null && fresh(w) && fresh(w.ssc) && w.ssc.ops == ClientOps(target, initial, |writes|)
    ensures PaddedFor(target, initial, pad, draw)
    ensures var stream := ClientStream(s, keys, prefix, salt, ts, target, pad, initial, writes, draw);
            if ok then conn.outbox == old(conn.outbox) + stream else SentPart(old(conn.outbox), stream, conn.outbox)
  {
    hide Chunks, Request, SessionKey, Crypto.Primitives.Lawful, ShadowStreamCipher.Valid, FirstPayload, ExcessPayload, Split,
         PaddingPayloadLen, RoomForPayload, SentPart;
    RequestSizes(target, initial, draw);
    ghost var before := conn.outbox;
    w, b, pad := NewClient(s, keys, conn, prefix, salt, ts, target, initial, draw);
    ghost var request := Request(s, keys, prefix, salt, ts, target, pad, FirstPayload(target, initial), ExcessPayload(target, initial));
    ghost var chunks := Chunks(s, SessionKey(s, keys.psk, salt), ClientOps(target, initial, 0), writes);
    if w == null {
      SentPartOfMore(before, request, chunks, conn.outbox);
      return w, b, false, pad;
    }
    ok := WriteAll(w, writes);
    if ok {
      Assoc(before, request, chunks);
    } else {
      SentPartAfter(before, request, chunks, conn.outbox);
    }
  }

  /** What the server knows of a client's stream. */
  datatype Arrived = Arrived(target: Addr, bytes: Bytes, psk: Bytes, salt: Bytes)

  /** The server's half: the handshake, then everything that follows. */
  method ServerReceives(s: Suite, cfg: ServerConfig, conn: Conn, pool: SaltPool, prefix: Bytes, now: int, t: int)
    returns (r: Result<Arrived, StreamError>, reader: ShadowStreamReader?)
    modifies conn`inbox, pool
    ensures var p := old(pool.Spec());
            match AcceptRequest(s, cfg, prefix, old(conn.inbox), now, (salt: Bytes) => AddTo(p, salt, t).1)
            case Err(e) => r == Err(e)
            case Ok(a) =>
              match ReadAll(s, a.key, 2, a.rest)
              case Err(e) => r == Err(e)
              case Ok((ps, n)) =>
                r == Ok(Arrived(a.target, a.payload + Flatten(ps), a.psk, a.salt)) && reader != null && reader.ssc.ops == n
  {
    hide AcceptRequest, ReadAll, Flatten, AddTo, Crypto.Primitives.Lawful, ShadowStreamCipher.Valid;
    var a;
    var seen;
    a, reader, seen := NewServer(s, cfg, conn, pool, prefix, now, t);
    if a.Err? {
      return Err(a.error), reader;
    }
    var rest := ReadToEnd(reader);
    if rest.Err? {
      return Err(rest.error), reader;
    }
    r := Ok(Arrived(a.value.target, a.value.payload + rest.value, a.value.psk, a.value.salt));
  }

  /** Client and server joined: for any target, initial payload and writes, with a valid timestamp and a salt
      that the pool does not hold, the server gets the target and the same bytes, under the client's key and salt, and
      both ends have counted the same number of AEAD operations. */
  method Transfer(s: Suite, cfg: ServerConfig, keys: ClientKeys, pool: SaltPool, prefix: Bytes, salt: Bytes, ts: U64,
                  target: Addr, initial: Bytes, writes: seq<Bytes>, draw: nat, now: int, t: int)
    returns (r: Arrived, b: array<Byte>, w: ShadowStreamWriter?, reader: ShadowStreamReader?)
    requires Matches(s, cfg, keys) && |salt| == |cfg.psk| && Writable(writes)
    requires TimestampOk(ts, now) && AddTo(pool.Spec(), salt, t).1
    modifies pool
    ensures r == Arrived(target.Unmap(), initial + Flatten(writes), keys.psk, salt)
    ensures w != null && reader != null && reader.ssc.ops == w.ssc.ops == ClientOps(target, initial, |writes|)
    ensures |prefix| + |salt| <= b.Length && b[|prefix|..|prefix| + |salt|] == salt
  {
    hide AcceptRequest, ReadAll, Flatten, AddTo, Matches, TimestampOk, ClientStream, Writable, PaddedFor, Addr.Unmap,
         Crypto.Primitives.Lawful;
    var client := new Conn([], _ => None);
    var ok;
    ghost var pad;
    w, b, ok, pad := ClientSends(s, keys, client, prefix, salt, ts, target, initial, writes, draw);
    ghost var sent := ClientStream(s, keys, prefix, salt, ts, target, pad, initial, writes, draw);
    assert client.outbox == sent;
    ghost var p := pool.Spec();
    ClientToServerTransparent(s, cfg, keys, prefix, salt, ts, target, pad, initial, writes, draw, now,
                              (x: Bytes) => AddTo(p, x, t).1);
    var server := new Conn(client.outbox, _ => None);
    var received;
    received, reader := ServerReceives(s, cfg, server, pool, prefix, now, t);
    r := received.value;
  }

  /** The client's half of the way back: the first read checks the response header against the salt of the request. */
  method ClientReads(s: Suite, psk: Bytes, conn: Conn, prefix: Bytes, requestSalt: Bytes, now: int)
    returns (got: Result<Bytes, StreamError>, reader: ShadowStreamReader?)
    requires |requestSalt| == |psk|
    modifies conn`inbox
    ensures match ReadResponse(s, psk, prefix, requestSalt, old(conn.inbox), now)
            case Err(e) => got == Err(e)
            case Ok((key, first)) =>
              match ReadAll(s, key, first.ops, first.rest)
              case Err(e) => got == Err(e)
              case Ok((ps, n)) => got == Ok(first.payload + Flatten(ps)) && reader != null && reader.ssc.ops == n
  {
    hide ReadResponse, ReadAll, Flatten, SessionKey, Crypto.Primitives.Lawful, ShadowStreamCipher.Valid;
    var b := new Byte[MaxPayloadSize + Overhead];
    var first;
    first, reader := Stream.FirstRead(s, psk, conn, prefix, requestSalt, now, b, 0);
    if first.Err? {
      return Err(first.error), reader;
    }
    var bytes := b[..|first.value.1.payload|];
    var rest := ReadToEnd(reader);
    got := if rest.Err? then Err(rest.error) else Ok(bytes + rest.value);
  }

  /** The way back: the first write carries the response header with the salt of the request that the server answers, the
      others follow. A client gets the bytes if and only if the timestamp is in range and that salt is its own. */
  method Answer(s: Suite, psk: Bytes, prefix: Bytes, salt: Bytes, answered: Bytes, ts: U64, first: Bytes, writes: seq<Bytes>,
                requestSalt: Bytes, now: int)
    returns (got: Result<Bytes, StreamError>, w: ShadowStreamWriter, reader: ShadowStreamReader?)
    requires |salt| == |psk| == |requestSalt| == |answered| && |first| <= MaxPayloadSize && Writable(writes)
    ensures got == if !TimestampOk(ts, now) then Err(BadStreamHeader(BadTimestamp))
                   else if answered != requestSalt then Err(ClientSaltMismatch)
                   else Ok(first + Flatten(writes))
    ensures got.Ok? ==> reader != null && reader.ssc.ops == w.ssc.ops == 2 + 2 * |writes|
  {
    hide Response, ReadResponse, Chunks, ReadAll, Flatten, TimestampOk, SessionKey, Crypto.Primitives.Lawful,
         ShadowStreamCipher.Valid, Writable;
    var server := new Conn([], _ => None);
    var ok;
    w, ok := Stream.FirstWrite(s, psk, server, prefix, salt, answered, ts, first);
    ok := WriteAll(w, writes);
    ghost var chunks := Chunks(s, SessionKey(s, psk, salt), 2, writes);
    assert server.outbox == Response(s, psk, prefix, salt, answered, ts, first) + chunks;
    ReadOfResponse(s, psk, prefix, salt, answered, ts, first, chunks, requestSalt, now);
    if answered == requestSalt && TimestampOk(ts, now) {
      ServerToClientTransparent(s, psk, prefix, salt, requestSalt, ts, first, writes, now);
    }
    var client := new Conn(server.outbox, _ => None);
    got, reader := ClientReads(s, psk, client, prefix, requestSalt, now);
  }

  /** What each end gets of one exchange. */
  datatype Exchanged = Exchanged(request: Arrived, answer: Result<Bytes, StreamError>)

  /** One exchange: the server answers with the key and salt that it accepted, the client checks the answer against the
      salt in its buffer. Both get what the other sent. */
  method Converse(s: Suite, cfg: ServerConfig, keys: ClientKeys, pool: SaltPool, requestPrefix: Bytes, responsePrefix: Bytes,
                  salt: Bytes, salt': Bytes, ts: U64, ts': U64, target: Addr, initial: Bytes, writes: seq<Bytes>, draw: nat,
                  first: Bytes, answers: seq<Bytes>, now: int, t: int, now': int)
    returns (x: Exchanged)
    requires Matches(s, cfg, keys) && |salt| == |salt'| == |cfg.psk| == |keys.psk|
    requires Writable(writes) && Writable(answers) && |first| <= MaxPayloadSize
    requires TimestampOk(ts, now) && TimestampOk(ts', now') && AddTo(pool.Spec(), salt, t).1
    modifies pool
    ensures x.request == Arrived(target.Unmap(), initial + Flatten(writes), keys.psk, salt)
    ensures x.answer == Ok(first + Flatten(answers))
  {
    hide Flatten, AddTo, Matches, TimestampOk, Writable, Addr.Unmap, Crypto.Primitives.Lawful;
    var r, b, w, reader := Transfer(s, cfg, keys, pool, requestPrefix, salt, ts, target, initial, writes, draw, now, t);
    var saved := b[|requestPrefix|..|requestPrefix| + |salt|];
    var got, w', reader' := Answer(s, r.psk, responsePrefix, salt', r.salt, ts', first, answers, saved, now');
    x := Exchanged(r, got);
  }
}
