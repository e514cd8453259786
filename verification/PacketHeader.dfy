/** UDP message headers of Shadowsocks 2022 and the timestamp check shared with the stream headers. */
module PacketHeader {
  import opened Words
  import opened SocksAddr

  const MaxPaddingLength := 900
  const IdentityHeaderLength := 16
  const SeparateHeaderLength := 8 + 8
  const ClientMessageFixedLength := 1 + 8 + 2
  const ServerMessageFixedLength := 1 + 8 + 8 + 2
  const MaxEpochDiff := 30

  datatype HeaderError =
    | IncompleteHeader | TypeMismatch | BadTimestamp | ClientSessionIDMismatch | BadAddr(e: AddrError)

  // ----- timestamps -----

  const Two63 := 0x8000_0000_0000_0000
  const Two64 := 0x1_0000_0000_0000_0000

  predicate IsInt64(x: int) {
    -Two63 <= x < Two63
  }

  /** Two's complement: the int64 with the same low 64 bits. */
  function ToInt64(x: int): (r: int)
    ensures IsInt64(r)
  {
    var m := x % Two64;
    if m < Two63 then m else m - Two64
  }

  function ToU64(x: int): U64 {
    x % Two64
  }

  /** ValidateUnixEpochTimestamp, with the wrap-around of its int64 subtraction. */
  predicate TimestampOk(ts: U64, now: int) {
    -MaxEpochDiff <= ToInt64(ToInt64(ts) - now) <= MaxEpochDiff
  }

  predicate Within(ts: U64, now: int) {
    -MaxEpochDiff <= ToInt64(ts) - now <= MaxEpochDiff
  }

  /** Clock readings at which the wrap-around cannot be observed. */
  predicate SaneNow(now: int) {
    -Two63 + MaxEpochDiff <= now < Two63 - MaxEpochDiff
  }

  lemma TimestampOkIsWithin(ts: U64, now: int)
    requires SaneNow(now)
    ensures TimestampOk(ts, now) <==> Within(ts, now)
  {}

  /** The check means "within 30 s" for every timestamp exactly when the clock is at least 30 s away
      from both ends of the int64 range. */
  lemma TimestampExactness(now: int)
    requires IsInt64(now)
    ensures (forall ts: U64 :: TimestampOk(ts, now) <==> -30 <= ToInt64(ts) - now <= 30) <==> -Two63 + 30 <= now < Two63 - 30
  {
    if SaneNow(now) {
      forall ts: U64
        ensures TimestampOk(ts, now) <==> -30 <= ToInt64(ts) - now <= 30
      {
        TimestampOkIsWithin(ts, now);
      }
    } else if now < -Two63 + MaxEpochDiff {
      var ts: U64 := Two63 - 1;
      assert TimestampOk(ts, now) && !Within(ts, now);
    } else {
      var ts: U64 := Two63;
      assert TimestampOk(ts, now) && !Within(ts, now);
    }
  }

  // ----- separate header -----

  function SeparateHeader(sid: U64, pid: U64): (r: Bytes)
    ensures |r| == SeparateHeaderLength
  {
    Put64(sid) + Put64(pid)
  }

  lemma SeparateHeaderFields(sid: U64, pid: U64)
    ensures Get64(SeparateHeader(sid, pid)) == sid
    ensures Get64(SeparateHeader(sid, pid)[8..]) == pid
  {
    Get64Put64(sid, Put64(pid));
    assert SeparateHeader(sid, pid)[8..] == Put64(pid) + [];
    Get64Put64(pid, []);
  }

  lemma BodySlices(head: Bytes, pad: Bytes, addr: Bytes, payload: Bytes)
    ensures var m := head + pad + addr + payload;
            && m == head + (pad + (addr + payload))
            && m[|head| + |pad|..] == addr + payload
            && m[|head| + |pad| + |addr|..] == payload
  {}

  // ----- client message -----

  function ClientHead(ts: U64, padLen: U16): (r: Bytes)
    ensures |r| == ClientMessageFixedLength
  {
    [0] + Put64(ts) + Put16(padLen)
  }

  function ClientMessage(ts: U64, pad: Bytes, target: Addr, payload: Bytes): Bytes
    requires |pad| <= 0xffff
  {
    ClientHead(ts, |pad|) + pad + Encode(target) + payload
  }

  /** ParseUDPClientMessageHeader: target address, payload offset and length, and the new cache. */
  function ParseClientMessage(b: Bytes, cache: Bytes, now: int):
    (r: (Result<(Addr, nat, nat), HeaderError>, Bytes))
    ensures r.0.Ok? ==> r.0.value.1 + r.0.value.2 == |b|
    ensures r.0.Ok? ==> |b| >= ClientMessageFixedLength && TimestampOk(Get64(b[1..]), now)
  {
    if |b| < ClientMessageFixedLength then (Err(IncompleteHeader), cache)
    else if b[0] != 0 then (Err(TypeMismatch), cache)
    else if !TimestampOk(Get64(b[1..]), now) then (Err(BadTimestamp), cache)
    else
      var start := ClientMessageFixedLength + Get16(b[9..]) as int;
      if start > |b| then (Err(IncompleteHeader), cache)
      else
        match DecodeCached(b[start..], cache)
        case (Err(e), cache') => (Err(BadAddr(e)), cache')
        case (Ok((a, n)), cache') => (Ok((a, start + n, |b| - start - n)), cache')
  }

  lemma ClientHeadSlices(t: Bytes, ts: Bytes, p: Bytes, tail: Bytes)
    requires |t| == 1 && |ts| == 8 && |p| == 2
    ensures var m := t + ts + p + tail;
            m[0] == t[0] && m[1..] == ts + (p + tail) && m[9..] == p + tail
  {}

  lemma ClientHeadFields(ts: U64, padLen: U16, tail: Bytes)
    ensures var m := ClientHead(ts, padLen) + tail;
            m[0] == 0 && Get64(m[1..]) == ts && Get16(m[9..]) == padLen
  {
    ClientHeadSlices([0], Put64(ts), Put16(padLen), tail);
    Get64Put64(ts, Put16(padLen) + tail);
    Get16Put16(padLen, tail);
  }

  lemma ParseFromFields(m: Bytes, padLen: U16, a: Addr, n: nat, cache: Bytes, now: int)
    requires |m| >= ClientMessageFixedLength + padLen && m[0] == 0 && Get16(m[9..]) == padLen
    requires Decode(m[ClientMessageFixedLength + padLen..]) == Ok((a, n))
    ensures var start := ClientMessageFixedLength + padLen + n;
            ParseClientMessage(m, cache, now).0 ==
            if TimestampOk(Get64(m[1..]), now) then Ok((a, start, |m| - start)) else Err(BadTimestamp)
  {
    hide Decode, DecodeCached, TimestampOk, Get64, Get16, Put64, Put16, LengthOf, Addr.Unmap;
    var d := DecodeCached(m[ClientMessageFixedLength + padLen..], cache);
    assert d.0 == Ok((a, n));
  }

  lemma ParseOfClientMessage(ts: U64, pad: Bytes, target: Addr, payload: Bytes, cache: Bytes, now: int)
    requires |pad| <= 0xffff
    ensures var m := ClientMessage(ts, pad, target, payload);
            var start := ClientMessageFixedLength + |pad| + LengthOf(target);
            && m[start..] == payload
            && ParseClientMessage(m, cache, now).0 ==
               (if TimestampOk(ts, now) then Ok((target.Unmap(), start, |payload|)) else Err(BadTimestamp))
  {
    hide Decode, Encode, LengthOf, TimestampOk, Get64, Get16, ClientHead, ParseClientMessage, Addr.Unmap;
    var rest := Encode(target) + payload;
    ClientHeadFields(ts, |pad|, pad + rest);
    BodySlices(ClientHead(ts, |pad|), pad, Encode(target), payload);
    DecodeEncode(target, payload);
    ParseFromFields(ClientMessage(ts, pad, target, payload), |pad|, target.Unmap(), LengthOf(target), cache, now);
  }

  /** The bytes of an accepted message: type 0, a timestamp within 30 s, a padding length that fits and an address. */
  lemma ClientMessageAccepted(b: Bytes, cache: Bytes, now: int)
    requires SaneNow(now) && |b| >= 11
    ensures var r := ParseClientMessage(b, cache, now).0;
            var start := 11 + 0x100 * b[9] as int + b[10];
            && (r.Ok? <==>
                  b[0] == 0 && -30 <= ToInt64(Get64(b[1..9])) - now <= 30 && start <= |b| && Decode(b[start..]).Ok?)
            && (r.Ok? ==> var (a, n) := Decode(b[start..]).value; r.value.0 == a && r.value.1 == start + n)
  {
    hide Decode, Get64, Get16, DecodeCached, ToInt64, TimestampOk;
    BigEndian(b[9..]);
    TimestampOkIsWithin(Get64(b[1..]), now);
    SameField(b);
    if Get16(b[9..]) + 11 <= |b| {
      var d := DecodeCached(b[11 + Get16(b[9..])..], cache);
      assert d.0.Ok? || d.0.Err?;
    }
  }

  lemma SameField(b: Bytes)
    requires |b| >= 11
    ensures Get64(b[1..9]) == Get64(b[1..])
  {
    assert b[1..9][..8] == b[1..][..8];
  }

  // ----- server message -----

  function ServerHead(ts: U64, csid: U64, padLen: U16): (r: Bytes)
    ensures |r| == ServerMessageFixedLength
  {
    [1] + Put64(ts) + Put64(csid) + Put16(padLen)
  }

  function ServerMessage(ts: U64, csid: U64, pad: Bytes, source: AddrPort, payload: Bytes): Bytes
    requires |pad| <= 0xffff
  {
    ServerHead(ts, csid, |pad|) + pad + EncodeAddrPort(source) + payload
  }

  /** ParseUDPServerMessageHeader. */
  function ParseServerMessage(b: Bytes, csid: U64, now: int):
    (r: Result<(AddrPort, nat, nat), HeaderError>)
    ensures r.Ok? ==> r.value.1 + r.value.2 == |b|
    ensures r.Ok? ==> |b| >= ServerMessageFixedLength && TimestampOk(Get64(b[1..]), now)
  {
    if |b| < ServerMessageFixedLength then Err(IncompleteHeader)
    else if b[0] != 1 then Err(TypeMismatch)
    else if !TimestampOk(Get64(b[1..]), now) then Err(BadTimestamp)
    else if Get64(b[9..]) != csid then Err(ClientSessionIDMismatch)
    else
      var start := ServerMessageFixedLength + Get16(b[17..]) as int;
      if start > |b| then Err(IncompleteHeader)
      else
        match DecodeAddrPort(b[start..])
        case Err(e) => Err(BadAddr(e))
        case Ok((a, n)) => Ok((a, start + n, |b| - start - n))
  }

  lemma ServerHeadSlices(t: Bytes, ts: Bytes, sid: Bytes, p: Bytes, tail: Bytes)
    requires |t| == 1 && |ts| == 8 && |sid| == 8 && |p| == 2
    ensures var m := t + ts + sid + p + tail;
            && m[0] == t[0] && m[1..] == ts + (sid + (p + tail))
            && m[9..] == sid + (p + tail) && m[17..] == p + tail
  {}

  lemma ServerHeadFields(ts: U64, csid: U64, padLen: U16, tail: Bytes)
    ensures var m := ServerHead(ts, csid, padLen) + tail;
            && m[0] == 1 && Get64(m[1..]) == ts && Get64(m[9..]) == csid && Get16(m[17..]) == padLen
  {
    ServerHeadSlices([1], Put64(ts), Put64(csid), Put16(padLen), tail);
    Get64Put64(ts, Put64(csid) + (Put16(padLen) + tail));
    Get64Put64(csid, Put16(padLen) + tail);
    Get16Put16(padLen, tail);
  }

  lemma ParseOfServerMessage(ts: U64, csid: U64, pad: Bytes, source: AddrPort, payload: Bytes, csid': U64, now: int)
    requires |pad| <= 0xffff
    ensures var m := ServerMessage(ts, csid, pad, source, payload);
            var start := ServerMessageFixedLength + |pad| + LengthOfAddrPort(source);
            && m[start..] == payload
            && Get64(m[1..]) == ts
            && ParseServerMessage(m, csid', now) ==
               if !TimestampOk(ts, now) then Err(BadTimestamp)
               else if csid == csid' then Ok((source.Unmap(), start, |payload|))
               else Err(ClientSessionIDMismatch)
  {
    hide DecodeAddrPort, EncodeAddrPort, LengthOfAddrPort, TimestampOk, Get64, Get16, ServerMessage, AddrPort.Unmap,
         ParseServerMessage;
    ServerMessageFields(ts, csid, pad, source, payload);
    DecodeEncodeAddrPort(source, payload);
    ParseFromServerFields(ServerMessage(ts, csid, pad, source, payload), |pad|, source.Unmap(), LengthOfAddrPort(source), csid', now);
  }

  lemma ServerMessageFields(ts: U64, csid: U64, pad: Bytes, source: AddrPort, payload: Bytes)
    requires |pad| <= 0xffff
    ensures var m := ServerMessage(ts, csid, pad, source, payload);
            var addrStart := ServerMessageFixedLength + |pad|;
            && |m| == addrStart + LengthOfAddrPort(source) + |payload|
            && m[0] == 1 && Get64(m[1..]) == ts && Get64(m[9..]) == csid && Get16(m[17..]) == |pad|
            && m[addrStart..] == EncodeAddrPort(source) + payload
            && m[addrStart + LengthOfAddrPort(source)..] == payload
  {
    hide EncodeAddrPort, LengthOfAddrPort, Get64, Get16, ServerHead;
    ServerHeadFields(ts, csid, |pad|, pad + (EncodeAddrPort(source) + payload));
    BodySlices(ServerHead(ts, csid, |pad|), pad, EncodeAddrPort(source), payload);
  }

  lemma ParseFromServerFields(m: Bytes, padLen: U16, a: AddrPort, n: nat, csid: U64, now: int)
    requires |m| >= ServerMessageFixedLength + padLen && m[0] == 1 && Get16(m[17..]) == padLen
    requires DecodeAddrPort(m[ServerMessageFixedLength + padLen..]) == Ok((a, n))
    ensures var start := ServerMessageFixedLength + padLen + n;
            ParseServerMessage(m, csid, now) ==
            if !TimestampOk(Get64(m[1..]), now) then Err(BadTimestamp)
            else if Get64(m[9..]) == csid then Ok((a, start, |m| - start))
            else Err(ClientSessionIDMismatch)
  {
    hide DecodeAddrPort, TimestampOk, Get64, Get16, Put64, Put16, LengthOfAddrPort, Decode, AddrPort.Unmap;
    var d := DecodeAddrPort(m[ServerMessageFixedLength + padLen..]);
    assert d == Ok((a, n));
  }

  /** The bytes of an accepted message: type 1, a timestamp within 30 s, this client's session id, a padding length that
      fits and an IP address. */
  lemma ServerMessageAccepted(b: Bytes, csid: U64, now: int)
    requires SaneNow(now) && |b| >= 19
    ensures var r := ParseServerMessage(b, csid, now);
            var start := 19 + 0x100 * b[17] as int + b[18];
            && (r.Ok? <==>
                  && b[0] == 1 && -30 <= ToInt64(Get64(b[1..9])) - now <= 30 && b[9..17] == Put64(csid)
                  && start <= |b| && DecodeAddrPort(b[start..]).Ok?)
            && (r.Ok? ==> var (a, n) := DecodeAddrPort(b[start..]).value; r.value.0 == a && r.value.1 == start + n)
  {
    hide DecodeAddrPort, Get64, Get16, ToInt64, TimestampOk, Put64;
    BigEndian(b[17..]);
    TimestampOkIsWithin(Get64(b[1..]), now);
    SameField(b);
    FieldIs(b[9..], csid);
    assert b[9..17] == b[9..][..8];
    if Get16(b[17..]) + 19 <= |b| {
      var d := DecodeAddrPort(b[19 + Get16(b[17..])..]);
      assert d.Ok? || d.Err?;
    }
  }

  lemma FieldIs(b: Bytes, id: U64)
    requires |b| >= 8
    ensures Get64(b) == id <==> b[..8] == Put64(id)
  {
    Get64Put64(id, b[8..]);
    assert b == b[..8] + b[8..];
  }

  /** Neither end takes what the other end writes. */
  lemma OtherEndRefused(ts: U64, csid: U64, pad: Bytes, target: Addr, source: AddrPort, payload: Bytes, csid': U64, cache: Bytes, now: int)
    requires |pad| <= 0xffff
    ensures ParseClientMessage(ServerMessage(ts, csid, pad, source, payload), cache, now) == (Err(TypeMismatch), cache)
    ensures ParseServerMessage(ClientMessage(ts, pad, target, payload), csid', now).Err?
  {
    hide Get64, Get16, TimestampOk, Encode, EncodeAddrPort, LengthOfAddrPort;
    ServerMessageFields(ts, csid, pad, source, payload);
    ClientHeadFields(ts, |pad|, pad + (Encode(target) + payload));
    BodySlices(ClientHead(ts, |pad|), pad, Encode(target), payload);
  }
}
