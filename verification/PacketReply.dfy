/** The way back over UDP: whole runs from a server packer to the client's unpacker. */
module PacketReply {
  import opened Words
  import opened Crypto
  import opened SocksAddr
  import opened PacketHeader
  import opened SlidingWindow
  import opened PacketPacker
  import opened PacketClient

  datatype Sent = Sent(ts: U64, pad: Bytes, source: AddrPort, payload: Bytes)

  /** What the client receives: a packet of this packer, or another datagram. */
  datatype Arrival = Own(k: U64, t: Times) | Other(pkt: Bytes, t: Times)

  /** The k-th packet of a packer whose packet ids start at zero. */
  function Wire(keys: Keys, ssid: U64, sent: seq<Sent>, k: U64): Bytes
    requires k < |sent| && |sent[k].pad| <= 0xffff
  {
    ServerPacket(keys.suite, keys.psk, ssid, k, ServerMessage(sent[k].ts, keys.csid, sent[k].pad, sent[k].source, sent[k].payload))
  }

  /** The session id a datagram names, and whether its body opens under that session's key. */
  function NamedSession(keys: Keys, pkt: Bytes): U64
    requires |pkt| >= SeparateHeaderLength
  {
    Get64(Decrypt(keys.suite, keys.psk, pkt[..16]))
  }

  predicate Readable(keys: Keys, pkt: Bytes) {
    && |pkt| >= SeparateHeaderLength + Overhead
    && var sep := Decrypt(keys.suite, keys.psk, pkt[..16]);
       Open(keys.suite, SessionKey(keys.suite, keys.psk, sep[..8]), sep[4..16], pkt[16..]).Some?
  }

  /** Anything that does not open, and anything of one other server session. */
  predicate Tame(keys: Keys, peer: U64, pkt: Bytes) {
    Readable(keys, pkt) ==> NamedSession(keys, pkt) == peer
  }

  predicate ArrivalsOk(keys: Keys, peer: U64, sent: seq<Sent>, arrivals: seq<Arrival>) {
    && (forall p :: p in sent ==> |p.pad| <= 0xffff)
    && (forall a :: a in arrivals ==>
          if a.Own? then a.k < |sent| && TimestampOk(sent[a.k].ts, Unix(a.t.stamp)) else Tame(keys, peer, a.pkt))
  }

  function Datagram(keys: Keys, ssid: U64, peer: U64, sent: seq<Sent>, a: Arrival): Bytes
    requires ArrivalsOk(keys, peer, sent, [a])
  {
    assert a in [a];
    if a.Own? then Wire(keys, ssid, sent, a.k) else a.pkt
  }

  function Outcomes(keys: Keys, st: State, ssid: U64, peer: U64, sent: seq<Sent>, arrivals: seq<Arrival>):
    (r: seq<Result<(Delivery, Accepted), RecvError>>)
    requires ArrivalsOk(keys, peer, sent, arrivals)
    ensures |r| == |arrivals|
    decreases |arrivals|
  {
    if arrivals == [] then []
    else
      var a := arrivals[0];
      var (st', r) := Unpack(keys, st, Datagram(keys, ssid, peer, sent, a), a.t);
      [r] + Outcomes(keys, st', ssid, peer, sent, arrivals[1..])
  }

  function IdsOf(arrivals: seq<Arrival>): (r: seq<Option<U64>>)
    ensures |r| == |arrivals|
    ensures forall i :: 0 <= i < |r| ==> r[i] == if arrivals[i].Own? then Some(arrivals[i].k) else None
  {
    seq(|arrivals|, i requires 0 <= i < |arrivals| => if arrivals[i].Own? then Some(arrivals[i].k) else None)
  }

  predicate DeliveredAs(r: Result<(Delivery, Accepted), RecvError>, p: Sent) {
    r.Ok? && r.value.0.source == p.source.Unmap() && r.value.0.payload == p.payload
  }

  // ----- a tracked session stays tracked -----

  /** The session is tracked, as the current or as the old one, and beside it at most the other one. */
  predicate Holds(st: State, ssid: U64, peer: U64) {
    && ssid != peer && st.current.Some?
    && if st.current.value.id == ssid then st.previous.Some? ==> st.previous.value.id == peer
       else st.current.value.id == peer && st.previous.Some? && st.previous.value.id == ssid
  }

  /** The session is not tracked, at most the other one is current, and none began, nor was an old one used, within the
      last 60 s. */
  predicate MayBegin(st: State, ssid: U64, peer: U64, check: int) {
    && ssid != peer && (st.current.Some? ==> st.current.value.id == peer)
    && (st.previous.Some? ==> st.previous.value.id != ssid)
    && (st.lastSeen.Some? ==> check - st.lastSeen.value >= 60_000_000_000)
  }

  function TrackedWindow(st: State, ssid: U64): Window {
    if st.current.Some? && st.current.value.id == ssid then st.current.value.window
    else if st.previous.Some? && st.previous.value.id == ssid then st.previous.value.window
    else EmptyWindow
  }

  lemma OwnStep(keys: Keys, st: State, ssid: U64, peer: U64, sent: seq<Sent>, k: U64, t: Times)
    requires Holds(st, ssid, peer) || MayBegin(st, ssid, peer, t.check)
    requires k < |sent| && |sent[k].pad| <= 0xffff && TimestampOk(sent[k].ts, Unix(t.stamp))
    ensures var w := TrackedWindow(st, ssid);
            var (st', r) := Unpack(keys, st, Wire(keys, ssid, sent, k), t);
            if w.Accepts(k) then DeliveredAs(r, sent[k]) && Holds(st', ssid, peer) && TrackedWindow(st', ssid) == w.Insert(k)
            else r == Err(Replay) && st' == st
  {
    hide Unpack, ServerPacket, ServerMessage, TimestampOk, AddrPort.Unmap, Crypto.Primitives.Lawful;
    UnpackOfServerPacket(keys, st, ssid, k, sent[k].ts, keys.csid, sent[k].pad, sent[k].source, sent[k].payload, t);
    EmptyAccepts(k);
  }

  lemma OtherStep(keys: Keys, st: State, ssid: U64, peer: U64, pkt: Bytes, t: Times)
    requires Holds(st, ssid, peer) && Tame(keys, peer, pkt)
    ensures var st' := Unpack(keys, st, pkt, t).0;
            Holds(st', ssid, peer) && TrackedWindow(st', ssid) == TrackedWindow(st, ssid)
  {
    hide Unpack, OpenPacket, ParseServerMessage, Window.Accepts, Window.Insert, Crypto.Primitives.Lawful, Tame;
    UnpackCases(keys, st, pkt, t);
    OpensReadable(keys, st, pkt, t.check);
    assert OpenPacket(keys, st, pkt, t.check).Ok? ==> OpenPacket(keys, st, pkt, t.check).value.ssid == peer by {
      if OpenPacket(keys, st, pkt, t.check).Ok? {
        TameNames(keys, peer, pkt);
      }
    }
  }

  lemma TameNames(keys: Keys, peer: U64, pkt: Bytes)
    requires Tame(keys, peer, pkt) && Readable(keys, pkt)
    ensures NamedSession(keys, pkt) == peer
  {}

  lemma OpensReadable(keys: Keys, st: State, pkt: Bytes, check: int)
    ensures var o := OpenPacket(keys, st, pkt, check);
            o.Ok? ==> Readable(keys, pkt) && NamedSession(keys, pkt) == o.value.ssid
  {
    hide Get64, Decrypt, SessionKey, Open, StatusOf, WindowOf, Window.Accepts, Crypto.Primitives.Lawful;
  }

  // ----- whole runs -----

  /** The client's outcomes are the answers of the session's window, whatever else comes in. */
  lemma {:induction false} OutcomesAreAnswers(keys: Keys, st: State, ssid: U64, peer: U64, sent: seq<Sent>, arrivals: seq<Arrival>, i: nat)
    requires ArrivalsOk(keys, peer, sent, arrivals) && i < |arrivals| && arrivals[i].Own?
    requires Holds(st, ssid, peer) || Begins(st, ssid, peer, arrivals)
    ensures var r := Outcomes(keys, st, ssid, peer, sent, arrivals)[i];
            if Gate(TrackedWindow(st, ssid), IdsOf(arrivals))[i] then DeliveredAs(r, sent[arrivals[i].k]) else r == Err(Replay)
    decreases |arrivals|
  {
    hide Unpack, Wire, TimestampOk, Window.Accepts, Window.Insert, Tame, Gate, DeliveredAs, TrackedWindow, IdsOf, Holds, MayBegin;
    var a := arrivals[0];
    assert a in arrivals && ArrivalsOk(keys, peer, sent, [a]) && ArrivalsOk(keys, peer, sent, arrivals[1..]);
    if a.Own? {
      OwnStep(keys, st, ssid, peer, sent, a.k, a.t);
      BeginsAccepts(st, ssid, peer, arrivals);
    } else {
      OtherStep(keys, st, ssid, peer, a.pkt, a.t);
    }
    IdsCons(arrivals);
    GateStep(TrackedWindow(st, ssid), IdsOf(arrivals));
    if i > 0 {
      var st' := Unpack(keys, st, Datagram(keys, ssid, peer, sent, a), a.t).0;
      OutcomesAreAnswers(keys, st', ssid, peer, sent, arrivals[1..], i - 1);
    }
  }

  lemma IdsCons(arrivals: seq<Arrival>)
    requires arrivals != []
    ensures IdsOf(arrivals) != [] && IdsOf(arrivals)[0] == (if arrivals[0].Own? then Some(arrivals[0].k) else None)
    ensures IdsOf(arrivals)[1..] == IdsOf(arrivals[1..])
  {}

  /** The session begins here, with the first of its packets to come. */
  predicate Begins(st: State, ssid: U64, peer: U64, arrivals: seq<Arrival>) {
    arrivals != [] && arrivals[0].Own? && MayBegin(st, ssid, peer, arrivals[0].t.check)
  }

  lemma BeginsAccepts(st: State, ssid: U64, peer: U64, arrivals: seq<Arrival>)
    ensures Begins(st, ssid, peer, arrivals) ==> TrackedWindow(st, ssid) == EmptyWindow && EmptyWindow.Accepts(arrivals[0].k)
  {
    if Begins(st, ssid, peer, arrivals) {
      EmptyAccepts(arrivals[0].k);
    }
  }

  predicate FirstArrival(arrivals: seq<Arrival>, i: nat)
    requires i < |arrivals| && arrivals[i].Own?
  {
    forall j :: 0 <= j < i && arrivals[j].Own? ==> arrivals[j].k != arrivals[i].k
  }

  /** Packets of one server packer from its first on, in any order, with duplicates, between anything that does not open
      and anything of one other server session, each first arriving at most 8128 behind the highest id so far: the first
      copy of each is delivered with its source and payload, every other copy is refused as a replay. */
  lemma RepliesDeliveredExactlyOnce(keys: Keys, st: State, ssid: U64, peer: U64, sent: seq<Sent>, arrivals: seq<Arrival>, i: nat)
    requires ArrivalsOk(keys, peer, sent, arrivals) && i < |arrivals| && arrivals[i].Own? && Begins(st, ssid, peer, arrivals)
    requires FirstArrival(arrivals, i) ==>
               forall j :: 0 <= j < i && arrivals[j].Own? ==> arrivals[j].k - arrivals[i].k <= Size
    ensures var r := Outcomes(keys, st, ssid, peer, sent, arrivals)[i];
            if FirstArrival(arrivals, i) then DeliveredAs(r, sent[arrivals[i].k]) else r == Err(Replay)
  {
    hide Outcomes, Gate, TimestampOk, Tame;
    OutcomesAreAnswers(keys, st, ssid, peer, sent, arrivals, i);
    BeginsAccepts(st, ssid, peer, arrivals);
    var ids := IdsOf(arrivals);
    assert FirstArrival(arrivals, i) <==> FirstOf(ids, i) by {
      if !FirstArrival(arrivals, i) {
        var j :| 0 <= j < i && arrivals[j].Own? && arrivals[j].k == arrivals[i].k;
        assert ids[j] == ids[i];
      }
    }
    GateIsFirst(ids, i);
  }

  // ----- the objects -----

  datatype Message = Message(source: AddrPort, payload: Bytes, now: int, draw: nat)

  ghost function WireOf(p: ShadowPacketServerPacker, spid: U64, s: Sent): Bytes
    requires |s.pad| <= 0xffff
  {
    ServerPacket(p.suite, p.psk, p.ssid, spid, ServerMessage(s.ts, p.csid, s.pad, s.source, s.payload))
  }

  lemma MessageParts(was: Bytes, ts: U64, csid: U64, padLen: nat, source: AddrPort, start: nat, length: nat, pad: Bytes, payload: Bytes)
    requires padLen <= 0xffff && padLen + LengthOfAddrPort(source) <= start && start + length <= |was|
    requires pad == was[start - LengthOfAddrPort(source) - padLen..start - LengthOfAddrPort(source)] && payload == was[start..start + length]
    ensures |pad| == padLen && ServerMessageIn(was, ts, csid, padLen, source, start, length) == ServerMessage(ts, csid, pad, source, payload)
  {
    hide LengthOfAddrPort, ServerMessage;
  }

  /** One message through PackInPlace, in a buffer with room for its header and padding. */
  method PackOne(p: ShadowPacketServerPacker, m: Message, maxPacketLen: int) returns (wire: Option<Bytes>, ghost s: Sent)
    modifies p
    ensures wire.None? ==> p.spid == old(p.spid)
    ensures wire.None? <==> p.HeaderNoPaddingLength(m.source) + |m.payload| + Overhead > maxPacketLen
    ensures wire.Some? ==>
              && p.spid == (old(p.spid) + 1) % Two64
              && |s.pad| <= 0xffff && s.ts == ToU64(m.now) && s.source == m.source && s.payload == m.payload
              && wire.value == WireOf(p, old(p.spid), s)
  {
    hide ServerPacket, ServerMessage, LengthOfAddrPort, Patch, Crypto.Primitives.Lawful, ServerMessageIn, PaddingLength, MaxPadding;
    var start := p.HeaderNoPaddingLength(m.source) + MaxPaddingLength;
    var b := new Byte[start + |m.payload| + Overhead];
    Put(b, start, m.payload);
    ghost var was, spid := b[..], p.spid;
    var packed, padLen := p.PackInPlace(b, m.source, start, |m.payload|, maxPacketLen, m.now, m.draw);
    s := Sent(ToU64(m.now), [], m.source, m.payload);
    if packed.Err? {
      return None, s;
    }
    ghost var message := ServerMessageIn(was, ToU64(m.now), p.csid, padLen, m.source, start, |m.payload|);
    ghost var pad := was[start - LengthOfAddrPort(m.source) - padLen..start - LengthOfAddrPort(m.source)];
    MessageParts(was, ToU64(m.now), p.csid, padLen, m.source, start, |m.payload|, pad, m.payload);
    s := Sent(ToU64(m.now), pad, m.source, m.payload);
    PatchSlice(was, packed.value.start, ServerPacket(p.suite, p.psk, p.ssid, spid, message));
    wire := Some(b[packed.value.start..packed.value.start + packed.value.length]);
  }

  /** What a server packer that has packed nothing makes of the messages, one packet each; it stops at one that does
      not fit. */
  method PackAll(p: ShadowPacketServerPacker, messages: seq<Message>, maxPacketLen: int)
    returns (wires: seq<Bytes>, ghost sent: seq<Sent>)
    requires p.spid == 0 && |messages| <= Two64
    modifies p
    ensures |wires| == |sent| <= |messages|
    ensures forall k :: 0 <= k < |sent| ==>
              && |sent[k].pad| <= 0xffff && sent[k].ts == ToU64(messages[k].now)
              && sent[k].source == messages[k].source && sent[k].payload == messages[k].payload
    ensures forall k :: 0 <= k < |sent| ==> wires[k] == WireOf(p, k, sent[k])
    ensures |sent| < |messages| ==>
              var m := messages[|sent|];
              p.HeaderNoPaddingLength(m.source) + |m.payload| + Overhead > maxPacketLen
  {
    hide ServerPacket, ServerMessage, LengthOfAddrPort, Crypto.Primitives.Lawful, ShadowPacketServerPacker.HeaderNoPaddingLength;
    wires, sent := [], [];
    for i := 0 to |messages|
      invariant |wires| == |sent| == i && p.spid == i % Two64
      invariant forall k :: 0 <= k < i ==>
                  && |sent[k].pad| <= 0xffff && sent[k].ts == ToU64(messages[k].now)
                  && sent[k].source == messages[k].source && sent[k].payload == messages[k].payload
      invariant forall k :: 0 <= k < i ==> wires[k] == WireOf(p, k, sent[k])
    {
      var wire;
      ghost var s;
      wire, s := PackOne(p, messages[i], maxPacketLen);
      if wire.None? {
        return;
      }
      wires, sent := wires + [wire.value], sent + [s];
    }
  }

  /** What a datagram was to the client. */
  datatype Outcome = Delivered(source: AddrPort, payload: Bytes) | Dropped(e: RecvError)

  ghost predicate SameOutcome(o: Outcome, r: Result<(Delivery, Accepted), RecvError>) {
    if r.Ok? then o == Delivered(r.value.0.source, r.value.0.payload) else o == Dropped(r.error)
  }

  ghost predicate SameOutcomes(outs: seq<Outcome>, rs: seq<Result<(Delivery, Accepted), RecvError>>) {
    |outs| == |rs| && forall i :: 0 <= i < |rs| ==> SameOutcome(outs[i], rs[i])
  }

  lemma SameCons(o: Outcome, r: Result<(Delivery, Accepted), RecvError>, outs: seq<Outcome>,
                 rs: seq<Result<(Delivery, Accepted), RecvError>>)
    requires SameOutcome(o, r) && SameOutcomes(outs, rs)
    ensures SameOutcomes([o] + outs, [r] + rs)
  {}

  /** One datagram in a buffer of its own. */
  method ReceiveOne(u: ShadowPacketClientUnpacker, pkt: Bytes, t: Times) returns (o: Outcome)
    requires u.Valid()
    modifies u.Repr()
    ensures u.Valid() && fresh(u.Repr() - old(u.Repr()))
    ensures var (st', r) := Unpack(u.keys, old(u.Spec()), pkt, t);
            u.Spec() == st' && SameOutcome(o, r)
  {
    hide Unpack, ShadowPacketClientUnpacker.Valid, ShadowPacketClientUnpacker.Spec;
    var b := new Byte[|pkt|];
    Put(b, 0, pkt);
    assert b[0..0 + |pkt|] == pkt;
    ghost var r := Unpack(u.keys, u.Spec(), pkt, t).1;
    assert r.Ok? || r.Err?;
    var source, start, length := u.UnpackInPlace(b, 0, |pkt|, t);
    o := if source.Err? then Dropped(source.error) else Delivered(source.value, b[start..start + length]);
  }

  /** One arrival after another; arrivals refer to the packets by number. */
  method ReceiveAll(u: ShadowPacketClientUnpacker, ssid: U64, peer: U64, wires: seq<Bytes>, ghost sent: seq<Sent>, arrivals: seq<Arrival>)
    returns (outs: seq<Outcome>)
    requires u.Valid() && |wires| == |sent| && ArrivalsOk(u.keys, peer, sent, arrivals)
    requires forall k :: 0 <= k < |sent| && k < Two64 ==> |sent[k].pad| <= 0xffff && wires[k] == Wire(u.keys, ssid, sent, k)
    modifies u.Repr()
    ensures u.Valid()
    ensures SameOutcomes(outs, Outcomes(u.keys, old(u.Spec()), ssid, peer, sent, arrivals))
    decreases |arrivals|
  {
    hide Unpack, ShadowPacketClientUnpacker.Valid, ShadowPacketClientUnpacker.Spec, ShadowPacketClientUnpacker.Repr, Outcomes,
         Wire, ArrivalsOk, SameOutcome, SameOutcomes, Crypto.Primitives.Lawful;
    if arrivals == [] {
      NoOutcomes(u.keys, u.Spec(), ssid, peer, sent, arrivals);
      return [];
    }
    var a := arrivals[0];
    ghost var keys, st := u.keys, u.Spec();
    OutcomesStep(keys, st, ssid, peer, sent, arrivals);
    var pkt := if a.Own? then wires[a.k] else a.pkt;
    var o := ReceiveOne(u, pkt, a.t);
    ghost var r := Unpack(keys, st, pkt, a.t).1;
    ghost var rest := Outcomes(keys, u.Spec(), ssid, peer, sent, arrivals[1..]);
    outs := ReceiveAll(u, ssid, peer, wires, sent, arrivals[1..]);
    SameCons(o, r, outs, rest);
    outs := [o] + outs;
  }

  lemma NoOutcomes(keys: Keys, st: State, ssid: U64, peer: U64, sent: seq<Sent>, arrivals: seq<Arrival>)
    requires arrivals == [] && ArrivalsOk(keys, peer, sent, arrivals)
    ensures SameOutcomes([], Outcomes(keys, st, ssid, peer, sent, arrivals))
  {}

  lemma OutcomesStep(keys: Keys, st: State, ssid: U64, peer: U64, sent: seq<Sent>, arrivals: seq<Arrival>)
    requires arrivals != [] && ArrivalsOk(keys, peer, sent, arrivals)
    ensures var a := arrivals[0];
            && ArrivalsOk(keys, peer, sent, arrivals[1..])
            && (a.Own? ==> a.k < |sent| && |sent[a.k].pad| <= 0xffff)
            && var pkt := if a.Own? then Wire(keys, ssid, sent, a.k) else a.pkt;
               var (st', r) := Unpack(keys, st, pkt, a.t);
               Outcomes(keys, st, ssid, peer, sent, arrivals) == [r] + Outcomes(keys, st', ssid, peer, sent, arrivals[1..])
  {
    hide Unpack, Wire, Tame, TimestampOk;
    assert arrivals[0] in arrivals;
  }

  /** From server packer to client: whatever order, repetition and other traffic the network makes of the packets, the
      first copy of each delivers its source and payload and every other copy is refused. */
  method Reply(p: ShadowPacketServerPacker, u: ShadowPacketClientUnpacker, messages: seq<Message>, maxPacketLen: int, peer: U64,
               arrivals: seq<Arrival>)
    returns (outs: seq<Outcome>)
    requires u.Valid() && p !in u.Repr() && p.spid == 0 && |messages| <= Two64
    requires u.keys == Keys(p.suite, p.psk, p.csid) && Begins(u.Spec(), p.ssid, peer, arrivals)
    requires forall k :: 0 <= k < |messages| ==>
               p.HeaderNoPaddingLength(messages[k].source) + |messages[k].payload| + Overhead <= maxPacketLen
    requires forall a :: a in arrivals ==>
               if a.Own? then a.k < |messages| && TimestampOk(ToU64(messages[a.k].now), Unix(a.t.stamp))
               else Tame(u.keys, peer, a.pkt)
    requires forall i, j :: 0 <= j < i < |arrivals| && arrivals[i].Own? && arrivals[j].Own? && FirstArrival(arrivals, i) ==>
               arrivals[j].k - arrivals[i].k <= Size
    modifies p, u.Repr()
    ensures |outs| == |arrivals|
    ensures forall i :: 0 <= i < |arrivals| && arrivals[i].Own? ==>
              var m := messages[arrivals[i].k];
              outs[i] == if FirstArrival(arrivals, i) then Delivered(m.source.Unmap(), m.payload) else Dropped(Replay)
  {
    hide ShadowPacketClientUnpacker.Valid, ShadowPacketClientUnpacker.Spec, Outcomes, Begins, Tame, TimestampOk, AddrPort.Unmap,
         FirstArrival, ShadowPacketServerPacker.HeaderNoPaddingLength, ServerPacket, ServerMessage, Crypto.Primitives.Lawful;
    ghost var held := u.Repr();
    assert forall o :: o in held ==> allocated(o);
    ghost var st := u.Spec();
    var wires;
    ghost var sent;
    wires, sent := PackAll(p, messages, maxPacketLen);
    assert |sent| == |messages|;
    SentOk(sent);
    outs := ReceiveAll(u, p.ssid, peer, wires, sent, arrivals);
    forall i | 0 <= i < |arrivals| && arrivals[i].Own?
      ensures var m := messages[arrivals[i].k];
              outs[i] == if FirstArrival(arrivals, i) then Delivered(m.source.Unmap(), m.payload) else Dropped(Replay)
    {
      assert arrivals[i] in arrivals;
      RepliesDeliveredExactlyOnce(u.keys, st, p.ssid, peer, sent, arrivals, i);
    }
  }

  lemma SentOk(sent: seq<Sent>)
    requires forall k :: 0 <= k < |sent| ==> |sent[k].pad| <= 0xffff
    ensures forall s :: s in sent ==> |s.pad| <= 0xffff
  {}
}
