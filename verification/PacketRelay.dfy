/** The session relay's receiver for Shadowsocks 2022: server, session table and unpackers working on one buffer, and
    whole runs from a client packer to it. */
module PacketRelay {
  import opened Words
  import opened Crypto
  import opened SocksAddr
  import opened PacketHeader
  import opened SlidingWindow
  import opened PacketPacker
  import opened PacketServer

  /** An unpacker of this server that owns the objects in `foot`. */
  ghost predicate Owns(server: UDPServer, u: ShadowPacketServerUnpacker, foot: set<object>)
    reads foot
  {
    && u in foot && (u.filter != null ==> u.filter in foot && u.filter.ring in foot)
    && u.Valid() && u.suite == server.suite && u.identityHeadersLen == server.config.IdentityLen()
  }

  ghost function SpecOf(u: ShadowPacketServerUnpacker, foot: set<object>): Session
    reads foot
  {
    if u in foot && (u.filter != null ==> u.filter in foot) then u.Spec() else Session([], EmptyWindow, [])
  }

  /** Where the call left the payload. */
  datatype Received = Received(target: Addr, start: nat, length: nat)

  ghost predicate Delivers(r: Result<Received, RecvError>, d: Delivery, b: array<Byte>)
    reads b
  {
    && r.Ok? && r.value.target == d.target && r.value.start + r.value.length <= b.Length
    && b[r.value.start..r.value.start + r.value.length] == d.payload
  }

  /** One unpacker on its own: what it owns stays its own. */
  method UnpackOwned(server: UDPServer, u: ShadowPacketServerUnpacker, ghost foot: set<object>, b: array<Byte>, start: nat, len: nat, now: int)
    returns (r: Result<Received, RecvError>, ghost foot': set<object>)
    requires Owns(server, u, foot) && b !in foot && start + len <= b.Length
    modifies foot, b
    ensures foot <= foot' && fresh(foot' - foot) && Owns(server, u, foot')
    ensures var (sess, d) := Unpack(server.suite, server.config.IdentityLen(), old(SpecOf(u, foot)), old(b[start..start + len]), now);
            && SpecOf(u, foot') == sess
            && (if d.Ok? then r.Ok? && Delivers(r, d.value, b) else r == Err(d.error))
  {
    hide Unpack, Represents, Crypto.Primitives.Lawful, ShadowPacketServerUnpacker.Valid;
    ghost var d := Unpack(server.suite, server.config.IdentityLen(), SpecOf(u, foot), b[start..start + len], now).1;
    assert d.Ok? || d.Err?;
    var target, at, length := u.UnpackInPlace(b, start, len, now);
    foot' := foot + (if u.filter == null then {} else {u.filter, u.filter.ring});
    r := if target.Err? then Err(target.error) else Ok(Received(target.value, at, length));
  }

  type Table = map<U64, ShadowPacketServerUnpacker>
  type Feet = map<U64, set<object>>

  ghost function Union(feet: Feet): set<object> {
    set id, o | id in feet && o in feet[id] :: o
  }

  lemma InUnion(feet: Feet, id: U64)
    requires id in feet
    ensures feet[id] <= Union(feet)
  {}

  lemma UnionUpdate(feet: Feet, id: U64, foot: set<object>)
    requires id in feet ==> feet[id] <= foot
    ensures Union(feet[id := foot]) == Union(feet) + foot
  {
    var feet' := feet[id := foot];
    InUnion(feet', id);
    forall o | o in Union(feet)
      ensures o in Union(feet')
    {
      var i :| i in feet && o in feet[i];
      assert i in feet' && o in feet'[i];
    }
  }

  ghost predicate Apart(feet: Feet) {
    forall id, id' :: id in feet && id' in feet && id != id' ==> feet[id] !! feet[id']
  }

  ghost predicate OwnsAt(server: UDPServer, table: Table, feet: Feet, id: U64)
    requires id in table && id in feet
    reads Union(feet)
  {
    InUnion(feet, id);
    Owns(server, table[id], feet[id])
  }

  /** Every session of the table owns its part, and no two share any. */
  ghost predicate TableValid(server: UDPServer, table: Table, feet: Feet)
    reads Union(feet)
  {
    && table.Keys == feet.Keys && Apart(feet)
    && forall id :: id in table ==> OwnsAt(server, table, feet, id)
  }

  ghost function TableSpec(table: Table, feet: Feet): map<U64, Session>
    reads Union(feet)
  {
    map id | id in table && id in feet :: (InUnion(feet, id); SpecOf(table[id], feet[id]))
  }

  /** A packet of a session in the table. */
  method Known(server: UDPServer, table: Table, ghost feet: Feet, csid: U64, b: array<Byte>, start: nat, len: nat, now: int)
    returns (r: Result<Received, RecvError>, ghost foot: set<object>)
    requires TableValid(server, table, feet) && csid in table && b !in Union(feet) && start + len <= b.Length
    modifies feet[csid], b
    ensures feet[csid] <= foot && fresh(foot - feet[csid]) && TableValid(server, table, feet[csid := foot])
    ensures csid in old(TableSpec(table, feet))
    ensures var (sess, d) := Unpack(server.suite, server.config.IdentityLen(), old(TableSpec(table, feet))[csid],
                                    old(b[start..start + len]), now);
            && TableSpec(table, feet[csid := foot]) == old(TableSpec(table, feet))[csid := sess]
            && (if d.Ok? then r.Ok? && Delivers(r, d.value, b) else r == Err(d.error))
  {
    hide Unpack, Owns, SpecOf, Delivers, TableValid, TableSpec;
    ghost var held := Union(feet);
    assert forall o :: o in held ==> allocated(o);
    hide Union;
    assert held == Union(feet);
    TableParts(server, table, feet);
    ghost var before := TableSpec(table, feet);
    r, foot := UnpackOwned(server, table[csid], feet[csid], b, start, len, now);
    forall id | id in table && id != csid
      ensures Owns(server, table[id], feet[id]) && SpecOf(table[id], feet[id]) == before[id]
    {
      assert feet[id] !! feet[csid] && b !in feet[id];
    }
    TableKeep(server, table, feet, csid, foot, before);
  }

  lemma TableParts(server: UDPServer, table: Table, feet: Feet)
    requires TableValid(server, table, feet)
    ensures table.Keys == feet.Keys == TableSpec(table, feet).Keys && Apart(feet)
    ensures forall id :: id in table ==>
              && feet[id] <= Union(feet) && Owns(server, table[id], feet[id])
              && TableSpec(table, feet)[id] == SpecOf(table[id], feet[id])
  {
    hide Owns, SpecOf, Union;
    forall id | id in table
      ensures feet[id] <= Union(feet) && Owns(server, table[id], feet[id])
    {
      InUnion(feet, id);
      assert OwnsAt(server, table, feet, id);
    }
  }

  lemma TableKeep(server: UDPServer, table: Table, feet: Feet, csid: U64, foot: set<object>, before: map<U64, Session>)
    requires table.Keys == feet.Keys == before.Keys && Apart(feet) && csid in table
    requires feet[csid] <= foot && (foot - feet[csid]) !! Union(feet) && Owns(server, table[csid], foot)
    requires forall id :: id in table && id != csid ==>
               Owns(server, table[id], feet[id]) && SpecOf(table[id], feet[id]) == before[id]
    ensures TableValid(server, table, feet[csid := foot])
    ensures TableSpec(table, feet[csid := foot]) == before[csid := SpecOf(table[csid], foot)]
  {
    hide Owns, SpecOf, Union;
    var feet' := feet[csid := foot];
    forall id | id in table
      ensures OwnsAt(server, table, feet', id)
      ensures id != csid ==> feet[id] !! foot
    {
      InUnion(feet, id);
      InUnion(feet', id);
    }
  }

  /** A packet of a session that is not in the table: the unpacker it would get, after this packet. */
  method Unknown(server: UDPServer, b: array<Byte>, start: nat, len: nat, now: int)
    returns (r: Result<Received, RecvError>, u: ShadowPacketServerUnpacker?, ghost foot: set<object>)
    requires server.Valid() && SeparateHeaderLength <= len && start + len <= b.Length
    modifies server, b
    ensures server.Valid() && fresh(foot)
    ensures var first := FirstPacket(server.suite, server.config, old(b[start..start + len]), now);
            if first.Ok? then
              && r.Ok? && Delivers(r, first.value.1, b)
              && u != null && Owns(server, u, foot) && SpecOf(u, foot) == first.value.0
            else r == Err(first.error)
  {
    hide Unpack, UserOf, OpenIdentity, Represents, Crypto.Primitives.Lawful, SessionKey, Patch, Delivers;
    u, foot := null, {};
    ghost var clear := b[start..start + len];
    PatchSlice(b[..], start, OpenIdentity(server.suite, server.config, clear));
    var n := server.NewUnpacker(b, start, len);
    if n.Err? {
      return Err(n.error), null, {};
    }
    u := n.value;
    assert b[start..start + len] == OpenIdentity(server.suite, server.config, clear);
    assert Owns(server, u, {u}) && SpecOf(u, {u}) == u.Spec();
    ghost var d := Unpack(server.suite, server.config.IdentityLen(), u.Spec(), b[start..start + len], now).1;
    assert d.Ok? || d.Err?;
    r, foot := UnpackOwned(server, u, {u}, b, start, len, now);
  }

  /** The server with its sessions. */
  class SessionTable {
    const server: UDPServer
    var table: Table
    ghost var feet: Feet

    constructor (server: UDPServer)
      requires server.Valid()
      ensures this.server == server && Valid() && Spec() == map[] && Repr() == {this, server}
    {
      this.server, table, feet := server, map[], map[];
    }

    ghost function Repr(): set<object>
      reads this
    {
      {this, server} + Union(feet)
    }

    ghost predicate Valid()
      reads Repr()
    {
      server.Valid() && this !in Union(feet) && server !in Union(feet) && TableValid(server, table, feet)
    }

    ghost function Spec(): map<U64, Session>
      reads Repr()
    {
      TableSpec(table, feet)
    }

    /** A packet of a session in the table. */
    method ToSession(csid: U64, b: array<Byte>, start: nat, len: nat, now: int) returns (r: Result<Received, RecvError>)
      requires Valid() && csid in Spec() && csid in table && b !in Repr() && start + len <= b.Length
      modifies Repr(), b
      ensures Valid() && fresh(Repr() - old(Repr()))
      ensures var (sess, d) := Unpack(server.suite, server.config.IdentityLen(), old(Spec())[csid], old(b[start..start + len]), now);
              && Spec() == old(Spec())[csid := sess]
              && (if d.Ok? then r.Ok? && Delivers(r, d.value, b) else r == Err(d.error))
    {
      hide Unpack, Delivers, UDPServer.Valid, TableValid, TableSpec, Apart;
      ghost var held := Union(feet);
      assert forall o :: o in held ==> allocated(o);
      hide Union;
      assert held == Union(feet);
      TableFacts(server, table, feet);
      ghost var foot;
      InUnion(feet, csid);
      r, foot := Known(server, table, feet, csid, b, start, len, now);
      UnionUpdate(feet, csid, foot);
      feet := feet[csid := foot];
    }

    /** A packet of a session that is not in the table, which is added once the packet unpacks. */
    method ToNewSession(csid: U64, b: array<Byte>, start: nat, len: nat, now: int) returns (r: Result<Received, RecvError>)
      requires Valid() && csid !in table && b !in Repr() && SeparateHeaderLength <= len && start + len <= b.Length
      modifies Repr(), b
      ensures Valid() && fresh(Repr() - old(Repr()))
      ensures var first := FirstPacket(server.suite, server.config, old(b[start..start + len]), now);
              if first.Ok? then Spec() == old(Spec())[csid := first.value.0] && r.Ok? && Delivers(r, first.value.1, b)
              else Spec() == old(Spec()) && r == Err(first.error)
    {
      hide FirstPacket, Delivers, UDPServer.Valid, TableValid, TableSpec, Owns, SpecOf, Apart;
      ghost var held := Union(feet);
      assert forall o :: o in held ==> allocated(o);
      hide Union;
      assert held == Union(feet);
      TableFacts(server, table, feet);
      var u;
      ghost var foot;
      r, u, foot := Unknown(server, b, start, len, now);
      if r.Ok? {
        UnionUpdate(feet, csid, foot);
        TableAdd(server, table, feet, csid, u, foot);
        table := table[csid := u];
        feet := feet[csid := foot];
      }
    }

    /** A packet whose separate header is decrypted. */
    method Dispatch(csid: U64, b: array<Byte>, start: nat, len: nat, now: int) returns (r: Result<Received, RecvError>)
      requires Valid() && b !in Repr() && SeparateHeaderLength <= len && start + len <= b.Length
      modifies Repr(), b
      ensures Valid() && fresh(Repr() - old(Repr()))
      ensures var (table', d) := PacketServer.Dispatch(server.suite, server.config, old(Spec()), csid, old(b[start..start + len]), now);
              && Spec() == table'
              && (if d.Ok? then r.Ok? && Delivers(r, d.value, b) else r == Err(d.error))
    {
      hide Unpack, FirstPacket, Delivers, Valid, Spec, Repr, PacketServer.Dispatch;
      DispatchCases(server.suite, server.config, Spec(), csid, b[start..start + len], now);
      SpecKeys();
      if csid in table {
        r := ToSession(csid, b, start, len, now);
      } else {
        r := ToNewSession(csid, b, start, len, now);
      }
    }

    lemma SpecKeys()
      requires Valid()
      ensures Spec().Keys == table.Keys
    {
      TableFacts(server, table, feet);
    }

    /** One datagram: session lookup, unpacking in place, and a new session stored only if its packet unpacks. */
    method Receive(b: array<Byte>, start: nat, len: nat, now: int) returns (r: Result<Received, RecvError>)
      requires Valid() && b !in Repr() && start + len <= b.Length
      modifies Repr(), b
      ensures Valid() && fresh(Repr() - old(Repr()))
      ensures var (table', d) := PacketServer.Receive(server.suite, server.config, old(Spec()), old(b[start..start + len]), now);
              && Spec() == table'
              && (if d.Ok? then r.Ok? && Delivers(r, d.value, b) else r == Err(d.error))
    {
      hide PacketServer.Dispatch, OpenHeader, Crypto.Primitives.Lawful, Patch, Get64, Delivers, UDPServer.Valid,
           TableValid, TableSpec;
      ghost var pkt, held := b[start..start + len], Union(feet);
      assert forall o :: o in held ==> allocated(o);
      hide Union;
      assert held == Union(feet);
      var csid := server.SessionInfo(b, start, len);
      if csid.Err? {
        return Err(csid.error);
      }
      ghost var clear := OpenHeader(server.suite, server.config, pkt);
      PatchSlice(old(b[..]), start, clear);
      assert b[start..start + len] == clear;
      r := Dispatch(csid.value, b, start, len, now);
    }
  }

  lemma DispatchCases(s: Suite, cfg: ServerConfig, table: map<U64, Session>, csid: U64, clear: Bytes, now: int)
    requires |clear| >= SeparateHeaderLength
    ensures var r := PacketServer.Dispatch(s, cfg, table, csid, clear, now);
            if csid in table then
              var u := Unpack(s, cfg.IdentityLen(), table[csid], clear, now);
              r == (table[csid := u.0], u.1)
            else
              var first := FirstPacket(s, cfg, clear, now);
              if first.Ok? then r == (table[csid := first.value.0], Ok(first.value.1)) else r == (table, Err(first.error))
  {
    hide Unpack, FirstPacket;
  }

  lemma TableFacts(server: UDPServer, table: Table, feet: Feet)
    requires TableValid(server, table, feet)
    ensures table.Keys == feet.Keys == TableSpec(table, feet).Keys
  {}

  lemma TableAdd(server: UDPServer, table: Table, feet: Feet, id: U64, u: ShadowPacketServerUnpacker, foot: set<object>)
    requires TableValid(server, table, feet) && id !in table && Owns(server, u, foot) && foot !! Union(feet)
    ensures TableValid(server, table[id := u], feet[id := foot])
    ensures TableSpec(table[id := u], feet[id := foot]) == TableSpec(table, feet)[id := SpecOf(u, foot)]
    ensures TableSpec(table, feet).Keys == table.Keys
  {
    hide Owns, SpecOf;
    var table', feet' := table[id := u], feet[id := foot];
    forall i | i in table'
      ensures OwnsAt(server, table', feet', i)
    {
      InUnion(feet', i);
      if i != id {
        InUnion(feet, i);
        assert OwnsAt(server, table, feet, i);
      }
    }
    forall i | i in feet
      ensures feet[i] !! foot
    {
      InUnion(feet, i);
    }
  }

  // ----- whole runs -----

  datatype Message = Message(target: Addr, payload: Bytes, now: int, draw: nat)

  /** What a packer that has packed nothing makes of the messages, one packet each: the k-th is the k-th packet of the
      run theorem. Packing stops at a message that does not fit. */
  method PackAll(p: ShadowPacketClientPacker, messages: seq<Message>) returns (wires: seq<Bytes>, ghost sent: seq<Sent>)
    requires p.cpid == 0 && |messages| <= Two64
    modifies p
    ensures |wires| == |sent| <= |messages|
    ensures forall k :: 0 <= k < |sent| ==>
              && |sent[k].pad| <= 0xffff && sent[k].ts == ToU64(messages[k].now)
              && sent[k].target == messages[k].target && sent[k].payload == messages[k].payload
    ensures forall k :: 0 <= k < |sent| ==> wires[k] == Wire(p.suite, p.keys, p.csid, sent, k)
    ensures |sent| < |messages| ==>
              var m := messages[|sent|];
              p.HeaderNoPaddingLength(m.target) + |m.payload| + Overhead > p.maxPacketSize
  {
    hide ClientPacket, ClientMessage, LengthOf, Crypto.Primitives.Lawful;
    wires, sent := [], [];
    for i := 0 to |messages|
      invariant |wires| == |sent| == i && p.cpid == i % Two64
      invariant forall k :: 0 <= k < i ==>
                  && |sent[k].pad| <= 0xffff && sent[k].ts == ToU64(messages[k].now)
                  && sent[k].target == messages[k].target && sent[k].payload == messages[k].payload
      invariant forall k :: 0 <= k < i ==> wires[k] == WireOf(p, k, sent[k])
    {
      var wire;
      ghost var s;
      wire, s := PackOne(p, messages[i]);
      if wire.None? {
        return;
      }
      wires, sent := wires + [wire.value], sent + [s];
    }
  }

  ghost function WireOf(p: ShadowPacketClientPacker, cpid: U64, s: Sent): Bytes
    requires |s.pad| <= 0xffff
  {
    ClientPacket(p.suite, p.keys, p.csid, cpid, ClientMessage(s.ts, s.pad, s.target, s.payload))
  }

  /** One message through PackInPlace, in a buffer with room for its header and padding. */
  method PackOne(p: ShadowPacketClientPacker, m: Message) returns (wire: Option<Bytes>, ghost s: Sent)
    modifies p
    ensures wire.None? ==> p.cpid == old(p.cpid)
    ensures wire.None? <==> p.HeaderNoPaddingLength(m.target) + |m.payload| + Overhead > p.maxPacketSize
    ensures wire.Some? ==>
              && p.cpid == (old(p.cpid) + 1) % Two64
              && |s.pad| <= 0xffff && s.ts == ToU64(m.now) && s.target == m.target && s.payload == m.payload
              && wire.value == WireOf(p, old(p.cpid), s)
  {
    hide ClientPacket, ClientMessage, LengthOf, Patch, Crypto.Primitives.Lawful, MessageIn, PaddingLength, MaxPadding;
    var start := p.IdentityEnd() + ClientMessageFixedLength + LengthOf(m.target) + MaxPaddingLength;
    var b := new Byte[start + |m.payload| + Overhead];
    Put(b, start, m.payload);
    ghost var was, cpid := b[..], p.cpid;
    var packed, dest, padLen := p.PackInPlace(b, m.target, start, |m.payload|, m.now, m.draw);
    s := Sent(ToU64(m.now), [], m.target, m.payload);
    if packed.Err? {
      return None, s;
    }
    ghost var message := MessageIn(was, ToU64(m.now), padLen, m.target, start, |m.payload|);
    ghost var pad := was[start - LengthOf(m.target) - padLen..start - LengthOf(m.target)];
    MessageParts(was, ToU64(m.now), padLen, m.target, start, |m.payload|, pad, m.payload);
    s := Sent(ToU64(m.now), pad, m.target, m.payload);
    PatchSlice(was, packed.value.start, ClientPacket(p.suite, p.keys, p.csid, cpid, message));
    wire := Some(b[packed.value.start..packed.value.start + packed.value.length]);
  }

  lemma MessageParts(was: Bytes, ts: U64, padLen: nat, target: Addr, start: nat, length: nat, pad: Bytes, payload: Bytes)
    requires padLen <= 0xffff && padLen + LengthOf(target) <= start && start + length <= |was|
    requires pad == was[start - LengthOf(target) - padLen..start - LengthOf(target)] && payload == was[start..start + length]
    ensures |pad| == padLen && MessageIn(was, ts, padLen, target, start, length) == ClientMessage(ts, pad, target, payload)
  {
    hide LengthOf, ClientMessage;
  }

  /** What a datagram was to the receiver. */
  datatype Outcome = Delivered(target: Addr, payload: Bytes) | Refused(e: RecvError)

  ghost predicate SameOutcome(o: Outcome, r: Result<Delivery, RecvError>) {
    if r.Ok? then o == Delivered(r.value.target, r.value.payload) else o == Refused(r.error)
  }

  /** The session relay fed with datagrams, each in a buffer of its own. */
  method ReceiveOne(t: SessionTable, pkt: Bytes, now: int) returns (o: Outcome)
    requires t.Valid()
    modifies t.Repr()
    ensures t.Valid() && fresh(t.Repr() - old(t.Repr()))
    ensures var (table', r) := PacketServer.Receive(t.server.suite, t.server.config, old(t.Spec()), pkt, now);
            t.Spec() == table' && SameOutcome(o, r)
  {
    hide PacketServer.Receive, SessionTable.Valid, SessionTable.Spec;
    var b := new Byte[|pkt|];
    Put(b, 0, pkt);
    assert b[0..0 + |pkt|] == pkt;
    var r := t.Receive(b, 0, |pkt|, now);
    o := if r.Err? then Refused(r.error) else Delivered(r.value.target, b[r.value.start..r.value.start + r.value.length]);
  }

  ghost predicate SameOutcomes(outs: seq<Outcome>, rs: seq<Result<Delivery, RecvError>>) {
    |outs| == |rs| && forall i :: 0 <= i < |rs| ==> SameOutcome(outs[i], rs[i])
  }

  lemma SameCons(o: Outcome, r: Result<Delivery, RecvError>, outs: seq<Outcome>, rs: seq<Result<Delivery, RecvError>>)
    requires SameOutcome(o, r) && SameOutcomes(outs, rs)
    ensures SameOutcomes([o] + outs, [r] + rs)
  {}

  /** One arrival after another; arrivals refer to the packets by number. */
  method ReceiveAll(t: SessionTable, keys: ClientKeys, csid: U64, wires: seq<Bytes>, ghost sent: seq<Sent>, arrivals: seq<Arrival>)
    returns (outs: seq<Outcome>)
    requires t.Valid() && |wires| == |sent| && ArrivalsOk(t.server.suite, t.server.config, keys, csid, sent, arrivals)
    requires forall k :: 0 <= k < |sent| && k < Two64 ==> |sent[k].pad| <= 0xffff && wires[k] == Wire(t.server.suite, keys, csid, sent, k)
    modifies t.Repr()
    ensures t.Valid()
    ensures SameOutcomes(outs, Outcomes(t.server.suite, t.server.config, old(t.Spec()), keys, csid, sent, arrivals))
    decreases |arrivals|
  {
    hide PacketServer.Receive, SessionTable.Valid, SessionTable.Spec, SessionTable.Repr, Outcomes, Wire, ArrivalsOk, SameOutcome,
         SameOutcomes, Crypto.Primitives.Lawful;
    if arrivals == [] {
      NoOutcomes(t.server.suite, t.server.config, t.Spec(), keys, csid, sent, arrivals);
      return [];
    }
    var a := arrivals[0];
    ghost var s, cfg, table := t.server.suite, t.server.config, t.Spec();
    OutcomesStep(s, cfg, table, keys, csid, sent, arrivals);
    var pkt := if a.Own? then wires[a.k] else a.pkt;
    var o := ReceiveOne(t, pkt, a.now);
    ghost var r := PacketServer.Receive(s, cfg, table, pkt, a.now).1;
    ghost var rest := Outcomes(s, cfg, t.Spec(), keys, csid, sent, arrivals[1..]);
    outs := ReceiveAll(t, keys, csid, wires, sent, arrivals[1..]);
    SameCons(o, r, outs, rest);
    outs := [o] + outs;
  }

  lemma NoOutcomes(s: Suite, cfg: ServerConfig, table: map<U64, Session>, keys: ClientKeys, csid: U64, sent: seq<Sent>,
                   arrivals: seq<Arrival>)
    requires arrivals == [] && ArrivalsOk(s, cfg, keys, csid, sent, arrivals)
    ensures SameOutcomes([], Outcomes(s, cfg, table, keys, csid, sent, arrivals))
  {}

  lemma OutcomesStep(s: Suite, cfg: ServerConfig, table: map<U64, Session>, keys: ClientKeys, csid: U64, sent: seq<Sent>,
                     arrivals: seq<Arrival>)
    requires arrivals != [] && ArrivalsOk(s, cfg, keys, csid, sent, arrivals)
    ensures var a := arrivals[0];
            && ArrivalsOk(s, cfg, keys, csid, sent, arrivals[1..])
            && (a.Own? ==> a.k < |sent| && |sent[a.k].pad| <= 0xffff)
            && var pkt := if a.Own? then Wire(s, keys, csid, sent, a.k) else a.pkt;
               var (table', r) := PacketServer.Receive(s, cfg, table, pkt, a.now);
               Outcomes(s, cfg, table, keys, csid, sent, arrivals) == [r] + Outcomes(s, cfg, table', keys, csid, sent, arrivals[1..])
  {
    hide PacketServer.Receive, Wire, Harmless, TimestampOk;
    assert arrivals[0] in arrivals;
  }

  /** From packer to relay: whatever order, repetition and foreign traffic the network makes of the packets, the first
      copy of each delivers its target and payload and every other copy is refused. */
  method Exchange(p: ShadowPacketClientPacker, t: SessionTable, messages: seq<Message>, arrivals: seq<Arrival>)
    returns (outs: seq<Outcome>)
    requires t.Valid() && p !in t.Repr() && p.cpid == 0 && |messages| <= Two64
    requires p.suite == t.server.suite && Matches(p.suite, t.server.config, p.keys) && p.csid !in t.Spec()
    requires forall k :: 0 <= k < |messages| ==>
               p.HeaderNoPaddingLength(messages[k].target) + |messages[k].payload| + Overhead <= p.maxPacketSize
    requires forall a :: a in arrivals ==>
               if a.Own? then a.k < |messages| && TimestampOk(ToU64(messages[a.k].now), a.now)
               else Harmless(p.suite, t.server.config, p.keys, p.csid, a.pkt)
    requires forall i, j :: 0 <= j < i < |arrivals| && arrivals[i].Own? && arrivals[j].Own? && FirstArrival(arrivals, i) ==>
               arrivals[j].k - arrivals[i].k <= Size
    modifies p, t.Repr()
    ensures |outs| == |arrivals|
    ensures forall i :: 0 <= i < |arrivals| && arrivals[i].Own? ==>
              var m := messages[arrivals[i].k];
              outs[i] == if FirstArrival(arrivals, i) then Delivered(m.target.Unmap(), m.payload) else Refused(Replay)
  {
    hide SessionTable.Valid, SessionTable.Spec, Outcomes, Wire, Harmless, TimestampOk, Matches, Addr.Unmap, FirstArrival,
         ShadowPacketClientPacker.HeaderNoPaddingLength, Crypto.Primitives.Lawful;
    ghost var held := t.Repr();
    assert forall o :: o in held ==> allocated(o);
    ghost var table := t.Spec();
    var wires;
    ghost var sent;
    wires, sent := PackAll(p, messages);
    assert |sent| == |messages|;
    SentOk(sent);
    outs := ReceiveAll(t, p.keys, p.csid, wires, sent, arrivals);
    forall i | 0 <= i < |arrivals| && arrivals[i].Own?
      ensures var m := messages[arrivals[i].k];
              outs[i] == if FirstArrival(arrivals, i) then Delivered(m.target.Unmap(), m.payload) else Refused(Replay)
    {
      assert arrivals[i] in arrivals;
      DeliveredExactlyOnce(p.suite, t.server.config, table, p.keys, p.csid, sent, arrivals, i);
    }
  }

  lemma SentOk(sent: seq<Sent>)
    requires forall k :: 0 <= k < |sent| ==> |sent[k].pad| <= 0xffff
    ensures forall s :: s in sent ==> |s.pad| <= 0xffff
  {}
}
