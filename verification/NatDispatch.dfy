/** Which session of the NAT relay gets which packet: over every interleaving, only its own client's, in order of arrival. */
module NatDispatch {
  import opened NatRelay

  /** The packets a session has yet to forward: those of its uplink, then those of its channel. */
  function Queue(x: Session): seq<Buf> {
    (if x.uplink.Uplinking? then x.uplink.batch else []) + x.ch
  }

  function InHand(v: Receiver): seq<Buf> {
    if v.Exited? then [] else v.held
  }

  predicate Increasing(packets: map<Buf, Packet>, q: seq<Buf>) {
    && (forall b :: b in q ==> b in packets)
    && forall i, j :: 0 <= i < j < |q| ==> packets[q[i]].number < packets[q[j]].number
  }

  /** All of them came from the session's client, in this order. */
  predicate OwnInOrder(packets: map<Buf, Packet>, x: Session) {
    Increasing(packets, Queue(x)) && forall b :: b in Queue(x) ==> packets[b].client == x.addr
  }

  /** What is queued came before what the receiver has in hand. */
  predicate Before(packets: map<Buf, Packet>, q: seq<Buf>, hand: seq<Buf>) {
    forall b, c :: b in q && c in hand && b in packets && c in packets ==> packets[b].number < packets[c].number
  }

  predicate Dispatched(st: State) {
    && (forall b :: b in st.packets ==> st.packets[b].number < st.arrived)
    && Increasing(st.packets, InHand(st.receiver))
    && (forall i :: 0 <= i < |st.sessions| ==>
          OwnInOrder(st.packets, st.sessions[i]) && Before(st.packets, Queue(st.sessions[i]), InHand(st.receiver)))
    && (st.receiver.Sending? ==>
          && st.receiver.held != [] && st.receiver.sid < |st.sessions|
          && FromClient(st, st.sessions[st.receiver.sid].addr))
  }

  // ----- a buffer that is being filled is in no queue -----

  lemma {:induction false} OwnedMember(ss: seq<Session>, i: nat, b: Buf)
    requires i < |ss| && b in Owned(ss[i])
    ensures b in OwnedBy(ss)
  {
    hide Owned;
    if i > 0 {
      OwnedMember(ss[1..], i - 1, b);
    }
  }

  lemma QueueOwned(x: Session, b: Buf)
    requires b in Queue(x)
    ensures b in Owned(x)
  {}

  lemma NowhereElse(st: State, b: Buf)
    requires Inv(st) && (b in st.pool || b == st.created)
    ensures b !in InHand(st.receiver)
    ensures forall i :: 0 <= i < |st.sessions| ==> b !in Queue(st.sessions[i])
  {
    hide TableOk, LockOk, StopOk, GroupSize, SessionOk, OwnedBy, Owned, AllBufs, Queue;
    EachOnce(st.created, b);
    var held, owned := Held(st.receiver), OwnedBy(st.sessions);
    assert (st.pool + held + owned)[b] == AllBufs(st.created)[b];
    forall i | 0 <= i < |st.sessions|
      ensures b !in Queue(st.sessions[i])
    {
      if b in Queue(st.sessions[i]) {
        QueueOwned(st.sessions[i], b);
        OwnedMember(st.sessions, i, b);
      }
    }
  }

  // ----- steps -----

  lemma FillDispatches(st: State, r: ReceiverStep)
    requires Inv(st) && Dispatched(st) && ReceiverEnabled(st, r) && (r.GetPooled? || r.GetNew?)
    ensures Dispatched(ReceiverApply(st, r))
  {
    hide Inv, Queue;
    var b := if r.GetPooled? then r.b else st.created;
    NowhereElse(st, b);
    var st' := ReceiverApply(st, r);
    assert InHand(st'.receiver) == InHand(st.receiver) + [b];
    forall i | 0 <= i < |st.sessions|
      ensures OwnInOrder(st'.packets, st.sessions[i]) && Before(st'.packets, Queue(st.sessions[i]), InHand(st'.receiver))
    {
      assert OwnInOrder(st.packets, st.sessions[i]) && Before(st.packets, Queue(st.sessions[i]), InHand(st.receiver));
    }
  }

  lemma SendDispatches(st: State)
    requires Dispatched(st) && ReceiverEnabled(st, Send)
    ensures Dispatched(ReceiverApply(st, Send))
  {
    var st' := ReceiverApply(st, Send);
    var v := st.receiver;
    var x, x' := st.sessions[v.sid], st'.sessions[v.sid];
    assert Queue(x') == Queue(x) + [v.held[0]];
    hide Queue;
    assert OwnInOrder(st.packets, x) && Before(st.packets, Queue(x), v.held);
    forall i | 0 <= i < |st'.sessions|
      ensures OwnInOrder(st'.packets, st'.sessions[i]) && Before(st'.packets, Queue(st'.sessions[i]), InHand(st'.receiver))
    {
      if i != v.sid {
        assert OwnInOrder(st.packets, st.sessions[i]) && Before(st.packets, Queue(st.sessions[i]), v.held);
      }
    }
  }

  /** Nothing new in hand, and at most a session with an empty queue more. */
  lemma NothingNew(st: State, st': State)
    requires Dispatched(st) && st'.packets == st.packets && st'.arrived == st.arrived
    requires InHand(st'.receiver) in [InHand(st.receiver), []]
             || (InHand(st.receiver) != [] && InHand(st'.receiver) == InHand(st.receiver)[1..])
    requires st.sessions <= st'.sessions && forall i :: |st.sessions| <= i < |st'.sessions| ==> Queue(st'.sessions[i]) == []
    requires st'.receiver.Sending? ==>
               && st'.receiver.held != [] && st'.receiver.sid < |st'.sessions|
               && FromClient(st', st'.sessions[st'.receiver.sid].addr)
    ensures Dispatched(st')
  {
    hide Queue, FromClient;
    forall i | 0 <= i < |st'.sessions|
      ensures OwnInOrder(st'.packets, st'.sessions[i]) && Before(st'.packets, Queue(st'.sessions[i]), InHand(st'.receiver))
    {
      if i < |st.sessions| {
        assert OwnInOrder(st.packets, st.sessions[i]) && Before(st.packets, Queue(st.sessions[i]), InHand(st.receiver));
      }
    }
  }

  lemma OtherReceiverDispatches(st: State, r: ReceiverStep)
    requires Inv(st) && Dispatched(st) && ReceiverEnabled(st, r) && !(r.GetPooled? || r.GetNew? || r.Send?)
    ensures Dispatched(ReceiverApply(st, r))
  {
    hide Conserved, LockOk, StopOk, GroupSize, SessionOk, Dispatched;
    NothingNew(st, ReceiverApply(st, r));
  }

  /** A session only ever takes packets off the front of its queue. */
  lemma QueueMoves(x: Session, s: SessionStep)
    requires SessionOk(x)
    requires x.uplink.Uplinking? || !(s.Dequeue? || s.WriteNat? || s.PutBatch? || s.UplinkEnd?)
    requires s.Dequeue? || s.DrainOne? ==> x.ch != []
    requires s.DrainOne? ==> x.pc.Draining?
    requires s.PutBatch? ==> x.uplink.batch != []
    requires s.UplinkEnd? ==> x.uplink.batch == []
    requires s.StartUplink? ==> x.pc.Swapped?
    requires s.CloseNat? ==> x.uplink.UplinkClosing?
    ensures SessionAfter(x, s).addr == x.addr
    ensures var q, q' := Queue(x), Queue(SessionAfter(x, s));
            q' == q || (q != [] && q' == q[1..])
  {
    hide Decided;
    if s.Dequeue? {
      assert x.uplink.batch + [x.ch[0]] + x.ch[1..] == x.uplink.batch + x.ch;
    }
  }

  lemma QueueStays(packets: map<Buf, Packet>, x: Session, x': Session, hand: seq<Buf>)
    requires OwnInOrder(packets, x) && Before(packets, Queue(x), hand) && x'.addr == x.addr
    requires Queue(x') == Queue(x) || (Queue(x) != [] && Queue(x') == Queue(x)[1..])
    ensures OwnInOrder(packets, x') && Before(packets, Queue(x'), hand)
  {
    hide Queue;
    var q, q' := Queue(x), Queue(x');
    assert forall b :: b in q' ==> b in q;
  }

  lemma SessionDispatches(st: State, i: nat, s: SessionStep)
    requires Inv(st) && Dispatched(st) && SessionEnabled(st, i, s)
    ensures Dispatched(SessionApply(st, i, s))
  {
    hide Conserved, LockOk, StopOk, TableOk, GroupSize, Queue, Increasing, SessionAfter, OwnInOrder, Before, SessionOk, Returned;
    assert SessionOk(st.sessions[i]);
    QueueMoves(st.sessions[i], s);
    QueueStays(st.packets, st.sessions[i], SessionAfter(st.sessions[i], s), InHand(st.receiver));
  }

  lemma StopDispatches(st: State, t: StopStep)
    requires Dispatched(st) && StopEnabled(st, t)
    ensures Dispatched(StopApply(st, t))
  {
    hide Increasing, Before;
    var st' := StopApply(st, t);
    forall i | 0 <= i < |st'.sessions|
      ensures OwnInOrder(st'.packets, st'.sessions[i]) && Before(st'.packets, Queue(st'.sessions[i]), InHand(st'.receiver))
    {
      assert st'.sessions[i].addr == st.sessions[i].addr && Queue(st'.sessions[i]) == Queue(st.sessions[i]);
      assert OwnInOrder(st.packets, st.sessions[i]);
    }
  }

  lemma StepDispatches(st: State, step: Step)
    requires Inv(st) && Dispatched(st) && Enabled(st, step)
    ensures Dispatched(Apply(st, step))
  {
    hide Inv, Dispatched;
    match step
    case ReceiverMoves(r) =>
      if r.GetPooled? || r.GetNew? {
        FillDispatches(st, r);
      } else if r.Send? {
        SendDispatches(st);
      } else {
        OtherReceiverDispatches(st, r);
      }
    case SessionMoves(i, s) => SessionDispatches(st, i, s);
    case StopMoves(t) => StopDispatches(st, t);
  }

  lemma {:induction false} RunDispatches(st: State, steps: seq<Step>)
    requires Inv(st) && Dispatched(st) && IsRun(st, steps)
    ensures Dispatched(After(st, steps))
    decreases |steps|
  {
    hide Inv, Dispatched, Enabled, Apply;
    if steps != [] {
      StepKeepsInv(st, steps[0]);
      StepDispatches(st, steps[0]);
      RunDispatches(Apply(st, steps[0]), steps[1..]);
    }
  }

  /** In every interleaving: every packet in a session's channel or uplink came from that session's client, and stands in
      order of arrival. */
  lemma RightSessionInOrder(steps: seq<Step>)
    requires IsRun(InitialState, steps)
    ensures var st := After(InitialState, steps);
            forall i, k :: 0 <= i < |st.sessions| && 0 <= k < |Queue(st.sessions[i])| ==>
              var q := Queue(st.sessions[i]);
              && q[k] in st.packets && st.packets[q[k]].client == st.sessions[i].addr
              && forall l :: 0 <= l < k ==> q[l] in st.packets && st.packets[q[l]].number < st.packets[q[k]].number
  {
    hide IsRun, After, Inv;
    InitialInv();
    RunDispatches(InitialState, steps);
    hide Queue;
    var st := After(InitialState, steps);
    forall i | 0 <= i < |st.sessions|
      ensures OwnInOrder(st.packets, st.sessions[i])
    {}
  }

  /** A packet in hand goes to the end of its client's channel, and is dropped exactly when 1024 packets wait there. */
  lemma SentOrDropped(st: State)
    requires Inv(st) && Dispatched(st) && st.receiver.Sending?
    ensures var v := st.receiver;
            var x := st.sessions[v.sid];
            && x.addr == st.packets[v.held[0]].client
            && (ReceiverEnabled(st, Send) <==> |x.ch| < 1024) && (ReceiverEnabled(st, DropFull) <==> |x.ch| >= 1024)
            && (|x.ch| < 1024 ==> ReceiverApply(st, Send).sessions == st.sessions[v.sid := x.(ch := x.ch + [v.held[0]])])
            && (|x.ch| >= 1024 ==> ReceiverApply(st, DropFull).sessions == st.sessions)
  {
    hide Inv, Increasing, OwnInOrder, Before;
  }
}
