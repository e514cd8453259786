/** The lifecycle of the UDP NAT relay as an interleaving of atomic steps: one receiver, any number of
    session goroutines with their uplinks, and Stop, joined by a mutex, the state word of each entry,
    two wait groups and bounded channels. */
module NatRelay {
  import opened Words

  type Buf = nat
  type ClientAddr = nat

  const SendChannelCapacity := 1024

  /** What a buffer was last filled with: the packet's sender and its number in order of arrival. */
  datatype Packet = Packet(client: ClientAddr, number: nat)

  /** What an entry's state word can hold. */
  datatype Word = Nil | NatConn | ServerConn

  /** Where a session goroutine is.
      Routing: looking up the client. Counted: added to the wait group. HasConn: natConn is open.
      Refusing: the swap returned the shutdown mark. Aborting: about to leave the wait group.
      Swapped: the swap returned nil. Relaying: downlink loop, uplink started. Leaving: waiting for
      the mutex. Closing, Deleting, Unlocking: inside the deferred critical section. Draining:
      returning queued buffers. */
  datatype PC =
    | Routing | Counted | HasConn | Refusing | Aborting | Swapped | Relaying
    | Leaving | Closing | Deleting | Unlocking | Draining | Done

  datatype Uplink = NoUplink | Uplinking(batch: seq<Buf>) | UplinkClosing | UplinkExited

  datatype Session = Session(
    addr: ClientAddr, ch: seq<Buf>, chOpen: bool, word: Word, pc: PC, clean: bool, uplink: Uplink, natOpen: bool,
    initSaw: Option<Word>, stopSaw: Option<Word>, deadline: bool)

  datatype Receiver = Idle(held: seq<Buf>) | Locked(held: seq<Buf>) | Sending(held: seq<Buf>, sid: nat) | Exited

  datatype Phase = NotStopping | Signalled | ReceiverGone | Sweeping(todo: set<ClientAddr>) | Swept | Drained | Stopped

  datatype Holder = Free | ByReceiver | BySession(sid: nat) | ByStop

  datatype State = State(
    table: map<ClientAddr, nat>, sessions: seq<Session>, receiver: Receiver, phase: Phase, lock: Holder, wg: nat,
    pool: multiset<Buf>, created: nat, packets: map<Buf, Packet>, arrived: nat, serverOpen: bool,
    panicked: bool,   // send on a closed channel, close of a closed channel, or negative wait group
    misused: bool)    // a socket used after it was closed

  const InitialState := State(map[], [], Idle([]), NotStopping, Free, 0, multiset{}, 0, map[], 0, true, false, false)

  function NewSession(addr: ClientAddr): Session {
    Session(addr, [], true, Nil, Routing, false, NoUplink, false, None, None, false)
  }

  datatype ReceiverStep =
    | GetPooled(b: Buf, client: ClientAddr) | GetNew(client: ClientAddr) | PutHeld | Lock | Find(addr: ClientAddr)
    | Create(addr: ClientAddr) | Send | DropFull
    | Unlock | Exit

  datatype SessionStep =
    | RouteFail | RouteOk | InitFail | OpenConn | DeadlineFail | Swap | Refuse | LeaveGroup | StartUplink | RelayWrite
    | RelayEnd | LockTable | CloseChannel | DeleteEntry | UnlockTable | DrainOne | DrainEnd
    | Dequeue | WriteNat | PutBatch | UplinkEnd | CloseNat

  datatype StopStep = Signal | AwaitReceiver | LockForSweep | Sweep(addr: ClientAddr) | UnlockSwept | AwaitGroup | CloseServer

  datatype Step = ReceiverMoves(r: ReceiverStep) | SessionMoves(sid: nat, s: SessionStep) | StopMoves(t: StopStep)

  // ----- receiver -----

  /** The packet in hand came from this client. */
  predicate FromClient(st: State, a: ClientAddr) {
    var v := st.receiver;
    !v.Exited? && v.held != [] && v.held[0] in st.packets && st.packets[v.held[0]].client == a
  }

  predicate ReceiverEnabled(st: State, r: ReceiverStep) {
    var v := st.receiver;
    match r
    case GetPooled(b, _) => v.Idle? && b in st.pool
    case GetNew(_) => v.Idle?
    case PutHeld => (v.Idle? || v.Locked?) && v.held != []
    case Lock => v.Idle? && v.held != [] && st.lock.Free?
    case Find(a) => v.Locked? && FromClient(st, a) && a in st.table
    case Create(a) => v.Locked? && FromClient(st, a) && a !in st.table
    case Send => v.Sending? && v.held != [] && v.sid < |st.sessions| && |st.sessions[v.sid].ch| < SendChannelCapacity
    case DropFull => v.Sending? && v.held != [] && v.sid < |st.sessions| && |st.sessions[v.sid].ch| >= SendChannelCapacity
    case Unlock => v.Locked?
    case Exit => v.Idle? && !st.phase.NotStopping?
  }

  function ReceiverApply(st: State, r: ReceiverStep): State
    requires ReceiverEnabled(st, r)
  {
    var v := st.receiver;
    match r
    case GetPooled(b, a) =>
      st.(pool := st.pool - multiset{b}, receiver := Idle(v.held + [b]),
          packets := st.packets[b := Packet(a, st.arrived)], arrived := st.arrived + 1)
    case GetNew(a) =>
      st.(created := st.created + 1, receiver := Idle(v.held + [st.created]),
          packets := st.packets[st.created := Packet(a, st.arrived)], arrived := st.arrived + 1)
    case PutHeld =>
      st.(pool := st.pool + multiset{v.held[0]},
          receiver := if v.Idle? then Idle(v.held[1..]) else Locked(v.held[1..]))
    case Lock => st.(lock := ByReceiver, receiver := Locked(v.held))
    case Find(a) => st.(receiver := Sending(v.held, st.table[a]))
    case Create(a) =>
      st.(sessions := st.sessions + [NewSession(a)], table := st.table[a := |st.sessions|],
          receiver := Sending(v.held, |st.sessions|))
    case Send =>
      var x := st.sessions[v.sid];
      st.(sessions := st.sessions[v.sid := x.(ch := x.ch + [v.held[0]])],
          receiver := Locked(v.held[1..]), panicked := st.panicked || !x.chOpen)
    case DropFull =>
      st.(pool := st.pool + multiset{v.held[0]}, receiver := Locked(v.held[1..]),
          panicked := st.panicked || !st.sessions[v.sid].chOpen)
    case Unlock => st.(lock := Free, receiver := Idle(v.held))
    case Exit => st.(pool := st.pool + multiset(v.held), receiver := Exited)
  }

  // ----- session goroutine and uplink -----

  predicate SessionEnabled(st: State, i: nat, s: SessionStep) {
    i < |st.sessions| &&
    var x := st.sessions[i];
    match s
    case RouteFail => x.pc.Routing?
    case RouteOk => x.pc.Routing?
    case InitFail => x.pc.Counted?
    case OpenConn => x.pc.Counted?
    case DeadlineFail => x.pc.HasConn?
    case Swap => x.pc.HasConn?
    case Refuse => x.pc.Refusing?
    case LeaveGroup => x.pc.Aborting?
    case StartUplink => x.pc.Swapped?
    case RelayWrite => x.pc.Relaying?
    case RelayEnd => x.pc.Relaying?
    case LockTable => x.pc.Leaving? && st.lock.Free?
    case CloseChannel => x.pc.Closing?
    case DeleteEntry => x.pc.Deleting?
    case UnlockTable => x.pc.Unlocking?
    case DrainOne => x.pc.Draining? && x.ch != []
    case DrainEnd => x.pc.Draining? && x.ch == []
    case Dequeue => x.uplink.Uplinking? && x.ch != []
    case WriteNat => x.uplink.Uplinking? && x.uplink.batch != []
    case PutBatch => x.uplink.Uplinking? && x.uplink.batch != []
    case UplinkEnd => x.uplink.Uplinking? && x.uplink.batch == [] && x.ch == [] && !x.chOpen
    case CloseNat => x.uplink.UplinkClosing?
  }

  /** The session after its own step. */
  function SessionAfter(x: Session, s: SessionStep): Session
    requires x.uplink.Uplinking? || !(s.Dequeue? || s.PutBatch?)
    requires s.Dequeue? || s.DrainOne? ==> x.ch != []
    requires s.PutBatch? ==> x.uplink.batch != []
  {
    match s
    case RouteFail => x.(pc := Leaving)
    case RouteOk => x.(pc := Counted)
    case InitFail => x.(pc := Aborting)
    case OpenConn => x.(pc := HasConn, natOpen := true)
    case DeadlineFail => x.(pc := Aborting, natOpen := false)
    case Swap => x.(pc := if x.word.Nil? then Swapped else Refusing, word := NatConn, initSaw := Some(x.word), clean := x.word.Nil?)
    case Refuse => x.(pc := Aborting, natOpen := false)
    case LeaveGroup => x.(pc := Leaving)
    case StartUplink => x.(pc := Relaying, uplink := Uplinking([]))
    case RelayWrite => x
    case RelayEnd => x.(pc := Leaving)
    case LockTable => x.(pc := Closing)
    case CloseChannel => x.(pc := Deleting, chOpen := false)
    case DeleteEntry => x.(pc := Unlocking)
    case UnlockTable => x.(pc := if x.clean then Done else Draining)
    case DrainOne => x.(ch := x.ch[1..])
    case DrainEnd => x.(pc := Done)
    case Dequeue => x.(ch := x.ch[1..], uplink := Uplinking(x.uplink.batch + [x.ch[0]]))
    case WriteNat => x
    case PutBatch => x.(uplink := Uplinking(x.uplink.batch[1..]))
    case UplinkEnd => x.(uplink := UplinkClosing)
    case CloseNat => x.(uplink := UplinkExited, natOpen := false)
  }

  function Returned(x: Session, s: SessionStep): multiset<Buf> {
    if s.DrainOne? && x.ch != [] then multiset{x.ch[0]}
    else if s.PutBatch? && x.uplink.Uplinking? && x.uplink.batch != [] then multiset{x.uplink.batch[0]}
    else multiset{}
  }

  predicate Enters(s: SessionStep) {
    s.RouteOk? || s.StartUplink?
  }

  predicate Leaves(s: SessionStep) {
    s.LeaveGroup? || s.RelayEnd? || s.CloseNat?
  }

  function SessionApply(st: State, i: nat, s: SessionStep): State
    requires SessionEnabled(st, i, s)
  {
    var x := st.sessions[i];
    st.(sessions := st.sessions[i := SessionAfter(x, s)],
        pool := st.pool + Returned(x, s),
        wg := if Enters(s) then st.wg + 1 else if Leaves(s) && st.wg > 0 then st.wg - 1 else st.wg,
        lock := if s.LockTable? then BySession(i) else if s.UnlockTable? then Free else st.lock,
        table := if s.DeleteEntry? then st.table - {x.addr} else st.table,
        panicked := st.panicked || (Leaves(s) && st.wg == 0) || (s.CloseChannel? && !x.chOpen),
        misused := st.misused || (s.RelayWrite? && !st.serverOpen) || (s.WriteNat? && !x.natOpen))
  }

  // ----- Stop -----

  predicate StopEnabled(st: State, t: StopStep) {
    match t
    case Signal => st.phase.NotStopping?
    case AwaitReceiver => st.phase.Signalled? && st.receiver.Exited?
    case LockForSweep => st.phase.ReceiverGone? && st.lock.Free?
    case Sweep(a) => st.phase.Sweeping? && a in st.phase.todo && a in st.table && st.table[a] < |st.sessions|
    case UnlockSwept => st.phase == Sweeping({})
    case AwaitGroup => st.phase.Swept? && st.wg == 0
    case CloseServer => st.phase.Drained?
  }

  function StopApply(st: State, t: StopStep): State
    requires StopEnabled(st, t)
  {
    match t
    case Signal => st.(phase := Signalled)
    case AwaitReceiver => st.(phase := ReceiverGone)
    case LockForSweep => st.(phase := Sweeping(st.table.Keys), lock := ByStop)
    case Sweep(a) =>
      var i := st.table[a];
      var x := st.sessions[i];
      st.(sessions := st.sessions[i := x.(word := ServerConn, stopSaw := Some(x.word), deadline := x.word.NatConn?)],
          phase := Sweeping(st.phase.todo - {a}),
          misused := st.misused || (x.word.NatConn? && !x.natOpen))
    case UnlockSwept => st.(phase := Swept, lock := Free)
    case AwaitGroup => st.(phase := Drained)
    case CloseServer => st.(phase := Stopped, serverOpen := false)
  }

  predicate Enabled(st: State, step: Step) {
    match step
    case ReceiverMoves(r) => ReceiverEnabled(st, r)
    case SessionMoves(i, s) => SessionEnabled(st, i, s)
    case StopMoves(t) => StopEnabled(st, t)
  }

  function Apply(st: State, step: Step): State
    requires Enabled(st, step)
  {
    match step
    case ReceiverMoves(r) => ReceiverApply(st, r)
    case SessionMoves(i, s) => SessionApply(st, i, s)
    case StopMoves(t) => StopApply(st, t)
  }

  // ----- invariant -----

  predicate PreSwap(pc: PC) {
    pc.Routing? || pc.Counted? || pc.HasConn?
  }

  /** The session's entry is in the table. */
  predicate Listed(pc: PC) {
    !(pc.Unlocking? || pc.Draining? || pc.Done?)
  }

  predicate Critical(pc: PC) {
    pc.Closing? || pc.Deleting? || pc.Unlocking?
  }

  /** One session on its own. */
  predicate SessionOk(x: Session) {
    && (x.chOpen <==> Listed(x.pc) && !x.pc.Deleting?)
    && (PreSwap(x.pc) ==> x.initSaw.None?)
    && (x.natOpen <==> x.pc.HasConn? || x.pc.Refusing? || (x.clean && !x.uplink.UplinkExited?))
    && (x.pc.Refusing? ==> x.initSaw.Some?)
    && (x.clean <==> x.initSaw == Some(Nil))
    && (x.pc.Refusing? || x.pc.Aborting? || x.pc.Draining? ==> !x.clean)
    && (x.pc.Swapped? || x.pc.Relaying? ==> x.clean)
    && (x.uplink.NoUplink? <==> !x.clean || x.pc.Swapped?)
    && (x.uplink.UplinkClosing? || x.uplink.UplinkExited? ==> !x.chOpen && x.ch == [])
    && (x.pc.Done? && !x.clean ==> x.ch == [])
    // the state word, and what each side swapped out
    && (x.stopSaw.None? && x.initSaw.None? ==> x.word.Nil?)
    && (x.stopSaw.None? && x.initSaw.Some? ==> x.initSaw.value.Nil? && x.word.NatConn?)
    && (x.stopSaw.Some? ==> Decided(x))
    && (x.stopSaw.Some? && PreSwap(x.pc) ==> x.word.ServerConn?)
  }

  /** Of a session swept by Stop, exactly one side has been told: the initialiser was or will be
      refused, or Stop saw the natConn and set its deadline. */
  predicate Decided(x: Session) {
    || (x.stopSaw == Some(Nil) && x.initSaw != Some(Nil) && !x.clean)
    || (x.stopSaw == Some(NatConn) && x.initSaw == Some(Nil) && x.deadline)
  }

  predicate TableOk(st: State) {
    && (forall a :: a in st.table ==> st.table[a] < |st.sessions| && st.sessions[st.table[a]].addr == a
                                      && Listed(st.sessions[st.table[a]].pc))
    && (forall i :: 0 <= i < |st.sessions| && Listed(st.sessions[i].pc) ==>
          st.sessions[i].addr in st.table && st.table[st.sessions[i].addr] == i)
  }

  predicate LockOk(st: State) {
    && (st.lock.ByReceiver? <==> st.receiver.Locked? || st.receiver.Sending?)
    && (st.lock.ByStop? <==> st.phase.Sweeping?)
    && (forall i :: 0 <= i < |st.sessions| ==> (Critical(st.sessions[i].pc) <==> st.lock == BySession(i)))
    && (st.lock.BySession? ==> st.lock.sid < |st.sessions|)
    && (st.receiver.Sending? ==>
          st.receiver.held != [] && st.receiver.sid < |st.sessions| && Listed(st.sessions[st.receiver.sid].pc))
  }

  predicate StopOk(st: State) {
    && (!(st.phase.NotStopping? || st.phase.Signalled?) ==> st.receiver.Exited?)
    && (st.receiver.Exited? ==> !st.phase.NotStopping?)
    && (st.phase.Sweeping? ==> st.phase.todo <= st.table.Keys)
    && (st.serverOpen <==> !st.phase.Stopped?)
    && (forall i :: 0 <= i < |st.sessions| ==> PhaseOk(st.phase, st.sessions[i]))
  }

  predicate PhaseOk(phase: Phase, x: Session) {
    match phase
    case NotStopping => x.stopSaw.None?
    case Signalled => x.stopSaw.None?
    case ReceiverGone => x.stopSaw.None?
    case Sweeping(todo) => Listed(x.pc) ==> (x.addr in todo <==> x.stopSaw.None?)
    case Swept => Listed(x.pc) ==> x.stopSaw.Some?
    case _ => (Listed(x.pc) ==> x.stopSaw.Some?) && !x.pc.Swapped? && !x.pc.Relaying?
  }

  function InGroup(x: Session): nat {
    (if x.pc.Counted? || x.pc.HasConn? || x.pc.Refusing? || x.pc.Aborting? || x.pc.Swapped? || x.pc.Relaying? then 1 else 0)
    + (if x.uplink.Uplinking? || x.uplink.UplinkClosing? then 1 else 0)
  }

  function GroupSize(ss: seq<Session>): nat {
    if ss == [] then 0 else InGroup(ss[0]) + GroupSize(ss[1..])
  }

  function Owned(x: Session): multiset<Buf> {
    multiset(x.ch) + (if x.uplink.Uplinking? then multiset(x.uplink.batch) else multiset{})
  }

  function OwnedBy(ss: seq<Session>): multiset<Buf> {
    if ss == [] then multiset{} else Owned(ss[0]) + OwnedBy(ss[1..])
  }

  function Held(v: Receiver): multiset<Buf> {
    if v.Exited? then multiset{} else multiset(v.held)
  }

  /** The buffers created so far, each once. */
  function AllBufs(created: nat): multiset<Buf> {
    if created == 0 then multiset{} else AllBufs(created - 1) + multiset{created - 1}
  }

  /** Pool, receiver, channels and uplinks together own every buffer exactly once. */
  predicate Conserved(st: State) {
    st.pool + Held(st.receiver) + OwnedBy(st.sessions) == AllBufs(st.created)
  }

  predicate Inv(st: State) {
    && !st.panicked && !st.misused
    && (forall i :: 0 <= i < |st.sessions| ==> SessionOk(st.sessions[i]))
    && TableOk(st) && LockOk(st) && StopOk(st)
    && st.wg == GroupSize(st.sessions)
    && Conserved(st)
  }

  // ----- sums over sessions -----

  lemma {:induction false} GroupUpdate(ss: seq<Session>, i: nat, x: Session)
    requires i < |ss|
    ensures GroupSize(ss[i := x]) + InGroup(ss[i]) == GroupSize(ss) + InGroup(x)
  {
    if i == 0 {
      assert ss[0 := x][1..] == ss[1..];
    } else {
      GroupUpdate(ss[1..], i - 1, x);
      assert ss[i := x][1..] == ss[1..][i - 1 := x];
    }
  }

  lemma {:induction false} GroupMember(ss: seq<Session>, i: nat)
    requires i < |ss|
    ensures InGroup(ss[i]) <= GroupSize(ss)
  {
    if i > 0 {
      GroupMember(ss[1..], i - 1);
    }
  }

  lemma {:induction false} GroupAppend(ss: seq<Session>, x: Session)
    ensures GroupSize(ss + [x]) == GroupSize(ss) + InGroup(x)
  {
    if ss == [] {
      assert ss + [x] == [x];
    } else {
      GroupAppend(ss[1..], x);
      assert (ss + [x])[1..] == ss[1..] + [x];
    }
  }

  lemma Regroup(a: multiset<Buf>, p: multiset<Buf>, q: multiset<Buf>, r: multiset<Buf>, t: multiset<Buf>)
    requires p + q == r + t
    ensures (a + p) + q == (a + r) + t
  {
    assert (a + p) + q == a + (p + q) && (a + r) + t == a + (r + t);
  }

  lemma {:induction false} OwnedUpdate(ss: seq<Session>, i: nat, x: Session)
    requires i < |ss|
    ensures OwnedBy(ss[i := x]) + Owned(ss[i]) == OwnedBy(ss) + Owned(x)
  {
    hide Owned;
    if i == 0 {
      assert ss[0 := x][1..] == ss[1..];
    } else {
      var rest := ss[1..];
      OwnedUpdate(rest, i - 1, x);
      assert ss[i := x][1..] == rest[i - 1 := x];
      Regroup(Owned(ss[0]), OwnedBy(rest[i - 1 := x]), Owned(ss[i]), OwnedBy(rest), Owned(x));
    }
  }

  lemma {:induction false} OwnedAppend(ss: seq<Session>, x: Session)
    ensures OwnedBy(ss + [x]) == OwnedBy(ss) + Owned(x)
  {
    hide Owned;
    if ss == [] {
      assert ss + [x] == [x];
    } else {
      OwnedAppend(ss[1..], x);
      assert (ss + [x])[1..] == ss[1..] + [x];
    }
  }

  // ----- every step keeps the invariant -----

  lemma InitialInv()
    ensures Inv(InitialState)
  {}

  /** A session's own step keeps its local invariant and accounts for its place in the wait group. */
  lemma SessionStepLocal(st: State, i: nat, s: SessionStep)
    requires SessionEnabled(st, i, s) && SessionOk(st.sessions[i])
    ensures SessionOk(SessionAfter(st.sessions[i], s)) && SessionAfter(st.sessions[i], s).addr == st.sessions[i].addr
  {
    if s.Dequeue? || s.WriteNat? || s.PutBatch? || s.UplinkEnd? || s.CloseNat? {
      UplinkStepLocal(st, i, s);
    } else if s.LockTable? || s.CloseChannel? || s.DeleteEntry? || s.UnlockTable? || s.DrainOne? || s.DrainEnd? {
      EndStepLocal(st, i, s);
    } else {
      StartStepLocal(st, i, s);
    }
  }

  lemma UplinkStepLocal(st: State, i: nat, s: SessionStep)
    requires SessionEnabled(st, i, s) && SessionOk(st.sessions[i])
    requires s.Dequeue? || s.WriteNat? || s.PutBatch? || s.UplinkEnd? || s.CloseNat?
    ensures SessionOk(SessionAfter(st.sessions[i], s)) && SessionAfter(st.sessions[i], s).addr == st.sessions[i].addr
  {}

  lemma EndStepLocal(st: State, i: nat, s: SessionStep)
    requires SessionEnabled(st, i, s) && SessionOk(st.sessions[i])
    requires s.LockTable? || s.CloseChannel? || s.DeleteEntry? || s.UnlockTable? || s.DrainOne? || s.DrainEnd?
    ensures SessionOk(SessionAfter(st.sessions[i], s)) && SessionAfter(st.sessions[i], s).addr == st.sessions[i].addr
  {}

  lemma StartStepLocal(st: State, i: nat, s: SessionStep)
    requires SessionEnabled(st, i, s) && SessionOk(st.sessions[i])
    requires !(s.Dequeue? || s.WriteNat? || s.PutBatch? || s.UplinkEnd? || s.CloseNat?)
    requires !(s.LockTable? || s.CloseChannel? || s.DeleteEntry? || s.UnlockTable? || s.DrainOne? || s.DrainEnd?)
    ensures SessionOk(SessionAfter(st.sessions[i], s)) && SessionAfter(st.sessions[i], s).addr == st.sessions[i].addr
  {}

  lemma SessionStepGroup(st: State, i: nat, s: SessionStep)
    requires SessionEnabled(st, i, s) && SessionOk(st.sessions[i])
    ensures InGroup(SessionAfter(st.sessions[i], s)) + (if Leaves(s) then 1 else 0)
         == InGroup(st.sessions[i]) + (if Enters(s) then 1 else 0)
  {}

  lemma SessionStepPhase(st: State, i: nat, s: SessionStep)
    requires SessionEnabled(st, i, s) && SessionOk(st.sessions[i]) && PhaseOk(st.phase, st.sessions[i])
    ensures PhaseOk(st.phase, SessionAfter(st.sessions[i], s))
  {
    hide Decided;
  }

  lemma HeadAndRest(b: seq<Buf>)
    requires b != []
    ensures multiset(b) == multiset{b[0]} + multiset(b[1..])
  {
    assert b == [b[0]] + b[1..];
  }

  lemma OwnedSame(x: Session, y: Session)
    requires x.ch == y.ch
    requires x.uplink == y.uplink
             || (&& (x.uplink.Uplinking? ==> x.uplink.batch == []) && (y.uplink.Uplinking? ==> y.uplink.batch == []))
    ensures Owned(x) == Owned(y)
  {}

  lemma MoveToBatch(x: Session)
    requires x.uplink.Uplinking? && x.ch != []
    ensures Owned(SessionAfter(x, Dequeue)) + Returned(x, Dequeue) == Owned(x)
  {
    HeadAndRest(x.ch);
    assert multiset(x.uplink.batch + [x.ch[0]]) == multiset(x.uplink.batch) + multiset{x.ch[0]};
  }

  lemma DropHead(x: Session)
    requires x.ch != []
    ensures Owned(SessionAfter(x, DrainOne)) + Returned(x, DrainOne) == Owned(x)
  {
    HeadAndRest(x.ch);
  }

  lemma DropBatchHead(x: Session)
    requires x.uplink.Uplinking? && x.uplink.batch != []
    ensures Owned(SessionAfter(x, PutBatch)) + Returned(x, PutBatch) == Owned(x)
  {
    HeadAndRest(x.uplink.batch);
  }

  lemma OtherBuffers(x: Session, s: SessionStep)
    requires !s.Dequeue? && !s.DrainOne? && !s.PutBatch?
    requires s.StartUplink? ==> x.uplink.NoUplink?
    requires s.UplinkEnd? ==> x.uplink == Uplinking([])
    requires s.CloseNat? ==> x.uplink.UplinkClosing?
    ensures Owned(SessionAfter(x, s)) + Returned(x, s) == Owned(x)
  {
    hide Owned, Returned, SessionAfter;
    KeepsBuffers(x, s);
    OwnedSame(x, SessionAfter(x, s));
    ReturnsNothing(x, s);
  }

  lemma KeepsBuffers(x: Session, s: SessionStep)
    requires !s.Dequeue? && !s.DrainOne? && !s.PutBatch?
    ensures SessionAfter(x, s).ch == x.ch
    ensures !s.StartUplink? && !s.UplinkEnd? && !s.CloseNat? ==> SessionAfter(x, s).uplink == x.uplink
    ensures s.StartUplink? ==> SessionAfter(x, s).uplink == Uplinking([])
    ensures s.UplinkEnd? ==> SessionAfter(x, s).uplink == UplinkClosing
    ensures s.CloseNat? ==> SessionAfter(x, s).uplink == UplinkExited
  {}

  lemma ReturnsNothing(x: Session, s: SessionStep)
    requires !s.DrainOne? && !s.PutBatch?
    ensures Returned(x, s) == multiset{}
  {}

  /** A session hands over exactly the buffers it returns. */
  lemma SessionStepBuffers(st: State, i: nat, s: SessionStep)
    requires SessionEnabled(st, i, s) && SessionOk(st.sessions[i])
    ensures var x := st.sessions[i];
            Owned(SessionAfter(x, s)) + Returned(x, s) == Owned(x)
  {
    hide SessionAfter, Owned, Returned, Decided;
    var x := st.sessions[i];
    if s.Dequeue? {
      MoveToBatch(x);
    } else if s.DrainOne? {
      DropHead(x);
    } else if s.PutBatch? {
      DropBatchHead(x);
    } else {
      OtherBuffers(x, s);
    }
  }

  /** Steps that neither enter nor leave the critical section change nothing the others rely on. */
  predicate Quiet(s: SessionStep) {
    !(s.LockTable? || s.CloseChannel? || s.DeleteEntry? || s.UnlockTable?)
  }

  lemma QuietStep(st: State, i: nat, s: SessionStep)
    requires SessionEnabled(st, i, s) && SessionOk(st.sessions[i]) && Quiet(s)
    ensures Listed(SessionAfter(st.sessions[i], s).pc) == Listed(st.sessions[i].pc)
    ensures Critical(SessionAfter(st.sessions[i], s).pc) == Critical(st.sessions[i].pc)
    ensures SessionApply(st, i, s).table == st.table && SessionApply(st, i, s).lock == st.lock
  {}

  lemma ListedSame(st: State, i: nat, s: SessionStep)
    requires SessionEnabled(st, i, s) && !s.DeleteEntry?
    ensures Listed(SessionAfter(st.sessions[i], s).pc) == Listed(st.sessions[i].pc)
    ensures SessionAfter(st.sessions[i], s).addr == st.sessions[i].addr
  {}

  lemma SessionStepKeepsTable(st: State, i: nat, s: SessionStep)
    requires TableOk(st) && SessionEnabled(st, i, s)
    ensures TableOk(SessionApply(st, i, s))
  {
    hide Returned;
    if !s.DeleteEntry? {
      hide SessionAfter, Listed;
      ListedSame(st, i, s);
      assert SessionApply(st, i, s).table == st.table;
    } else {
      assert st.table[st.sessions[i].addr] == i;
    }
  }

  lemma SessionStepKeepsLock(st: State, i: nat, s: SessionStep)
    requires TableOk(st) && LockOk(st) && SessionEnabled(st, i, s) && SessionOk(st.sessions[i])
    ensures LockOk(SessionApply(st, i, s))
  {
    hide Decided, Returned, Owned;
    if Quiet(s) {
      hide SessionAfter, SessionOk;
      QuietStep(st, i, s);
    }
  }

  lemma SessionStepKeepsStop(st: State, i: nat, s: SessionStep)
    requires TableOk(st) && LockOk(st) && StopOk(st) && SessionEnabled(st, i, s) && SessionOk(st.sessions[i])
    ensures StopOk(SessionApply(st, i, s))
  {
    hide SessionAfter, SessionOk, PhaseOk, Returned, TableOk;
    SessionStepPhase(st, i, s);
    assert s.DeleteEntry? ==> !st.phase.Sweeping?;
  }

  lemma SessionStepSafe(st: State, i: nat, s: SessionStep)
    requires Inv(st) && SessionEnabled(st, i, s)
    ensures !SessionApply(st, i, s).panicked && !SessionApply(st, i, s).misused
    ensures SessionApply(st, i, s).wg == GroupSize(SessionApply(st, i, s).sessions)
  {
    hide Conserved, TableOk, LockOk, Owned, OwnedBy, Returned, Decided, SessionAfter, GroupSize, InGroup;
    assert SessionOk(st.sessions[i]) && PhaseOk(st.phase, st.sessions[i]);
    SessionStepGroup(st, i, s);
    GroupMember(st.sessions, i);
    GroupUpdate(st.sessions, i, SessionAfter(st.sessions[i], s));
  }

  lemma SessionStepConserves(st: State, i: nat, s: SessionStep)
    requires Inv(st) && SessionEnabled(st, i, s)
    ensures Conserved(SessionApply(st, i, s))
  {
    hide TableOk, LockOk, StopOk, GroupSize, Owned, OwnedBy, Returned, AllBufs, Held, SessionAfter, SessionOk;
    assert SessionOk(st.sessions[i]);
    var x := st.sessions[i];
    SessionStepBuffers(st, i, s);
    OwnedUpdate(st.sessions, i, SessionAfter(x, s));
    Handover(OwnedBy(st.sessions), OwnedBy(st.sessions[i := SessionAfter(x, s)]), Owned(x), Owned(SessionAfter(x, s)),
             Returned(x, s), st.pool, Held(st.receiver));
  }

  lemma Handover(total: multiset<Buf>, total': multiset<Buf>, own: multiset<Buf>, own': multiset<Buf>,
                 given: multiset<Buf>, pool: multiset<Buf>, held: multiset<Buf>)
    requires total' + own == total + own' && own' + given == own
    ensures (pool + given) + held + total' == pool + held + total
  {
    forall b: Buf
      ensures total'[b] + given[b] == total[b]
    {
      assert (total' + own)[b] == (total + own')[b];
      assert (own' + given)[b] == own[b];
    }
  }

  lemma SessionStepKeepsInv(st: State, i: nat, s: SessionStep)
    requires Inv(st) && SessionEnabled(st, i, s)
    ensures Inv(SessionApply(st, i, s))
  {
    hide Conserved, TableOk, LockOk, StopOk, GroupSize, SessionOk, SessionAfter, Returned;
    assert SessionOk(st.sessions[i]);
    SessionStepLocal(st, i, s);
    SessionStepKeepsTable(st, i, s);
    SessionStepKeepsLock(st, i, s);
    SessionStepKeepsStop(st, i, s);
    SessionStepSafe(st, i, s);
    SessionStepConserves(st, i, s);
  }

  /** While the receiver sends, the entry it found is still listed and its channel open. */
  lemma SendTargetOpen(st: State)
    requires Inv(st) && st.receiver.Sending?
    ensures st.sessions[st.receiver.sid].chOpen
  {
    hide Conserved, GroupSize, TableOk, StopOk;
    var x := st.sessions[st.receiver.sid];
    assert SessionOk(x) && Listed(x.pc);
    assert !Critical(x.pc);
  }

  /** The receiver's holdings after a step that moves `b` into or out of them. */
  lemma HeldGains(v: Receiver, b: Buf)
    requires v.Idle?
    ensures Held(Idle(v.held + [b])) == Held(v) + multiset{b}
  {
    assert multiset(v.held + [b]) == multiset(v.held) + multiset{b};
  }

  lemma HeldLoses(v: Receiver)
    requires !v.Exited? && v.held != []
    ensures Held(Idle(v.held[1..])) + multiset{v.held[0]} == Held(v)
    ensures Held(Locked(v.held[1..])) + multiset{v.held[0]} == Held(v)
  {
    HeadAndRest(v.held);
  }

  lemma Moved(p: multiset<Buf>, h: multiset<Buf>, o: multiset<Buf>, p': multiset<Buf>, h': multiset<Buf>, o': multiset<Buf>, b: Buf)
    ensures b in p && p' == p - multiset{b} && h' == h + multiset{b} ==> p' + h' + o == p + h + o
    ensures p' == p + multiset{b} && h' + multiset{b} == h ==> p' + h' + o == p + h + o
    ensures o' == o + multiset{b} && h' + multiset{b} == h ==> p + h' + o' == p + h + o
    ensures h' == h + multiset{b} ==> p + h' + o == p + h + o + multiset{b}
  {}

  lemma SentOwned(st: State, sid: nat, b: Buf)
    requires sid < |st.sessions|
    ensures var x := st.sessions[sid];
            OwnedBy(st.sessions[sid := x.(ch := x.ch + [b])]) == OwnedBy(st.sessions) + multiset{b}
  {
    hide Owned, OwnedBy;
    var x := st.sessions[sid];
    Enqueued(x, b);
    OwnedUpdate(st.sessions, sid, x.(ch := x.ch + [b]));
    Cancel(OwnedBy(st.sessions[sid := x.(ch := x.ch + [b])]), OwnedBy(st.sessions), Owned(x), multiset{b});
  }

  lemma Cancel(t: multiset<Buf>, u: multiset<Buf>, o: multiset<Buf>, d: multiset<Buf>)
    requires t + o == u + (o + d)
    ensures t == u + d
  {
    forall b: Buf
      ensures t[b] == (u + d)[b]
    {
      assert (t + o)[b] == (u + (o + d))[b];
    }
  }

  lemma ReceiverKeepsConserved(st: State, r: ReceiverStep)
    requires Conserved(st) && ReceiverEnabled(st, r)
    ensures Conserved(ReceiverApply(st, r))
  {
    hide Owned, OwnedBy, Held, AllBufs;
    var v := st.receiver;
    match r
    case GetPooled(b, _) =>
      HeldGains(v, b);
      Moved(st.pool, Held(v), OwnedBy(st.sessions), st.pool - multiset{b}, Held(Idle(v.held + [b])), multiset{}, b);
    case GetNew(a) => GetNewConserves(st, a);
    case PutHeld => PutHeldConserves(st);
    case Create(a) => CreateConserves(st, a);
    case Send => SendConserves(st);
    case DropFull => PutHeldConserves(st);
    case Exit => HeldAtExit(v);
    case _ => SameHeld(v, ReceiverApply(st, r).receiver);
  }

  lemma GetNewConserves(st: State, a: ClientAddr)
    requires Conserved(st) && st.receiver.Idle?
    ensures Conserved(ReceiverApply(st, GetNew(a)))
  {
    hide Owned, OwnedBy, Held;
    HeldGains(st.receiver, st.created);
    Moved(st.pool, Held(st.receiver), OwnedBy(st.sessions), multiset{}, Held(Idle(st.receiver.held + [st.created])),
          multiset{}, st.created);
  }

  lemma PutHeldConserves(st: State)
    requires Conserved(st) && !st.receiver.Exited? && st.receiver.held != []
    ensures var v := st.receiver;
            var pool' := st.pool + multiset{v.held[0]};
            && pool' + Held(Idle(v.held[1..])) + OwnedBy(st.sessions) == AllBufs(st.created)
            && pool' + Held(Locked(v.held[1..])) + OwnedBy(st.sessions) == AllBufs(st.created)
  {
    hide Owned, OwnedBy, Held, AllBufs;
    var v := st.receiver;
    HeldLoses(v);
    Moved(st.pool, Held(v), OwnedBy(st.sessions), st.pool + multiset{v.held[0]}, Held(Idle(v.held[1..])), multiset{}, v.held[0]);
    Moved(st.pool, Held(v), OwnedBy(st.sessions), st.pool + multiset{v.held[0]}, Held(Locked(v.held[1..])), multiset{}, v.held[0]);
  }

  lemma CreateConserves(st: State, a: ClientAddr)
    requires Conserved(st) && ReceiverEnabled(st, Create(a))
    ensures Conserved(ReceiverApply(st, Create(a)))
  {
    hide Owned, OwnedBy, Held, AllBufs;
    OwnedAppend(st.sessions, NewSession(a));
    FreshOwnsNothing(a);
    SameHeld(st.receiver, ReceiverApply(st, Create(a)).receiver);
  }

  lemma SendConserves(st: State)
    requires Conserved(st) && ReceiverEnabled(st, Send)
    ensures Conserved(ReceiverApply(st, Send))
  {
    hide Owned, OwnedBy, Held, AllBufs;
    var v := st.receiver;
    HeldLoses(v);
    SentOwned(st, v.sid, v.held[0]);
    Moved(st.pool, Held(v), OwnedBy(st.sessions), multiset{}, Held(Locked(v.held[1..])),
          OwnedBy(st.sessions) + multiset{v.held[0]}, v.held[0]);
  }

  lemma SameHeld(v: Receiver, v': Receiver)
    requires !v.Exited? && !v'.Exited? && v.held == v'.held
    ensures Held(v) == Held(v')
  {}

  lemma HeldAtExit(v: Receiver)
    requires v.Idle?
    ensures Held(v) == multiset(v.held) && Held(Exited) == multiset{}
  {}

  lemma FreshOwnsNothing(a: ClientAddr)
    ensures Owned(NewSession(a)) == multiset{}
  {}

  lemma Enqueued(x: Session, b: Buf)
    ensures Owned(x.(ch := x.ch + [b])) == Owned(x) + multiset{b}
  {
    assert multiset(x.ch + [b]) == multiset(x.ch) + multiset{b};
  }

  lemma ReceiverKeepsTable(st: State, r: ReceiverStep)
    requires Inv(st) && ReceiverEnabled(st, r)
    ensures TableOk(ReceiverApply(st, r)) && LockOk(ReceiverApply(st, r)) && StopOk(ReceiverApply(st, r))
    ensures forall i :: 0 <= i < |ReceiverApply(st, r).sessions| ==> SessionOk(ReceiverApply(st, r).sessions[i])
  {
    hide Conserved, GroupSize;
    if r.Create? {
      CreateKeepsTable(st, r.addr);
    } else if r.Send? {
      SendKeepsTable(st);
    } else {
      ReceiverOnly(st, r);
    }
  }

  /** Steps that touch no session: only the receiver, the pool and the mutex change hands. */
  lemma ReceiverOnly(st: State, r: ReceiverStep)
    requires TableOk(st) && LockOk(st) && StopOk(st) && ReceiverEnabled(st, r) && !r.Create? && !r.Send?
    ensures var st' := ReceiverApply(st, r);
            st'.sessions == st.sessions && TableOk(st') && LockOk(st') && StopOk(st')
  {
    hide TableOk, LockOk, StopOk, ReceiverApply;
    var st' := ReceiverApply(st, r);
    ReceiverFrame(st, r);
    SameTable(st, st');
    ReceiverOnlyLock(st, r);
    SameStop(st, st');
  }

  lemma ReceiverFrame(st: State, r: ReceiverStep)
    requires ReceiverEnabled(st, r) && !r.Create? && !r.Send?
    ensures var st' := ReceiverApply(st, r);
            && st'.sessions == st.sessions && st'.table == st.table && st'.phase == st.phase
            && st'.serverOpen == st.serverOpen && !st.receiver.Exited?
            && (st'.receiver.Exited? ==> !st.phase.NotStopping?)
  {}

  lemma SameTable(st: State, st': State)
    requires TableOk(st) && st'.sessions == st.sessions && st'.table == st.table
    ensures TableOk(st')
  {
    hide Listed;
  }

  lemma SameStop(st: State, st': State)
    requires StopOk(st) && st'.sessions == st.sessions && st'.table == st.table && st'.phase == st.phase
    requires st'.serverOpen == st.serverOpen && !st.receiver.Exited?
    requires st'.receiver.Exited? ==> !st.phase.NotStopping?
    ensures StopOk(st')
  {
    hide PhaseOk;
  }

  /** The lock is judged by the sessions, the phase and whether the receiver is inside its critical section. */
  lemma LockFrame(st: State, st': State)
    requires LockOk(st) && st'.sessions == st.sessions && st'.phase == st.phase
    requires st'.lock == st.lock || (st.lock.Free? && st'.lock.ByReceiver?) || (st.lock.ByReceiver? && st'.lock.Free?)
    requires st'.lock.ByReceiver? <==> st'.receiver.Locked? || st'.receiver.Sending?
    requires st'.receiver.Sending? ==>
               st'.receiver.held != [] && st'.receiver.sid < |st.sessions| && Listed(st.sessions[st'.receiver.sid].pc)
    ensures LockOk(st')
  {
    hide Listed, Critical;
  }

  lemma ReceiverOnlyLock(st: State, r: ReceiverStep)
    requires TableOk(st) && LockOk(st) && ReceiverEnabled(st, r) && !r.Create? && !r.Send?
    ensures LockOk(ReceiverApply(st, r))
  {
    var st' := ReceiverApply(st, r);
    if r.Find? {
      FoundIsListed(st, r.addr);
    }
    hide LockOk, TableOk, Listed;
    LockBasics(st);
    LockFrame(st, st');
  }

  lemma FoundIsListed(st: State, a: ClientAddr)
    requires TableOk(st) && a in st.table
    ensures st.table[a] < |st.sessions| && Listed(st.sessions[st.table[a]].pc)
  {}

  lemma LockBasics(st: State)
    requires LockOk(st)
    ensures st.lock.ByReceiver? <==> st.receiver.Locked? || st.receiver.Sending?
  {}

  lemma SendKeepsTable(st: State)
    requires Inv(st) && ReceiverEnabled(st, Send)
    ensures var st' := ReceiverApply(st, Send);
            && TableOk(st') && LockOk(st') && StopOk(st')
            && forall i :: 0 <= i < |st'.sessions| ==> SessionOk(st'.sessions[i])
  {
    SendTargetOpen(st);
    hide Conserved, GroupSize, PhaseOk, SessionOk, Listed, Critical;
    EnqueueOk(st.sessions[st.receiver.sid], st.receiver.held[0], st.phase);
    SameShape(st, ReceiverApply(st, Send));
    hide TableOk;
  }

  /** The table is judged by each session's address and place. */
  lemma SameShape(st: State, st': State)
    requires TableOk(st) && st'.table == st.table && |st'.sessions| == |st.sessions|
    requires forall i :: 0 <= i < |st.sessions| ==>
               st'.sessions[i].addr == st.sessions[i].addr && st'.sessions[i].pc == st.sessions[i].pc
    ensures TableOk(st')
  {
    hide Listed;
  }

  lemma EnqueueOk(x: Session, b: Buf, phase: Phase)
    requires SessionOk(x) && x.chOpen && PhaseOk(phase, x)
    ensures SessionOk(x.(ch := x.ch + [b])) && PhaseOk(phase, x.(ch := x.ch + [b]))
  {}

  lemma CreateKeepsTable(st: State, a: ClientAddr)
    requires Inv(st) && ReceiverEnabled(st, Create(a))
    ensures var st' := ReceiverApply(st, Create(a));
            && TableOk(st') && LockOk(st') && StopOk(st')
            && forall i :: 0 <= i < |st'.sessions| ==> SessionOk(st'.sessions[i])
  {
    hide Conserved, GroupSize;
    var st' := ReceiverApply(st, Create(a));
    forall i | 0 <= i < |st'.sessions|
      ensures i < |st.sessions| ==> st'.sessions[i] == st.sessions[i]
      ensures i == |st.sessions| ==> st'.sessions[i] == NewSession(a)
    {}
    assert st.phase.NotStopping? || st.phase.Signalled?;
  }

  lemma ReceiverStepSafe(st: State, r: ReceiverStep)
    requires Inv(st) && ReceiverEnabled(st, r)
    ensures !ReceiverApply(st, r).panicked && !ReceiverApply(st, r).misused
    ensures ReceiverApply(st, r).wg == GroupSize(ReceiverApply(st, r).sessions)
  {
    hide Conserved, TableOk, LockOk, StopOk, SessionOk, GroupSize;
    if r.Send? || r.DropFull? {
      SendTargetOpen(st);
    }
    if r.Send? {
      var x := st.sessions[st.receiver.sid];
      GroupUpdate(st.sessions, st.receiver.sid, x.(ch := x.ch + [st.receiver.held[0]]));
    } else if r.Create? {
      GroupAppend(st.sessions, NewSession(r.addr));
    }
  }

  lemma StopStepKeepsInv(st: State, t: StopStep)
    requires Inv(st) && StopEnabled(st, t)
    ensures Inv(StopApply(st, t))
  {
    hide GroupSize, AllBufs, OwnedBy, Held;
    if t.Sweep? {
      SweepKeepsInv(st, t.addr);
    } else if t.AwaitGroup? {
      forall i | 0 <= i < |st.sessions|
        ensures InGroup(st.sessions[i]) == 0
      {
        GroupMember(st.sessions, i);
      }
    }
  }

  lemma SweepKeepsInv(st: State, a: ClientAddr)
    requires Inv(st) && StopEnabled(st, Sweep(a))
    ensures Inv(StopApply(st, Sweep(a)))
  {
    hide GroupSize, AllBufs, OwnedBy, Held, Owned, InGroup;
    var i := st.table[a];
    var x := st.sessions[i];
    var x' := x.(word := ServerConn, stopSaw := Some(x.word), deadline := x.word.NatConn?);
    assert SessionOk(x) && PhaseOk(st.phase, x) && Listed(x.pc) && !Critical(x.pc);
    assert SessionOk(x');
    assert InGroup(x') == InGroup(x) && Owned(x') == Owned(x) by { SweepOwnsSame(x, x'); }
    GroupUpdate(st.sessions, i, x');
    OwnedUpdate(st.sessions, i, x');
    Handover(OwnedBy(st.sessions), OwnedBy(st.sessions[i := x']), Owned(x), Owned(x'), multiset{}, st.pool, Held(st.receiver));
  }

  lemma SweepOwnsSame(x: Session, x': Session)
    requires x.ch == x'.ch && x.uplink == x'.uplink && x.pc == x'.pc
    ensures InGroup(x') == InGroup(x) && Owned(x') == Owned(x)
  {}

  lemma StepKeepsInv(st: State, step: Step)
    requires Inv(st) && Enabled(st, step)
    ensures Inv(Apply(st, step))
  {
    hide Conserved, TableOk, LockOk, StopOk, GroupSize, SessionOk;
    match step
    case ReceiverMoves(r) =>
      ReceiverKeepsTable(st, r);
      ReceiverKeepsConserved(st, r);
      ReceiverStepSafe(st, r);
    case SessionMoves(i, s) =>
      SessionStepKeepsInv(st, i, s);
    case StopMoves(t) =>
      StopStepKeepsInv(st, t);
  }

  // ----- whole runs -----

  predicate IsRun(st: State, steps: seq<Step>)
    decreases |steps|
  {
    steps == [] || (Enabled(st, steps[0]) && IsRun(Apply(st, steps[0]), steps[1..]))
  }

  function After(st: State, steps: seq<Step>): State
    requires IsRun(st, steps)
    decreases |steps|
  {
    if steps == [] then st else After(Apply(st, steps[0]), steps[1..])
  }

  lemma {:induction false} RunKeepsInv(st: State, steps: seq<Step>)
    requires Inv(st) && IsRun(st, steps)
    ensures Inv(After(st, steps))
    decreases |steps|
  {
    hide Inv, Enabled, Apply;
    if steps != [] {
      StepKeepsInv(st, steps[0]);
      RunKeepsInv(Apply(st, steps[0]), steps[1..]);
    }
  }

  /** In every interleaving: no send on a closed channel, no channel closed twice, no wait group below
      zero, no socket used after it was closed; and outside the critical section that closes it, an
      entry is in the table exactly while its channel is open. */
  lemma NoPanicInAnyRun(steps: seq<Step>)
    requires IsRun(InitialState, steps)
    ensures var st := After(InitialState, steps);
            && !st.panicked && !st.misused
            && (forall i :: 0 <= i < |st.sessions| && !st.sessions[i].pc.Deleting? ==>
                  var x := st.sessions[i];
                  x.chOpen <==> x.addr in st.table && st.table[x.addr] == i)
  {
    InitialInv();
    RunKeepsInv(InitialState, steps);
    hide Conserved, GroupSize, IsRun, After, StopOk, LockOk;
    var st := After(InitialState, steps);
    forall i | 0 <= i < |st.sessions| && !st.sessions[i].pc.Deleting?
      ensures st.sessions[i].chOpen <==> st.sessions[i].addr in st.table && st.table[st.sessions[i].addr] == i
    {
      assert SessionOk(st.sessions[i]);
    }
  }

  /** Stop has been through the table. */
  predicate TableSwept(phase: Phase) {
    phase.Swept? || phase.Drained? || phase.Stopped?
  }

  /** Stop saw the natConn and set its deadline; the initialiser went on to relay. */
  predicate ToldByDeadline(x: Session) {
    x.stopSaw == Some(NatConn) && x.deadline && x.initSaw == Some(Nil)
  }

  /** Stop saw nothing and left the shutdown mark; the initialiser does not relay. */
  predicate ToldByMark(x: Session) {
    x.stopSaw == Some(Nil) && x.initSaw != Some(Nil) && x.uplink.NoUplink? && !x.pc.Swapped? && !x.pc.Relaying?
  }

  /** In every interleaving, of the sessions still in the table once Stop has been through it each was told in
      exactly one way: those that relay had their natConn seen and their deadline set, those still initialising
      find the shutdown mark; and the server socket is open as long as any session relays. */
  lemma ShutdownIsAgreed(steps: seq<Step>)
    requires IsRun(InitialState, steps)
    ensures var st := After(InitialState, steps);
            && (forall i :: 0 <= i < |st.sessions| && st.sessions[i].stopSaw.Some? ==>
                  ToldByDeadline(st.sessions[i]) != ToldByMark(st.sessions[i]))
            && (TableSwept(st.phase) ==>
                  && (forall a :: a in st.table ==>
                        st.table[a] < |st.sessions| && st.sessions[st.table[a]].stopSaw.Some?)
                  && (forall i :: 0 <= i < |st.sessions| ==>
                        var x := st.sessions[i];
                        && (Listed(x.pc) ==> x.stopSaw.Some?)
                        && (x.pc.Swapped? || x.pc.Relaying? ==> x.deadline)
                        && (PreSwap(x.pc) ==> x.word.ServerConn?)))
            && (forall i :: 0 <= i < |st.sessions| ==>
                  st.sessions[i].pc.Swapped? || st.sessions[i].pc.Relaying? ==> st.serverOpen)
  {
    InitialInv();
    RunKeepsInv(InitialState, steps);
    hide Conserved, GroupSize, IsRun, After, LockOk;
    var st := After(InitialState, steps);
    forall i | 0 <= i < |st.sessions|
      ensures SessionOk(st.sessions[i]) && PhaseOk(st.phase, st.sessions[i])
    {}
  }

  lemma AfterKeepsVerdict(x: Session, s: SessionStep)
    requires x.uplink.Uplinking? || !(s.Dequeue? || s.PutBatch?)
    requires s.Dequeue? || s.DrainOne? ==> x.ch != []
    requires s.PutBatch? ==> x.uplink.batch != []
    ensures SessionAfter(x, s).stopSaw == x.stopSaw
    ensures SessionAfter(x, s).pc.Routing? ==> x.pc.Routing?
  {}

  /** What the receiver does to sessions that exist: at most it sends to one. */
  lemma ReceiverKeepsSessions(st: State, r: ReceiverStep, i: nat)
    requires ReceiverEnabled(st, r) && i < |st.sessions|
    ensures i < |ReceiverApply(st, r).sessions| && ReceiverApply(st, r).sessions[i].stopSaw == st.sessions[i].stopSaw
  {}

  lemma SweepsOnce(st: State, a: ClientAddr, i: nat)
    requires Inv(st) && StopEnabled(st, Sweep(a)) && i < |st.sessions| && st.sessions[i].stopSaw.Some?
    ensures st.table[a] != i
  {
    hide Conserved, GroupSize, SessionOk, LockOk;
    assert PhaseOk(st.phase, st.sessions[i]);
  }

  /** Stop's verdict on a session is final. */
  lemma VerdictStays(st: State, step: Step, i: nat)
    requires Inv(st) && Enabled(st, step) && i < |st.sessions| && st.sessions[i].stopSaw.Some?
    ensures i < |Apply(st, step).sessions| && Apply(st, step).sessions[i].stopSaw == st.sessions[i].stopSaw
  {
    hide Inv, ReceiverApply, SessionAfter;
    match step
    case ReceiverMoves(r) =>
      ReceiverKeepsSessions(st, r, i);
    case SessionMoves(j, s) =>
      AfterKeepsVerdict(st.sessions[j], s);
    case StopMoves(t) =>
      if t.Sweep? {
        SweepsOnce(st, t.addr, i);
      }
  }

  /** A session that Stop found without a natConn never relays, however the run goes on. */
  lemma {:induction false} RefusedNeverRelays(st: State, more: seq<Step>, i: nat)
    requires Inv(st) && IsRun(st, more) && i < |st.sessions| && st.sessions[i].stopSaw == Some(Nil)
    ensures i < |After(st, more).sessions| && ToldByMark(After(st, more).sessions[i])
    decreases |more|
  {
    if more == [] {
      hide Conserved, GroupSize, TableOk, LockOk, StopOk;
      assert SessionOk(st.sessions[i]);
    } else {
      hide Inv, Enabled, Apply;
      StepKeepsInv(st, more[0]);
      VerdictStays(st, more[0], i);
      RefusedNeverRelays(Apply(st, more[0]), more[1..], i);
    }
  }

  // ----- adding to the wait group while Stop waits on it -----

  /** The step adds to the wait group when it is empty, while Stop waits for it to be. */
  predicate AddsWhileWaiting(st: State, step: Step) {
    step.SessionMoves? && Enters(step.s) && st.phase.Swept? && st.wg == 0
  }

  predicate SomeRouting(st: State) {
    exists i :: 0 <= i < |st.sessions| && st.sessions[i].pc.Routing?
  }

  /** This can happen next exactly when a session is still looking up its client and no other is counted: an
      uplink is only ever added by a session that is counted itself. */
  lemma AddsWhileWaitingExactly(st: State)
    requires Inv(st)
    ensures (exists step :: Enabled(st, step) && AddsWhileWaiting(st, step)) <==>
            st.phase.Swept? && st.wg == 0 && SomeRouting(st)
  {
    hide Conserved, TableOk, LockOk, StopOk, SessionOk, GroupSize;
    if step :| Enabled(st, step) && AddsWhileWaiting(st, step) {
      GroupMember(st.sessions, step.sid);
      assert st.sessions[step.sid].pc.Routing?;
    }
    if st.phase.Swept? && st.wg == 0 && SomeRouting(st) {
      var i :| 0 <= i < |st.sessions| && st.sessions[i].pc.Routing?;
      var step := SessionMoves(i, RouteOk);
      assert Enabled(st, step) && AddsWhileWaiting(st, step);
    }
  }

  lemma RoutingOnlyEnds(st: State, step: Step)
    requires Enabled(st, step) && st.receiver.Exited? && !SomeRouting(st)
    ensures Apply(st, step).receiver.Exited? && !SomeRouting(Apply(st, step))
  {
    hide SessionAfter, ReceiverApply, Returned;
    match step
    case ReceiverMoves(r) =>
      assert false;
    case SessionMoves(j, s) =>
      SessionRoutingEnds(st, j, s);
    case StopMoves(t) =>
      hide SessionEnabled, ReceiverEnabled;
      StopKeepsPCs(st, t);
  }

  lemma SessionRoutingEnds(st: State, j: nat, s: SessionStep)
    requires SessionEnabled(st, j, s) && !SomeRouting(st)
    ensures SessionApply(st, j, s).receiver == st.receiver && !SomeRouting(SessionApply(st, j, s))
  {
    hide SessionAfter, Returned;
    AfterKeepsVerdict(st.sessions[j], s);
  }

  lemma StopKeepsPCs(st: State, t: StopStep)
    requires StopEnabled(st, t)
    ensures StopApply(st, t).receiver == st.receiver && |StopApply(st, t).sessions| == |st.sessions|
    ensures forall i :: 0 <= i < |st.sessions| ==> StopApply(st, t).sessions[i].pc == st.sessions[i].pc
  {}

  /** If no session is looking up its client once the receiver is gone, it never happens. */
  lemma {:induction false} NoAddWhileWaiting(st: State, more: seq<Step>, step: Step)
    requires Inv(st) && st.receiver.Exited? && !SomeRouting(st) && IsRun(st, more) && Enabled(After(st, more), step)
    ensures !AddsWhileWaiting(After(st, more), step)
    decreases |more|
  {
    if more == [] {
      AddsWhileWaitingExactly(st);
    } else {
      hide Inv, Enabled, Apply, SomeRouting;
      StepKeepsInv(st, more[0]);
      RoutingOnlyEnds(st, more[0]);
      NoAddWhileWaiting(Apply(st, more[0]), more[1..], step);
    }
  }

  lemma RunCons(st: State, step: Step, rest: seq<Step>)
    requires Enabled(st, step) && IsRun(Apply(st, step), rest)
    ensures IsRun(st, [step] + rest) && After(st, [step] + rest) == After(Apply(st, step), rest)
  {
    assert ([step] + rest)[1..] == rest;
  }

  /** One session, with one packet in its channel, is looking up its client. */
  function OneRouting(): State {
    InitialState.(created := 1, packets := map[0 := Packet(0, 0)], arrived := 1, sessions := [NewSession(0).(ch := [0])], table := map[0 := 0])
  }

  /** A run in which it does happen: the only session is still looking up its client when Stop has swept the
      table, finds the wait group empty and waits for nobody. */
  lemma LateAdd() returns (steps: seq<Step>)
    ensures IsRun(InitialState, steps)
    ensures var st := After(InitialState, steps);
            Enabled(st, SessionMoves(0, RouteOk)) && AddsWhileWaiting(st, SessionMoves(0, RouteOk))
  {
    hide IsRun, After, OneRouting;
    steps := StopWhileRouting();
    steps := ReceiveOne(steps);
  }

  lemma ReceiveOne(rest: seq<Step>) returns (steps: seq<Step>)
    requires IsRun(OneRouting(), rest)
    ensures IsRun(InitialState, steps) && After(InitialState, steps) == After(OneRouting(), rest)
  {
    hide IsRun, After;
    var x := NewSession(0);
    var s0 := InitialState;
    var s1 := s0.(created := 1, receiver := Idle([0]), packets := map[0 := Packet(0, 0)], arrived := 1);
    var s2 := s1.(lock := ByReceiver, receiver := Locked([0]));
    var s3 := s2.(sessions := [x], table := map[0 := 0], receiver := Sending([0], 0));
    var s4 := s3.(sessions := [x.(ch := [0])], receiver := Locked([]));
    assert Apply(s0, ReceiverMoves(GetNew(0))) == s1 by {
      assert [] + [0] == [0] && map[][0 := Packet(0, 0)] == map[0 := Packet(0, 0)];
    }
    assert Apply(s2, ReceiverMoves(Create(0))) == s3 by {
      assert [] + [x] == [x] && map[][0 := 0] == map[0 := 0];
    }
    assert Apply(s3, ReceiverMoves(Send)) == s4 by {
      assert [x][0 := x.(ch := [0])] == [x.(ch := [0])] && [0][1..] == [] && [] + [0] == [0];
    }
    assert Apply(s4, ReceiverMoves(Unlock)) == OneRouting();
    steps := Prepend(s4, ReceiverMoves(Unlock), rest);
    steps := Prepend(s3, ReceiverMoves(Send), steps);
    steps := Prepend(s2, ReceiverMoves(Create(0)), steps);
    steps := Prepend(s1, ReceiverMoves(Lock), steps);
    steps := Prepend(s0, ReceiverMoves(GetNew(0)), steps);
  }

  lemma StopWhileRouting() returns (steps: seq<Step>)
    ensures IsRun(OneRouting(), steps)
    ensures var st := After(OneRouting(), steps);
            Enabled(st, SessionMoves(0, RouteOk)) && AddsWhileWaiting(st, SessionMoves(0, RouteOk))
  {
    hide IsRun, After;
    var z := NewSession(0).(ch := [0], word := ServerConn, stopSaw := Some(Nil));
    var s0 := OneRouting();
    var s1 := s0.(phase := Signalled);
    var s2 := s1.(receiver := Exited);
    var s3 := s2.(phase := ReceiverGone);
    var s4 := s3.(phase := Sweeping({0}), lock := ByStop);
    var s5 := s4.(sessions := [z], phase := Sweeping({}));
    var s6 := s5.(phase := Swept, lock := Free);
    assert Apply(s1, ReceiverMoves(Exit)) == s2 by {
      assert s1.pool + multiset(s1.receiver.held) == s2.pool;
    }
    assert Apply(s3, StopMoves(LockForSweep)) == s4 by {
      assert s3.table.Keys == {0};
    }
    assert Apply(s4, StopMoves(Sweep(0))) == s5 by {
      assert s4.sessions[0 := z] == [z] && {0} - {0} == {};
    }
    RunNil(s6);
    steps := Prepend(s5, StopMoves(UnlockSwept), []);
    steps := Prepend(s4, StopMoves(Sweep(0)), steps);
    steps := Prepend(s3, StopMoves(LockForSweep), steps);
    steps := Prepend(s2, StopMoves(AwaitReceiver), steps);
    steps := Prepend(s1, ReceiverMoves(Exit), steps);
    steps := Prepend(s0, StopMoves(Signal), steps);
  }

  lemma RunNil(st: State)
    ensures IsRun(st, []) && After(st, []) == st
  {}

  lemma Prepend(st: State, step: Step, rest: seq<Step>) returns (steps: seq<Step>)
    requires Enabled(st, step) && IsRun(Apply(st, step), rest)
    ensures IsRun(st, steps) && After(st, steps) == After(Apply(st, step), rest)
  {
    steps := [step] + rest;
    RunCons(st, step, rest);
  }

  predicate Finished(x: Session) {
    x.pc.Done? && (x.uplink.NoUplink? || x.uplink.UplinkExited?)
  }

  lemma {:induction false} FinishedOwnNothing(ss: seq<Session>)
    requires forall i :: 0 <= i < |ss| ==> SessionOk(ss[i]) && Finished(ss[i])
    ensures OwnedBy(ss) == multiset{}
  {
    if ss != [] {
      assert SessionOk(ss[0]) && Finished(ss[0]);
      assert ss[0].ch == [];
      FinishedOwnNothing(ss[1..]);
    }
  }

  /** In every interleaving each buffer has one owner; when the receiver has exited and all sessions
      are finished, every buffer is back in the pool, once. */
  lemma BuffersConserved(steps: seq<Step>)
    requires IsRun(InitialState, steps)
    ensures var st := After(InitialState, steps);
            && st.pool + Held(st.receiver) + OwnedBy(st.sessions) == AllBufs(st.created)
            && (st.receiver.Exited? && (forall i :: 0 <= i < |st.sessions| ==> Finished(st.sessions[i])) ==>
                  st.pool == AllBufs(st.created))
  {
    InitialInv();
    RunKeepsInv(InitialState, steps);
    hide GroupSize, IsRun, After, TableOk, LockOk, StopOk, SessionOk, Finished, AllBufs;
    var st := After(InitialState, steps);
    if st.receiver.Exited? && forall i :: 0 <= i < |st.sessions| ==> Finished(st.sessions[i]) {
      FinishedOwnNothing(st.sessions);
    }
  }

  /** In every interleaving a session's natConn is open from its creation until it is refused or its uplink has closed it;
      once all is done, none is. */
  lemma SocketsClosed(steps: seq<Step>)
    requires IsRun(InitialState, steps)
    ensures var st := After(InitialState, steps);
            forall i :: 0 <= i < |st.sessions| ==>
              var x := st.sessions[i];
              && (x.natOpen <==> x.pc.HasConn? || x.pc.Refusing? || (x.clean && !x.uplink.UplinkExited?))
              && (Finished(x) ==> !x.natOpen)
  {
    InitialInv();
    RunKeepsInv(InitialState, steps);
    hide Conserved, GroupSize, IsRun, After, StopOk, LockOk, TableOk;
    var st := After(InitialState, steps);
    forall i | 0 <= i < |st.sessions|
      ensures SessionOk(st.sessions[i])
    {}
  }

  lemma {:induction false} EachOnce(created: nat, b: Buf)
    ensures AllBufs(created)[b] == if b < created then 1 else 0
  {
    if created > 0 {
      EachOnce(created - 1, b);
    }
  }
}
