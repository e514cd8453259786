/** Where the shutdown of the NAT relay can get to: from every state Stop can still return, and from which states a
    session can still be added to the wait group that Stop finds empty. */
module NatShutdown {
  import opened NatRelay

  // ----- how much is left to do -----

  function PcWork(pc: PC): nat {
    match pc
    case Routing => 12
    case Counted => 11
    case HasConn => 10
    case Refusing => 9
    case Swapped => 9
    case Aborting => 8
    case Relaying => 8
    case Leaving => 7
    case Closing => 6
    case Deleting => 5
    case Unlocking => 4
    case Draining => 3
    case Done => 2
  }

  function UplinkWork(u: Uplink): nat {
    match u
    case NoUplink => 3
    case Uplinking(batch) => 2 + |batch|
    case UplinkClosing => 1
    case UplinkExited => 0
  }

  function SessionWork(x: Session): nat {
    2 * |x.ch| + PcWork(x.pc) + UplinkWork(x.uplink)
  }

  function Work(ss: seq<Session>): nat {
    if ss == [] then 0 else SessionWork(ss[0]) + Work(ss[1..])
  }

  lemma {:induction false} WorkUpdate(ss: seq<Session>, i: nat, x: Session)
    requires i < |ss|
    ensures Work(ss[i := x]) + SessionWork(ss[i]) == Work(ss) + SessionWork(x)
  {
    if i == 0 {
      assert ss[0 := x][1..] == ss[1..];
    } else {
      WorkUpdate(ss[1..], i - 1, x);
      assert ss[i := x][1..] == ss[1..][i - 1 := x];
    }
  }

  lemma {:induction false} SomeCounted(ss: seq<Session>) returns (i: nat)
    requires GroupSize(ss) > 0
    ensures i < |ss| && InGroup(ss[i]) > 0
  {
    if InGroup(ss[0]) > 0 {
      i := 0;
    } else {
      i := SomeCounted(ss[1..]);
      i := i + 1;
    }
  }

  // ----- one session can always be moved on -----

  /** The session has a step that leaves less to do, unless it waits for the mutex or its uplink waits for it to close
      the channel. */
  predicate Moves(st: State, i: nat, s: SessionStep) {
    && SessionEnabled(st, i, s)
    && SessionWork(SessionAfter(st.sessions[i], s)) < SessionWork(st.sessions[i])
    && !st.sessions[i].pc.Routing?
  }

  /** The holder of the mutex. */
  lemma HolderMoves(st: State, i: nat) returns (s: SessionStep)
    requires i < |st.sessions| && Critical(st.sessions[i].pc)
    ensures Moves(st, i, s)
  {
    s := match st.sessions[i].pc case Closing => CloseChannel case Deleting => DeleteEntry case _ => UnlockTable;
  }

  /** A goroutine that is counted. */
  lemma CountedMoves(st: State, i: nat) returns (s: SessionStep)
    requires i < |st.sessions|
    requires var pc := st.sessions[i].pc;
             pc.Counted? || pc.HasConn? || pc.Refusing? || pc.Aborting? || pc.Swapped? || pc.Relaying?
    requires SessionOk(st.sessions[i])
    ensures Moves(st, i, s)
  {
    s := match st.sessions[i].pc
         case Counted => InitFail
         case HasConn => DeadlineFail
         case Refusing => Refuse
         case Aborting => LeaveGroup
         case Swapped => StartUplink
         case _ => RelayEnd;
  }

  /** An uplink, once its goroutine no longer relays. */
  lemma UplinkMoves(st: State, i: nat) returns (j: nat, s: SessionStep)
    requires Inv(st) && i < |st.sessions| && (st.lock.Free? || st.lock.BySession?)
    requires var x := st.sessions[i];
             (x.uplink.Uplinking? || x.uplink.UplinkClosing?) && !x.pc.Relaying?
    ensures Moves(st, j, s)
  {
    hide Conserved, TableOk, StopOk, GroupSize;
    var x := st.sessions[i];
    assert SessionOk(x);
    j := i;
    if x.uplink.UplinkClosing? {
      s := CloseNat;
    } else if x.uplink.batch != [] {
      s := PutBatch;
    } else if x.ch != [] {
      s := Dequeue;
    } else if !x.chOpen {
      s := UplinkEnd;
    } else if Critical(x.pc) {
      s := HolderMoves(st, i);
    } else {
      assert x.pc.Leaving?;
      if st.lock.Free? {
        s := LockTable;
      } else {
        j, s := LockHolder(st);
      }
    }
  }

  lemma LockHolder(st: State) returns (j: nat, s: SessionStep)
    requires LockOk(st) && st.lock.BySession? && st.lock.sid < |st.sessions|
    ensures Moves(st, j, s)
  {
    j := st.lock.sid;
    s := HolderMoves(st, j);
  }

  // ----- so Stop gets to an empty wait group -----

  /** The receiver is gone and Stop has not got past its wait for the sessions. */
  predicate Waiting(st: State) {
    st.receiver.Exited? && (st.phase.Signalled? || st.phase.ReceiverGone? || st.phase.Sweeping? || st.phase.Swept?)
  }

  function PhaseWork(phase: Phase): nat {
    match phase
    case Signalled => 3
    case ReceiverGone => 2
    case Sweeping(_) => 1
    case _ => 0
  }

  function ToSweep(phase: Phase): nat {
    if phase.Sweeping? then |phase.todo| else 0
  }

  /** The sessions that are looking up their client still do. */
  predicate KeepsRouting(st: State, st': State) {
    forall i :: 0 <= i < |st.sessions| && st.sessions[i].pc.Routing? ==> i < |st'.sessions| && st'.sessions[i].pc.Routing?
  }

  predicate LessWork(st: State, st': State) {
    || PhaseWork(st'.phase) < PhaseWork(st.phase)
    || (PhaseWork(st'.phase) == PhaseWork(st.phase) && ToSweep(st'.phase) < ToSweep(st.phase))
    || (st'.phase == st.phase && Work(st'.sessions) < Work(st.sessions))
  }

  predicate Helps(st: State, step: Step) {
    && Enabled(st, step)
    && var st' := Apply(st, step);
       Waiting(st') && KeepsRouting(st, st') && LessWork(st, st')
  }

  lemma MoveHelps(st: State, i: nat, s: SessionStep)
    requires Waiting(st) && Moves(st, i, s)
    ensures Helps(st, SessionMoves(i, s))
  {
    hide SessionAfter, SessionWork, Work;
    WorkUpdate(st.sessions, i, SessionAfter(st.sessions[i], s));
  }

  lemma SweepHelps(st: State, a: ClientAddr)
    requires Inv(st) && Waiting(st) && st.phase.Sweeping? && a in st.phase.todo
    ensures Helps(st, StopMoves(Sweep(a)))
  {
    hide Conserved, GroupSize, SessionOk, LockOk;
    var st' := Apply(st, StopMoves(Sweep(a)));
    assert st.phase.todo == st'.phase.todo + {a};
  }

  /** As long as someone is counted, someone can move. */
  lemma CountedHelps(st: State) returns (step: Step)
    requires Inv(st) && Waiting(st) && st.phase.Swept? && st.wg > 0
    ensures Helps(st, step)
  {
    hide Helps, Moves, Conserved, TableOk, StopOk;
    var i := SomeCounted(st.sessions);
    var x := st.sessions[i];
    assert SessionOk(x);
    var s;
    if x.uplink.Uplinking? || x.uplink.UplinkClosing? {
      if x.pc.Relaying? {
        s := CountedMoves(st, i);
      } else {
        i, s := UplinkMoves(st, i);
      }
    } else {
      s := CountedMoves(st, i);
    }
    MoveHelps(st, i, s);
    step := SessionMoves(i, s);
  }

  lemma SomeStepHelps(st: State) returns (step: Step)
    requires Inv(st) && Waiting(st) && !(st.phase.Swept? && st.wg == 0)
    ensures Helps(st, step)
  {
    hide Conserved, TableOk, StopOk, GroupSize, SessionOk, Work, Moves;
    match st.phase
    case Signalled => step := StopMoves(AwaitReceiver);
    case ReceiverGone =>
      if st.lock.Free? {
        step := StopMoves(LockForSweep);
      } else {
        var i, s := LockHolder(st);
        MoveHelps(st, i, s);
        step := SessionMoves(i, s);
      }
    case Sweeping(todo) =>
      if todo == {} {
        step := StopMoves(UnlockSwept);
      } else {
        var a :| a in todo;
        SweepHelps(st, a);
        step := StopMoves(Sweep(a));
      }
    case _ => step := CountedHelps(st);
  }

  /** From every such state there is a continuation in which Stop finds the wait group empty, and no session that is
      looking up its client needs to go on for it. */
  lemma {:induction false} GroupEmpties(st: State) returns (more: seq<Step>)
    requires Inv(st) && Waiting(st)
    ensures IsRun(st, more) && KeepsRouting(st, After(st, more))
    ensures var end := After(st, more);
            Inv(end) && end.receiver.Exited? && end.phase.Swept? && end.wg == 0
    decreases PhaseWork(st.phase), ToSweep(st.phase), Work(st.sessions)
  {
    hide Inv, Enabled, Apply, Work, IsRun, After;
    if st.phase.Swept? && st.wg == 0 {
      RunNil(st);
      more := [];
    } else {
      var step := SomeStepHelps(st);
      StepKeepsInv(st, step);
      more := GroupEmpties(Apply(st, step));
      more := Prepend(st, step, more);
    }
  }

  // ----- the late addition -----

  /** After `more`, the step adds to the wait group that Stop finds empty. */
  predicate AddsLate(st: State, more: seq<Step>, step: Step) {
    IsRun(st, more) && Enabled(After(st, more), step) && AddsWhileWaiting(After(st, more), step)
  }

  /** Once Stop is past its wait it stays past it. */
  lemma {:induction false} PastStaysPast(st: State, more: seq<Step>)
    requires (st.phase.Drained? || st.phase.Stopped?) && IsRun(st, more)
    ensures !After(st, more).phase.Swept?
    decreases |more|
  {
    if more != [] {
      hide Enabled, Apply;
      PastStep(st, more[0]);
      PastStaysPast(Apply(st, more[0]), more[1..]);
    }
  }

  lemma PastStep(st: State, step: Step)
    requires (st.phase.Drained? || st.phase.Stopped?) && Enabled(st, step)
    ensures Apply(st, step).phase.Drained? || Apply(st, step).phase.Stopped?
  {
    hide SessionAfter, SessionEnabled, ReceiverEnabled, ReceiverApply, Returned;
    if step.ReceiverMoves? {
      ReceiverKeepsPhase(st, step.r);
    }
  }

  lemma ReceiverKeepsPhase(st: State, r: ReceiverStep)
    requires ReceiverEnabled(st, r)
    ensures ReceiverApply(st, r).phase == st.phase
  {}

  /** Once the receiver is gone, a session can still be added to the wait group while Stop waits on it exactly when a
      session is looking up its client and Stop is not past its wait. */
  lemma LateAddPossibleExactly(st: State)
    requires Inv(st) && st.receiver.Exited?
    ensures (exists more, step :: AddsLate(st, more, step)) <==> SomeRouting(st) && !st.phase.Drained? && !st.phase.Stopped?
  {
    hide IsRun, After, Enabled, Conserved, TableOk, LockOk, GroupSize, SessionOk;
    if more, step :| AddsLate(st, more, step) {
      if st.phase.Drained? || st.phase.Stopped? {
        PastStaysPast(st, more);
      } else if !SomeRouting(st) {
        NoAddWhileWaiting(st, more, step);
      }
    }
    if SomeRouting(st) && !st.phase.Drained? && !st.phase.Stopped? {
      var more := GroupEmpties(st);
      var end := After(st, more);
      AddsWhileWaitingExactly(end);
      var i :| 0 <= i < |st.sessions| && st.sessions[i].pc.Routing?;
      assert end.sessions[i].pc.Routing?;
      var step :| Enabled(end, step) && AddsWhileWaiting(end, step);
      assert AddsLate(st, more, step);
    }
  }

  // ----- Stop returns -----

  /** The receiver can finish the packet in hand and exit once Stop has signalled. */
  lemma ReceiverExits(st: State) returns (more: seq<Step>)
    requires Inv(st) && st.phase.Signalled?
    ensures IsRun(st, more)
    ensures Inv(After(st, more)) && After(st, more).phase.Signalled? && After(st, more).receiver.Exited?
  {
    hide Inv, IsRun, After;
    if st.receiver.Exited? {
      RunNil(st);
      more := [];
    } else if st.receiver.Idle? {
      more := Exits(st);
    } else if st.receiver.Locked? {
      more := UnlocksAndExits(st);
    } else {
      var step := SendOrDrop(st);
      StepKeepsInv(st, step);
      more := UnlocksAndExits(Apply(st, step));
      more := Prepend(st, step, more);
    }
  }

  lemma Exits(st: State) returns (more: seq<Step>)
    requires Inv(st) && st.phase.Signalled? && st.receiver.Idle?
    ensures IsRun(st, more)
    ensures Inv(After(st, more)) && After(st, more).phase.Signalled? && After(st, more).receiver.Exited?
  {
    hide Inv, IsRun, After;
    StepKeepsInv(st, ReceiverMoves(Exit));
    RunNil(Apply(st, ReceiverMoves(Exit)));
    more := Prepend(st, ReceiverMoves(Exit), []);
  }

  lemma UnlocksAndExits(st: State) returns (more: seq<Step>)
    requires Inv(st) && st.phase.Signalled? && st.receiver.Locked?
    ensures IsRun(st, more)
    ensures Inv(After(st, more)) && After(st, more).phase.Signalled? && After(st, more).receiver.Exited?
  {
    hide Inv, IsRun, After;
    StepKeepsInv(st, ReceiverMoves(Unlock));
    more := Exits(Apply(st, ReceiverMoves(Unlock)));
    more := Prepend(st, ReceiverMoves(Unlock), more);
  }

  lemma SendOrDrop(st: State) returns (step: Step)
    requires Inv(st) && st.receiver.Sending?
    ensures Enabled(st, step) && Apply(st, step).receiver.Locked? && Apply(st, step).phase == st.phase
  {
    hide Conserved, TableOk, StopOk, GroupSize, SessionOk;
    var full := |st.sessions[st.receiver.sid].ch| >= SendChannelCapacity;
    step := ReceiverMoves(if full then DropFull else Send);
  }

  /** Whatever has happened, Stop can still be called and return: no interleaving leads into a deadlock. */
  lemma StopCanReturn(steps: seq<Step>) returns (more: seq<Step>)
    requires IsRun(InitialState, steps)
    ensures IsRun(After(InitialState, steps), more) && After(After(InitialState, steps), more).phase.Stopped?
  {
    hide Inv, IsRun, After;
    InitialInv();
    RunKeepsInv(InitialState, steps);
    more := Stops(After(InitialState, steps));
  }

  lemma {:induction false} RunAppend(st: State, first: seq<Step>, rest: seq<Step>) returns (steps: seq<Step>)
    requires IsRun(st, first) && IsRun(After(st, first), rest)
    ensures IsRun(st, steps) && After(st, steps) == After(After(st, first), rest)
    decreases |first|
  {
    if first == [] {
      steps := rest;
    } else {
      steps := RunAppend(Apply(st, first[0]), first[1..], rest);
      steps := Prepend(st, first[0], steps);
    }
  }

  lemma Stops(st: State) returns (more: seq<Step>)
    requires Inv(st)
    ensures IsRun(st, more) && After(st, more).phase.Stopped?
    decreases st.phase.NotStopping?
  {
    hide Inv, IsRun, After;
    if st.phase.NotStopping? {
      StepKeepsInv(st, StopMoves(Signal));
      more := Stops(Apply(st, StopMoves(Signal)));
      more := Prepend(st, StopMoves(Signal), more);
    } else if st.phase.Signalled? {
      var first := ReceiverExits(st);
      more := StopsAlone(After(st, first));
      more := RunAppend(st, first, more);
    } else {
      GoneByNow(st);
      more := StopsAlone(st);
    }
  }

  lemma GoneByNow(st: State)
    requires Inv(st) && !st.phase.NotStopping? && !st.phase.Signalled?
    ensures st.receiver.Exited?
  {
    hide Conserved, TableOk, LockOk, GroupSize, SessionOk;
  }

  lemma StopsAlone(st: State) returns (more: seq<Step>)
    requires Inv(st) && st.receiver.Exited? && !st.phase.NotStopping?
    ensures IsRun(st, more) && After(st, more).phase.Stopped?
  {
    hide Inv, IsRun, After;
    if st.phase.Stopped? {
      RunNil(st);
      more := [];
    } else if st.phase.Drained? {
      var end := Apply(st, StopMoves(CloseServer));
      RunNil(end);
      more := Prepend(st, StopMoves(CloseServer), []);
    } else {
      var first := GroupEmpties(st);
      var mid := After(st, first);
      var drained := Apply(mid, StopMoves(AwaitGroup));
      var end := Apply(drained, StopMoves(CloseServer));
      RunNil(end);
      more := Prepend(drained, StopMoves(CloseServer), []);
      more := Prepend(mid, StopMoves(AwaitGroup), more);
      more := RunAppend(st, first, more);
    }
  }
}
