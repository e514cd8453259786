/** The uplink of a NAT session: the simple loop packs and writes one packet at a time, the batched
    loop gathers packets while the channel has more and writes them with sendmmsg. */
module Uplink {
  import opened Words

  /** A client packer: its state after packing, and the message or None when packing fails. The
      environment (clock, randomness) of the k-th call is part of the function. */
  datatype Packer<!S, !P, !M> = Packer(pack: (nat, S, P) -> (S, Option<M>))

  /** Packer state, number of PackInPlace calls so far, and the messages submitted in order. */
  datatype Progress<S, M> = Progress(state: S, calls: nat, sent: seq<M>)

  function PackOne<S, P, M>(pk: Packer<S, P, M>, g: Progress<S, M>, p: P): Progress<S, M> {
    var (s', m) := pk.pack(g.calls, g.state, p);
    Progress(s', g.calls + 1, if m.Some? then g.sent + [m.value] else g.sent)
  }

  /** What the simple loop does with the packets of the channel, in order. */
  function PackAll<S, P, M>(pk: Packer<S, P, M>, g: Progress<S, M>, input: seq<P>): Progress<S, M>
    decreases |input|
  {
    if input == [] then g else PackAll(pk, PackOne(pk, g, input[0]), input[1..])
  }

  /** The packer's states along the way. */
  predicate Threads<S(==), P, M>(pk: Packer<S, P, M>, g: Progress<S, M>, input: seq<P>, states: seq<S>) {
    && |states| == |input| + 1 && states[0] == g.state
    && forall k :: 0 <= k < |input| ==> states[k + 1] == pk.pack(g.calls + k, states[k], input[k]).0
  }

  /** The messages that packing gave, in order. */
  function Packed<S, P, M>(pk: Packer<S, P, M>, calls: nat, input: seq<P>, states: seq<S>, n: nat): seq<M>
    requires |states| > |input| >= n
  {
    if n == 0 then []
    else
      var m := pk.pack(calls + n - 1, states[n - 1], input[n - 1]).1;
      Packed(pk, calls, input, states, n - 1) + if m.Some? then [m.value] else []
  }

  /** The k-th packet is packed by the k-th call, from the state that the call before left; what packs is sent, in order,
      and nothing else. */
  lemma {:induction false} PackedInOrder<S, P, M>(pk: Packer<S, P, M>, g: Progress<S, M>, input: seq<P>) returns (states: seq<S>)
    ensures Threads(pk, g, input, states)
    ensures PackAll(pk, g, input) == Progress(states[|input|], g.calls + |input|, g.sent + Packed(pk, g.calls, input, states, |input|))
    decreases |input|
  {
    hide PackAll;
    if input == [] {
      PackAllNone(pk, g);
      states := [g.state];
      assert g.sent + [] == g.sent;
    } else {
      var n := |input| - 1;
      states := PackedInOrder(pk, g, input[..n]);
      PackAllSnoc(pk, g, input[..n], input[n]);
      assert input[..n] + [input[n]] == input;
      var last := pk.pack(g.calls + n, states[n], input[n]);
      PackedSame(pk, g.calls, input[..n], states, input, states + [last.0], n);
      Assoc(g.sent, Packed(pk, g.calls, input[..n], states, n), if last.1.Some? then [last.1.value] else []);
      states := states + [last.0];
    }
  }

  lemma {:induction false} PackedSame<S, P, M>(pk: Packer<S, P, M>, calls: nat, a: seq<P>, states: seq<S>, b: seq<P>, states': seq<S>, n: nat)
    requires n <= |a| < |states| && n <= |b| < |states'| && a <= b && states <= states'
    ensures Packed(pk, calls, a, states, n) == Packed(pk, calls, b, states', n)
  {
    if n > 0 {
      PackedSame(pk, calls, a, states, b, states', n - 1);
    }
  }

  function Concat<M>(batches: seq<seq<M>>): seq<M> {
    if batches == [] then [] else Concat(batches[..|batches| - 1]) + batches[|batches| - 1]
  }

  lemma ConcatSnoc<M>(batches: seq<seq<M>>, b: seq<M>)
    ensures Concat(batches + [b]) == Concat(batches) + b
  {
    assert (batches + [b])[..|batches|] == batches;
  }

  /** relayServerConnToNatConnGeneric. */
  method SimpleUplink<S, P, M>(pk: Packer<S, P, M>, s0: S, input: seq<P>)
    returns (g: Progress<S, M>, returned: seq<P>)
    ensures g == PackAll(pk, Progress(s0, 0, []), input)
    ensures returned == input
  {
    hide PackAll;
    g := Progress(s0, 0, []);
    returned := [];
    assert input[0..] == input;
    for i := 0 to |input|
      invariant PackAll(pk, g, input[i..]) == PackAll(pk, Progress(s0, 0, []), input)
      invariant returned == input[..i]
    {
      PackAllHead(pk, g, input[i..]);
      assert input[i..][1..] == input[i + 1..];
      var (s', m) := pk.pack(g.calls, g.state, input[i]);
      g := Progress(s', g.calls + 1, if m.Some? then g.sent + [m.value] else g.sent);
      returned := returned + [input[i]];
    }
    assert input[|input|..] == [] && input[..|input|] == input;
    PackAllNone(pk, g);
  }

  /** The channel as the uplink sees it: the packets still to come, after which it is closed. */
  datatype Channel<P> = Channel(rest: seq<P>, attempts: nat)

  /** What a round has done with the packets it took: the slots hold those that were packed, and
      their messages in order; the others have been returned already. */
  ghost predicate Gathered<S, P, M>(pk: Packer<S, P, M>, g0: Progress<S, M>, g: Progress<S, M>, failed: seq<P>,
                                    taken: seq<P>, batch: seq<M>, qs: seq<Option<P>>, ms: seq<Option<M>>) {
    && g == PackAll(pk, g0, taken) && g.sent == g0.sent + batch
    && |qs| == |ms| == |batch|
    && (forall i :: 0 <= i < |ms| ==> ms[i] == Some(batch[i]))
    && multiset(failed) + multiset(Values(qs)) == multiset(taken)
  }

  lemma GatheredNone<S, P, M>(pk: Packer<S, P, M>, g0: Progress<S, M>)
    ensures Gathered(pk, g0, g0, [], [], [], [], [])
  {}

  lemma GatherFailed<S, P, M>(pk: Packer<S, P, M>, g0: Progress<S, M>, g: Progress<S, M>, failed: seq<P>,
                              taken: seq<P>, batch: seq<M>, qs: seq<Option<P>>, ms: seq<Option<M>>, p: P)
    requires Gathered(pk, g0, g, failed, taken, batch, qs, ms) && pk.pack(g.calls, g.state, p).1.None?
    ensures Gathered(pk, g0, PackOne(pk, g, p), failed + [p], taken + [p], batch, qs, ms)
  {
    PackAllSnoc(pk, g0, taken, p);
    assert multiset(failed + [p]) == multiset(failed) + multiset{p};
    assert multiset(taken + [p]) == multiset(taken) + multiset{p};
  }

  lemma GatherPacked<S, P, M>(pk: Packer<S, P, M>, g0: Progress<S, M>, g: Progress<S, M>, failed: seq<P>,
                              taken: seq<P>, batch: seq<M>, qs: seq<Option<P>>, ms: seq<Option<M>>, p: P)
    requires Gathered(pk, g0, g, failed, taken, batch, qs, ms) && pk.pack(g.calls, g.state, p).1.Some?
    ensures var m := pk.pack(g.calls, g.state, p).1.value;
            Gathered(pk, g0, PackOne(pk, g, p), failed, taken + [p], batch + [m], qs + [Some(p)], ms + [Some(m)])
  {
    hide PackAll, Values;
    var m := pk.pack(g.calls, g.state, p).1.value;
    PackAllSnoc(pk, g0, taken, p);
    ValuesSnoc(qs, p);
    Counted(failed, Values(qs), taken, p);
    assert g0.sent + batch + [m] == g0.sent + (batch + [m]);
  }

  lemma Counted<P>(xs: seq<P>, ys: seq<P>, zs: seq<P>, p: P)
    requires multiset(xs) + multiset(ys) == multiset(zs)
    ensures multiset(xs) + multiset(ys + [p]) == multiset(zs + [p])
  {
    assert multiset(ys + [p]) == multiset(ys) + multiset{p};
    assert multiset(zs + [p]) == multiset(zs) + multiset{p};
  }

  /** One round of the batched loop: starting from a packet already received, packs until the batch is
      full, or a non-blocking receive finds nothing, or the channel is closed. */
  method Gather<S, P, M>(pk: Packer<S, P, M>, g0: Progress<S, M>, first: P, c0: Channel<P>, ready: nat -> bool,
                         qpvec: array<Option<P>>, msgvec: array<Option<M>>)
    returns (g: Progress<S, M>, c: Channel<P>, count: nat, failed: seq<P>, ok: bool, ghost taken: seq<P>, ghost batch: seq<M>)
    requires 0 < qpvec.Length == msgvec.Length && qpvec as object != msgvec
    modifies qpvec, msgvec
    ensures taken + c.rest == [first] + c0.rest && |c.rest| <= |c0.rest|
    ensures count <= msgvec.Length && Gathered(pk, g0, g, failed, taken, batch, qpvec[..count], msgvec[..count])
    ensures count == 0 ==> ok && taken == [first] == failed && c.attempts == c0.attempts
    ensures !ok ==> c.rest == []
    // It stops at a full batch, where nothing was ready or where the channel was closed, or if its first packet fails.
    ensures c0.attempts <= c.attempts && forall k :: c0.attempts <= k < c.attempts - 1 ==> ready(k)
    ensures count > 0 && count < msgvec.Length ==> c0.attempts < c.attempts && (ok <==> !ready(c.attempts - 1))
  {
    hide Gathered, PackAll;
    g, c, count, failed, ok, taken, batch := g0, c0, 0, [], true, [], [];
    var queuedPacket := first;
    GatheredNone(pk, g0);
    assert qpvec[..0] == [] && msgvec[..0] == [];
    while true
      invariant 0 <= count < msgvec.Length
      invariant taken + [queuedPacket] + c.rest == [first] + c0.rest && |c.rest| <= |c0.rest|
      invariant Gathered(pk, g0, g, failed, taken, batch, qpvec[..count], msgvec[..count])
      invariant ok && c0.attempts <= c.attempts && forall k :: c0.attempts <= k < c.attempts ==> ready(k)
      invariant taken == [] <==> count == 0
      invariant taken == [] ==> queuedPacket == first && failed == [] && c == c0
      decreases |c.rest|
    {
      var (s', m) := pk.pack(g.calls, g.state, queuedPacket);
      if m.None? {
        GatherFailed(pk, g0, g, failed, taken, batch, qpvec[..count], msgvec[..count], queuedPacket);
        failed := failed + [queuedPacket];
      } else {
        GatherPacked(pk, g0, g, failed, taken, batch, qpvec[..count], msgvec[..count], queuedPacket);
        ghost var qs, ms := qpvec[..count], msgvec[..count];
        qpvec[count] := Some(queuedPacket);
        msgvec[count] := Some(m.value);
        batch := batch + [m.value];
        count := count + 1;
        assert qpvec[..count] == qs + [Some(queuedPacket)] && msgvec[..count] == ms + [Some(m.value)];
      }
      g := PackOne(pk, g, queuedPacket);
      taken := taken + [queuedPacket];
      if (m.None? && count == 0) || (m.Some? && count == msgvec.Length) {
        return;
      }
      // Non-blocking receive.
      var now := ready(c.attempts);
      c := c.(attempts := c.attempts + 1);
      if !now {
        return;
      }
      if c.rest == [] {
        ok := false;
        return;
      }
      queuedPacket := c.rest[0];
      c := c.(rest := c.rest[1..]);
    }
  }

  /** conn.WriteMsgvec: repeated sendmmsg calls. A call submits between one and all remaining messages,
      or fails and drops the first of them; either way every message is submitted once, in order. */
  datatype Syscall = Sent(n: Positive) | Failed

  type Positive = n: int | n > 0 witness 1

  /** From call number `call` on, with `processed` of `count` messages done: the number of the next call, and which
      messages are dropped. */
  function Calls(outcome: nat -> Syscall, call: nat, processed: nat, count: nat): (r: (nat, set<nat>))
    requires processed <= count
    ensures forall i :: i in r.1 ==> processed <= i < count
    decreases count - processed
  {
    if processed == count then (call, {})
    else
      match outcome(call)
      case Sent(k) => Calls(outcome, call + 1, processed + Min(k, count - processed), count)
      case Failed => var (c, dropped) := Calls(outcome, call + 1, processed + 1, count); (c, dropped + {processed})
  }

  function Failures(outcome: nat -> Syscall, lo: nat, hi: nat): nat
    requires lo <= hi
    decreases hi - lo
  {
    if lo == hi then 0 else (if outcome(lo).Failed? then 1 else 0) + Failures(outcome, lo + 1, hi)
  }

  /** A message is dropped for every failed call and for no other; no more calls are made than there are messages. */
  lemma {:induction false} DropsAreFailures(outcome: nat -> Syscall, call: nat, processed: nat, count: nat)
    requires processed <= count
    ensures var (c, dropped) := Calls(outcome, call, processed, count);
            call <= c <= call + (count - processed) && |dropped| == Failures(outcome, call, c)
    decreases count - processed
  {
    hide Calls, Failures;
    CallsStep(outcome, call, processed, count);
    var (c, dropped) := Calls(outcome, call, processed, count);
    FailuresStep(outcome, call, c);
    if processed < count {
      var next := processed + if outcome(call).Sent? then Min(outcome(call).n, count - processed) else 1;
      DropsAreFailures(outcome, call + 1, next, count);
      FailuresStep(outcome, call, Calls(outcome, call + 1, next, count).0);
    }
  }

  /** How many messages are done before call k. */
  function DoneBefore(outcome: nat -> Syscall, call: nat, k: nat, count: nat): (r: nat)
    requires call <= k
    decreases k
  {
    if k == call then 0
    else
      var p := DoneBefore(outcome, call, k - 1, count);
      if outcome(k - 1).Sent? then p + Min(outcome(k - 1).n, Max(count - p, 0)) else p + 1
  }

  /** The same from message `from` on. */
  lemma {:induction false} DoneLater(outcome: nat -> Syscall, call: nat, k: nat, count: nat)
    requires call < k
    ensures var first := if outcome(call).Sent? then Min(outcome(call).n, count) else 1;
            first <= count ==> DoneBefore(outcome, call, k, count) == first + DoneBefore(outcome, call + 1, k, count - first)
    decreases k
  {
    if k > call + 1 {
      DoneLater(outcome, call, k - 1, count);
    }
  }

  /** Exactly the messages that stood first when a call failed are dropped, and the calls end when all messages are done. */
  lemma {:induction false} DroppedExactly(outcome: nat -> Syscall, call: nat, processed: nat, count: nat)
    requires processed <= count
    ensures var (c, dropped) := Calls(outcome, call, processed, count);
            && call <= c && processed + DoneBefore(outcome, call, c, count - processed) == count
            && forall i :: i in dropped <==>
                 exists k :: call <= k < c && outcome(k).Failed? && i == processed + DoneBefore(outcome, call, k, count - processed)
    decreases count - processed
  {
    hide Calls, DoneBefore;
    CallsStep(outcome, call, processed, count);
    DoneNone(outcome, call, count - processed);
    if processed < count {
      var first := if outcome(call).Sent? then Min(outcome(call).n, count - processed) else 1;
      var next := processed + first;
      DroppedExactly(outcome, call + 1, next, count);
      var (c, dropped) := Calls(outcome, call, processed, count);
      var later := Calls(outcome, call + 1, next, count).1;
      assert dropped == if outcome(call).Failed? then later + {processed} else later;
      var left, rest := count - processed, count - next;
      forall k | call < k <= c
        ensures DoneBefore(outcome, call, k, left) == first + DoneBefore(outcome, call + 1, k, rest)
      {
        DoneLater(outcome, call, k, left);
      }
      forall i | i in dropped
        ensures exists k :: call <= k < c && outcome(k).Failed? && i == processed + DoneBefore(outcome, call, k, count - processed)
      {
        if i in later {
          var k :| call + 1 <= k < c && outcome(k).Failed? && i == next + DoneBefore(outcome, call + 1, k, count - next);
          assert i == processed + DoneBefore(outcome, call, k, count - processed);
        } else {
          assert i == processed + DoneBefore(outcome, call, call, count - processed);
        }
      }
    }
  }

  lemma DoneNone(outcome: nat -> Syscall, call: nat, count: nat)
    ensures DoneBefore(outcome, call, call, count) == 0
  {}

  lemma FailuresStep(outcome: nat -> Syscall, lo: nat, hi: nat)
    ensures lo == hi ==> Failures(outcome, lo, hi) == 0
    ensures lo < hi ==> Failures(outcome, lo, hi) == (if outcome(lo).Failed? then 1 else 0) + Failures(outcome, lo + 1, hi)
  {}

  lemma CallsStep(outcome: nat -> Syscall, call: nat, processed: nat, count: nat)
    requires processed <= count
    ensures processed == count ==> Calls(outcome, call, processed, count) == (call, {})
    ensures processed < count ==>
              match outcome(call)
              case Sent(k) => Calls(outcome, call, processed, count) == Calls(outcome, call + 1, processed + Min(k, count - processed), count)
              case Failed =>
                var (c, dropped) := Calls(outcome, call + 1, processed + 1, count);
                Calls(outcome, call, processed, count) == (c, dropped + {processed})
  {}

  method WriteMsgvec<M>(msgvec: array<Option<M>>, count: nat, outcome: nat -> Syscall, call: nat)
    returns (submitted: seq<Option<M>>, dropped: set<nat>, next: nat)
    requires 1 <= count <= msgvec.Length
    ensures submitted == msgvec[..count]
    ensures (next, dropped) == Calls(outcome, call, 0, count)
  {
    hide Calls;
    var processed := 0;
    submitted, dropped, next := [], {}, call;
    ghost var all := Calls(outcome, call, 0, count);
    assert {} + all.1 == all.1;
    while processed < count
      invariant 0 <= processed <= count && submitted == msgvec[..processed]
      invariant var (c, d) := Calls(outcome, next, processed, count); all == (c, dropped + d)
    {
      var n := 1;
      CallsStep(outcome, next, processed, count);
      match outcome(next) {
        case Sent(k) =>
          n := Min(k, count - processed);
        case Failed =>
          ghost var later := Calls(outcome, next + 1, processed + 1, count).1;
          assert dropped + (later + {processed}) == dropped + {processed} + later;
          dropped := dropped + {processed};
      }
      submitted := submitted + msgvec[processed..processed + n];
      assert msgvec[..processed + n] == msgvec[..processed] + msgvec[processed..processed + n];
      processed, next := processed + n, next + 1;
    }
    CallsStep(outcome, next, count, count);
    assert dropped + {} == dropped;
  }

  lemma {:induction false} ValuesOfBatch<M>(ms: seq<Option<M>>, batch: seq<M>)
    requires |ms| == |batch| && forall i :: 0 <= i < |ms| ==> ms[i] == Some(batch[i])
    ensures Values(ms) == batch
  {
    if ms != [] {
      ValuesOfBatch(ms[..|ms| - 1], batch[..|ms| - 1]);
      assert batch == batch[..|ms| - 1] + [batch[|ms| - 1]];
    }
  }

  /** relayServerConnToNatConnSendmmsg: whatever the non-blocking receives and the system calls answer,
      the same PackInPlace calls are made in the same order as by the simple loop, the same messages
      are submitted in the same order, every batch holds between 1 and batchSize messages, and every
      packet is returned to the pool once. */
  method BatchedUplink<S, P, M>(pk: Packer<S, P, M>, s0: S, input: seq<P>, batchSize: nat, ready: nat -> bool,
                                outcome: nat -> Syscall)
    returns (g: Progress<S, M>, batches: seq<seq<M>>, returned: seq<P>, dropped: seq<set<nat>>)
    requires batchSize >= 1
    ensures g == PackAll(pk, Progress(s0, 0, []), input)
    ensures Concat(batches) == g.sent
    ensures forall i :: 0 <= i < |batches| ==> 1 <= |batches[i]| <= batchSize
    ensures multiset(returned) == multiset(input)
    ensures DroppedAs(outcome, 0, batches, dropped)
  {
    hide Gathered, PackAll, Concat, Values, Batched, Calls, DroppedAs, CallAfter;
    var qpvec := new Option<P>[batchSize](_ => None);
    var msgvec := new Option<M>[batchSize](_ => None);
    ghost var start := Progress(s0, 0, []);
    g, batches, returned := Progress(s0, 0, []), [], [];
    dropped := [];
    NothingDropped<M>(outcome, 0);
    var c, call := Channel(input, 0), 0;
    ghost var done: seq<P> := [];
    BatchedNone(pk, start, batchSize);
    while c.rest != []
      invariant done + c.rest == input
      invariant Batched(pk, start, batchSize, done, g, batches, returned)
      invariant DroppedAs(outcome, 0, batches, dropped) && call == CallAfter(outcome, 0, batches)
      decreases |c.rest|
    {
      // Block on first dequeue op.
      var first := c.rest[0];
      ghost var before := c.rest;
      var g', c', count, failed, ok, taken, batch :=
        Gather(pk, g, first, Channel(c.rest[1..], c.attempts), ready, qpvec, msgvec);
      assert [first] + before[1..] == before;
      Assoc(done, taken, c'.rest);
      BatchedRound(pk, start, batchSize, done, g, batches, returned, g', failed, taken, batch, qpvec[..count], msgvec[..count]);
      if count > 0 {
        var submitted, lost, next := WriteMsgvec(msgvec, count, outcome, call);
        DroppedMore(outcome, 0, batches, dropped, Values(submitted), lost);
        batches, dropped, call := batches + [Values(submitted)], dropped + [lost], next;
      }
      returned := returned + failed + Values(qpvec[..count]);
      g, c, done := g', c', done + taken;
      if !ok {
        break;
      }
    }
    assert done == input;
    BatchedResult(pk, start, batchSize, done, g, batches, returned);
  }

  /** The number of the call after these batches; every batch goes on where the one before stopped. */
  function CallAfter<M>(outcome: nat -> Syscall, call: nat, batches: seq<seq<M>>): nat
    decreases |batches|
  {
    if batches == [] then call else CallAfter(outcome, Calls(outcome, call, 0, |batches[0]|).0, batches[1..])
  }

  /** Per batch, what its calls dropped. */
  ghost predicate DroppedAs<M>(outcome: nat -> Syscall, call: nat, batches: seq<seq<M>>, dropped: seq<set<nat>>)
    decreases |batches|
  {
    && |batches| == |dropped|
    && (batches != [] ==>
          && dropped[0] == Calls(outcome, call, 0, |batches[0]|).1
          && DroppedAs(outcome, Calls(outcome, call, 0, |batches[0]|).0, batches[1..], dropped[1..]))
  }

  lemma NothingDropped<M>(outcome: nat -> Syscall, call: nat)
    ensures DroppedAs<M>(outcome, call, [], []) && CallAfter<M>(outcome, call, []) == call
  {}

  lemma {:induction false} DroppedMore<M>(outcome: nat -> Syscall, call: nat, batches: seq<seq<M>>, dropped: seq<set<nat>>,
                                          batch: seq<M>, lost: set<nat>)
    requires DroppedAs(outcome, call, batches, dropped)
    requires lost == Calls(outcome, CallAfter(outcome, call, batches), 0, |batch|).1
    ensures DroppedAs(outcome, call, batches + [batch], dropped + [lost])
    ensures CallAfter(outcome, call, batches + [batch]) == Calls(outcome, CallAfter(outcome, call, batches), 0, |batch|).0
    decreases |batches|
  {
    hide Calls;
    if batches == [] {
      assert (batches + [batch])[1..] == [] && (dropped + [lost])[1..] == [];
    } else {
      DroppedMore(outcome, Calls(outcome, call, 0, |batches[0]|).0, batches[1..], dropped[1..], batch, lost);
      assert (batches + [batch])[1..] == batches[1..] + [batch] && (dropped + [lost])[1..] == dropped[1..] + [lost];
    }
  }

  /** After the packets `done`: same progress as the simple loop, full batches, everything returned. */
  ghost predicate Batched<S, P, M>(pk: Packer<S, P, M>, start: Progress<S, M>, batchSize: nat, done: seq<P>,
                                   g: Progress<S, M>, batches: seq<seq<M>>, returned: seq<P>) {
    && g == PackAll(pk, start, done)
    && g.sent == start.sent + Concat(batches)
    && (forall i :: 0 <= i < |batches| ==> 1 <= |batches[i]| <= batchSize)
    && multiset(returned) == multiset(done)
  }

  lemma BatchedNone<S, P, M>(pk: Packer<S, P, M>, start: Progress<S, M>, batchSize: nat)
    ensures Batched(pk, start, batchSize, [], start, [], [])
  {}

  lemma BatchedResult<S, P, M>(pk: Packer<S, P, M>, start: Progress<S, M>, batchSize: nat, done: seq<P>,
                               g: Progress<S, M>, batches: seq<seq<M>>, returned: seq<P>)
    requires Batched(pk, start, batchSize, done, g, batches, returned) && start.sent == []
    ensures g == PackAll(pk, start, done) && Concat(batches) == g.sent
    ensures forall i :: 0 <= i < |batches| ==> 1 <= |batches[i]| <= batchSize
    ensures multiset(returned) == multiset(done)
  {}

  lemma BatchedRound<S, P, M>(pk: Packer<S, P, M>, start: Progress<S, M>, batchSize: nat, done: seq<P>,
                              g: Progress<S, M>, batches: seq<seq<M>>, returned: seq<P>, g': Progress<S, M>,
                              failed: seq<P>, taken: seq<P>, batch: seq<M>, qs: seq<Option<P>>, ms: seq<Option<M>>)
    requires Batched(pk, start, batchSize, done, g, batches, returned)
    requires Gathered(pk, g, g', failed, taken, batch, qs, ms) && |ms| <= batchSize
    ensures Batched(pk, start, batchSize, done + taken, g', if ms == [] then batches else batches + [Values(ms)],
                    returned + failed + Values(qs))
    ensures |Values(ms)| == |ms|
  {
    hide Gathered, PackAll, Concat, Values;
    RoundResult(pk, start, done, g, g', failed, taken, batch, qs, ms);
    ConcatSnoc(batches, Values(ms));
    Assoc(start.sent, Concat(batches), Values(ms));
    Assoc(returned, failed, Values(qs));
    assert multiset(returned + (failed + Values(qs))) == multiset(returned) + multiset(failed + Values(qs));
    assert multiset(done + taken) == multiset(done) + multiset(taken);
  }

  lemma PackAllNone<S, P, M>(pk: Packer<S, P, M>, g: Progress<S, M>)
    ensures PackAll(pk, g, []) == g
  {}

  lemma PackAllHead<S, P, M>(pk: Packer<S, P, M>, g: Progress<S, M>, input: seq<P>)
    requires input != []
    ensures PackAll(pk, g, input) == PackAll(pk, PackOne(pk, g, input[0]), input[1..])
  {}

  lemma RoundResult<S, P, M>(pk: Packer<S, P, M>, start: Progress<S, M>, done: seq<P>, g: Progress<S, M>, g': Progress<S, M>,
                             failed: seq<P>, taken: seq<P>, batch: seq<M>, qs: seq<Option<P>>, ms: seq<Option<M>>)
    requires g == PackAll(pk, start, done) && Gathered(pk, g, g', failed, taken, batch, qs, ms)
    ensures g' == PackAll(pk, start, done + taken) && g'.sent == g.sent + Values(ms) && |Values(ms)| == |ms|
    ensures ms == [] ==> g'.sent == g.sent
    ensures multiset(failed + Values(qs)) == multiset(taken)
  {
    PackAllAppend(pk, start, done, taken);
    ValuesOfBatch(ms, batch);
  }

  lemma {:induction false} PackAllAppend<S, P, M>(pk: Packer<S, P, M>, g: Progress<S, M>, xs: seq<P>, ys: seq<P>)
    ensures PackAll(pk, g, xs + ys) == PackAll(pk, PackAll(pk, g, xs), ys)
    decreases |xs|
  {
    if xs == [] {
      assert xs + ys == ys;
    } else {
      PackAllAppend(pk, PackOne(pk, g, xs[0]), xs[1..], ys);
      assert (xs + ys)[1..] == xs[1..] + ys;
    }
  }

  /** The packets held in the slots of a vector. */
  function Values<P>(v: seq<Option<P>>): seq<P> {
    if v == [] then [] else Values(v[..|v| - 1]) + (if v[|v| - 1].Some? then [v[|v| - 1].value] else [])
  }

  lemma ValuesSnoc<P>(v: seq<Option<P>>, p: P)
    ensures Values(v + [Some(p)]) == Values(v) + [p]
  {
    assert (v + [Some(p)])[..|v|] == v;
  }

  lemma {:induction false} PackAllSnoc<S, P, M>(pk: Packer<S, P, M>, g: Progress<S, M>, input: seq<P>, p: P)
    ensures PackAll(pk, g, input + [p]) == PackOne(pk, PackAll(pk, g, input), p)
    decreases |input|
  {
    if input == [] {
      assert input + [p] == [p];
    } else {
      PackAllSnoc(pk, PackOne(pk, g, input[0]), input[1..], p);
      assert (input + [p])[1..] == input[1..] + [p];
    }
  }
}
