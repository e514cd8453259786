/** The anti-replay filter of Shadowsocks 2022 packets: a ring of 128 words of 64 bits.

    `Window` is the plain specification (highest counter and the set of counters seen since the
    last reset); `Filter` is the ring, and every method is proved against `Window`. */
module SlidingWindow {
  import opened Words

  const BlockBits := 64
  const RingBlocks := 128
  const Size := (RingBlocks - 1) * BlockBits


  datatype Window = Window(last: U64, seen: set<U64>) {
    predicate Accepts(c: U64) {
      c > last || (last - c <= Size && c !in seen)
    }

    function Insert(c: U64): Window {
      Window(if c > last then c else last, seen + {c})
    }
  }

  const EmptyWindow := Window(0, {})

  lemma EmptyAccepts(c: U64)
    ensures EmptyWindow.Accepts(c)
  {}

  /** What the caller of the filter observes over a run: the answers to `Add`, in order. */
  function Answers(w: Window, cs: seq<U64>): (r: seq<bool>)
    ensures |r| == |cs|
    decreases |cs|
  {
    if cs == [] then [] else
    [w.Accepts(cs[0])] + Answers(if w.Accepts(cs[0]) then w.Insert(cs[0]) else w, cs[1..])
  }


  /** For a whole run since construction or reset, the answer to the k-th `Add` is decided by the
      earlier counters alone: fresh, and at most 8128 behind each of them that was accepted. */
  lemma {:induction false} AnswerCharacterised(w: Window, cs: seq<U64>, k: nat)
    requires k < |cs|
    requires forall c :: c in w.seen ==> c <= w.last
    ensures Answers(w, cs)[k] <==>
            && cs[k] !in w.seen && w.last - cs[k] <= 8128
            && (forall i :: 0 <= i < k && Answers(w, cs)[i] ==> cs[i] != cs[k] && cs[i] as int - cs[k] <= 8128)
    decreases |cs|
  {
    var w' := if w.Accepts(cs[0]) then w.Insert(cs[0]) else w;
    var rest := Answers(w', cs[1..]);
    assert Answers(w, cs) == [w.Accepts(cs[0])] + rest;
    if k > 0 {
      AnswerCharacterised(w', cs[1..], k - 1);
      assert forall i :: 0 < i < k ==> cs[1..][i - 1] == cs[i] && Answers(w, cs)[i] == rest[i - 1];
      if forall i :: 0 <= i < k && Answers(w, cs)[i] ==> cs[i] != cs[k] && cs[i] - cs[k] <= Size {
        assert Answers(w, cs)[0] ==> cs[0] != cs[k] && cs[0] - cs[k] <= Size;
        assert forall i :: 0 <= i < k - 1 && rest[i] ==>
                             Answers(w, cs)[i + 1] && cs[1..][i] == cs[i + 1];
      }
    }
  }

  // ----- counters among other things -----

  /** The answers to a run in which some elements carry no counter. */
  function Gate(w: Window, ks: seq<Option<U64>>): (r: seq<bool>)
    ensures |r| == |ks|
    decreases |ks|
  {
    if ks == [] then []
    else
      var ok := ks[0].Some? && w.Accepts(ks[0].value);
      [ok] + Gate(if ok then w.Insert(ks[0].value) else w, ks[1..])
  }

  lemma GateStep(w: Window, ks: seq<Option<U64>>)
    requires ks != []
    ensures var ok := ks[0].Some? && w.Accepts(ks[0].value);
            Gate(w, ks) == [ok] + Gate(if ok then w.Insert(ks[0].value) else w, ks[1..])
  {}

  lemma {:induction false} GateCharacterised(w: Window, ks: seq<Option<U64>>, i: nat)
    requires i < |ks| && ks[i].Some?
    requires forall c :: c in w.seen ==> c <= w.last
    ensures Gate(w, ks)[i] <==>
            && ks[i].value !in w.seen && w.last - ks[i].value <= Size
            && forall j :: 0 <= j < i && Gate(w, ks)[j] ==>
                 ks[j].Some? && ks[j].value != ks[i].value && ks[j].value - ks[i].value <= Size
    decreases |ks|
  {
    var ok := ks[0].Some? && w.Accepts(ks[0].value);
    var w' := if ok then w.Insert(ks[0].value) else w;
    var rest := Gate(w', ks[1..]);
    assert Gate(w, ks) == [ok] + rest;
    if i > 0 {
      GateCharacterised(w', ks[1..], i - 1);
      assert forall j :: 0 < j < i ==> ks[1..][j - 1] == ks[j] && Gate(w, ks)[j] == rest[j - 1];
      assert forall j :: 0 <= j < i - 1 ==> ks[1..][j] == ks[j + 1] && rest[j] == Gate(w, ks)[j + 1];
      assert ok ==> Gate(w, ks)[0];
    }
  }

  predicate FirstOf(ks: seq<Option<U64>>, i: nat)
    requires i < |ks|
  {
    forall j :: 0 <= j < i ==> ks[j] != ks[i]
  }

  /** When every counter first comes at most 8128 behind those before it, exactly the first of each is accepted. */
  lemma GateIsFirst(ks: seq<Option<U64>>, i: nat)
    requires i < |ks| && ks[i].Some?
    requires FirstOf(ks, i) ==> forall j :: 0 <= j < i && ks[j].Some? ==> ks[j].value as int - ks[i].value <= 8128
    ensures Gate(EmptyWindow, ks)[i] <==> FirstOf(ks, i)
  {
    GateCharacterised(EmptyWindow, ks, i);
    if FirstOf(ks, i) {
      GateNeedsCounter(EmptyWindow, ks);
    } else {
      var j :| 0 <= j < i && ks[j] == ks[i];
      GateCharacterised(EmptyWindow, ks, j);
    }
  }

  lemma {:induction false} GateNeedsCounter(w: Window, ks: seq<Option<U64>>)
    ensures forall j :: 0 <= j < |ks| && Gate(w, ks)[j] ==> ks[j].Some?
    decreases |ks|
  {
    if ks != [] {
      var ok := ks[0].Some? && w.Accepts(ks[0].value);
      var w' := if ok then w.Insert(ks[0].value) else w;
      GateNeedsCounter(w', ks[1..]);
      assert forall j :: 0 < j < |ks| ==> ks[1..][j - 1] == ks[j] && Gate(w, ks)[j] == Gate(w', ks[1..])[j - 1];
    }
  }

  // ----- the ring -----

  predicate Bit(w: bv64, i: nat)
    requires i < BlockBits
  {
    (w >> (i as bv6)) & 1 == 1
  }

  lemma ZeroOrOne(w: bv64, i: bv6)
    ensures (w >> i) & 1 == 0 || (w >> i) & 1 == 1
  {}

  lemma IndexRoundTrip(i: nat)
    requires i < BlockBits
    ensures (i as bv6) as nat == i
  {}

  lemma SetBitVector(w: bv64, i: bv6, j: bv6)
    ensures ((w | (1 << i)) >> j) & 1 == if i == j then 1 else (w >> j) & 1
  {}

  lemma SetBit(w: bv64, i: nat, j: nat)
    requires i < BlockBits && j < BlockBits
    ensures Bit(w | (1 << (i as bv6)), j) <==> i == j || Bit(w, j)
  {
    SetBitVector(w, i as bv6, j as bv6);
    if i as bv6 == j as bv6 {
      IndexRoundTrip(i);
      IndexRoundTrip(j);
    }
  }

  function Slot(b: nat): (r: nat)
    ensures r < RingBlocks
  {
    b % RingBlocks
  }

  lemma SlotsDistinct(a: nat, b: nat)
    requires a < b < a + RingBlocks
    ensures Slot(a) != Slot(b)
  {}

  lemma SlotNext(a: nat, b: nat)
    requires Slot(a) == Slot(b)
    ensures Slot(a + 1) == Slot(b + 1)
  {}

  lemma SlotOfSlot(a: nat)
    ensures Slot(Slot(a)) == Slot(a)
  {}

  lemma SlotWraps(start: nat, b: nat) returns (k: nat)
    requires start < b
    ensures start < k <= start + RingBlocks && k <= b && Slot(k) == Slot(b)
  {
    k := start + 1 + (b - start - 1) % RingBlocks;
  }

  ghost function Offsets(word: bv64): set<nat> {
    set o: nat | o < BlockBits && Bit(word, o)
  }

  function WithBit(word: bv64, i: nat): bv64
    requires i < BlockBits
  {
    word | (1 << (i as bv6))
  }

  lemma WithBitOffsets(word: bv64, i: nat)
    requires i < BlockBits
    ensures Offsets(WithBit(word, i)) == Offsets(word) + {i}
  {
    forall o: nat | o < BlockBits
      ensures Bit(WithBit(word, i), o) <==> i == o || Bit(word, o)
    {
      SetBit(word, i, o);
    }
  }

  lemma ZeroOffsets()
    ensures Offsets(0) == {}
  {}

  /** The offsets are exactly those of the seen counters of block `b`. */
  ghost predicate OffsetsHold(os: set<nat>, b: nat, seen: set<U64>) {
    forall o: nat :: o < BlockBits ==> (o in os <==> BlockBits * b + o in seen)
  }

  ghost predicate Holds(word: bv64, b: nat, seen: set<U64>) {
    OffsetsHold(Offsets(word), b, seen)
  }

  lemma ClearedBlockHolds(b: nat, seen: set<U64>, last: U64)
    requires b > last / BlockBits && forall c :: c in seen ==> c <= last
    ensures Holds(0, b, seen)
  {
    ZeroOffsets();
  }

  lemma MarkedOffsetsHold(os: set<nat>, b: nat, seen: set<U64>, counter: U64)
    requires OffsetsHold(os, b, seen)
    ensures b == counter / BlockBits ==> OffsetsHold(os + {counter % BlockBits}, b, seen + {counter})
    ensures b != counter / BlockBits ==> OffsetsHold(os, b, seen + {counter})
  {
    assert counter == BlockBits * (counter / BlockBits) + counter % BlockBits;
  }

  /** The words stand for the block of `last` and the 127 blocks before it. */
  ghost predicate Represents(words: seq<bv64>, last: U64, seen: set<U64>) {
    && |words| == RingBlocks
    && (forall c :: c in seen ==> c <= last)
    && (forall b: nat :: last / BlockBits - RingBlocks < b <= last / BlockBits ==>
          Holds(words[Slot(b)], b, seen))
  }

  /** `after` is `before` with the `n` words following the block of `last` cleared. */
  ghost predicate Cleared(before: seq<bv64>, after: seq<bv64>, start: nat, n: nat) {
    && |before| == |after| == RingBlocks
    && (forall b: nat :: start < b <= start + n ==> after[Slot(b)] == 0)
    && (forall b: nat :: start + n < b <= start + RingBlocks ==> after[Slot(b)] == before[Slot(b)])
  }

  lemma ClearNone(words: seq<bv64>, start: nat)
    requires |words| == RingBlocks
    ensures Cleared(words, words, start, 0)
  {}

  lemma ClearNext(before: seq<bv64>, after: seq<bv64>, start: nat, n: nat)
    requires Cleared(before, after, start, n) && n < RingBlocks
    ensures Cleared(before, after[Slot(start + n + 1) := 0], start, n + 1)
  {
    forall b: nat | start < b <= start + RingBlocks && b != start + n + 1
      ensures Slot(b) != Slot(start + n + 1)
    {
      if b < start + n + 1 {
        SlotsDistinct(b, start + n + 1);
      } else {
        SlotsDistinct(start + n + 1, b);
      }
    }
  }

  lemma AdvanceRepresents(before: seq<bv64>, after: seq<bv64>, last: U64, counter: U64, seen: set<U64>, n: nat)
    requires Represents(before, last, seen) && counter > last
    requires n == if counter / BlockBits - last / BlockBits > RingBlocks then RingBlocks
                  else counter / BlockBits - last / BlockBits
    requires Cleared(before, after, last / BlockBits, n)
    ensures Represents(after, counter, seen)
  {
    var start := last / BlockBits;
    forall b: nat | counter / BlockBits - RingBlocks < b <= counter / BlockBits
      ensures Holds(after[Slot(b)], b, seen)
    {
      if b <= start {
        assert Slot(b + RingBlocks) == Slot(b);
        assert after[Slot(b + RingBlocks)] == before[Slot(b)];
      } else {
        var k := SlotWraps(start, b);
        assert after[Slot(k)] == 0;
        ClearedBlockHolds(b, seen, last);
      }
    }
  }

  lemma MarkRepresents(words: seq<bv64>, last: U64, seen: set<U64>, counter: U64)
    requires Represents(words, last, seen) && counter <= last && last - counter <= Size
    ensures var i := Slot(counter / BlockBits);
            Represents(words[i := WithBit(words[i], counter % BlockBits)], last, seen + {counter})
  {
    forall b: nat | last / BlockBits - RingBlocks < b <= last / BlockBits
      ensures b != counter / BlockBits ==> Slot(b) != Slot(counter / BlockBits)
      ensures Holds(words[Slot(b)], b, seen)
    {
      if b < counter / BlockBits {
        SlotsDistinct(b, counter / BlockBits);
      } else if b > counter / BlockBits {
        SlotsDistinct(counter / BlockBits, b);
      }
    }
    WithBitOffsets(words[Slot(counter / BlockBits)], counter % BlockBits);
    forall b: nat | last / BlockBits - RingBlocks < b <= last / BlockBits {
      MarkedOffsetsHold(Offsets(words[Slot(b)]), b, seen, counter);
    }
  }

  class Filter {
    var last: U64
    const ring: array<bv64>
    ghost var seen: set<U64>

    ghost function Spec(): Window
      reads this
    {
      Window(last, seen)
    }

    /** Words of blocks outside the window hold stale data, which is why `Reset` may leave 127
        words untouched. */
    ghost predicate Valid()
      reads this, ring
    {
      Represents(ring[..], last, seen)
    }

    constructor ()
      ensures Valid() && Spec() == EmptyWindow && fresh(ring)
    {
      last, seen := 0, {};
      ring := new bv64[RingBlocks](i => 0);
    }

    method Reset()
      requires Valid()
      modifies this, ring
      ensures Valid() && Spec() == EmptyWindow
    {
      last := 0;
      ring[0] := 0;
      seen := {};
    }

    method IsOk(counter: U64) returns (ok: bool)
      requires Valid()
      ensures ok == Spec().Accepts(counter)
    {
      if counter > last {
        return true;
      } else if last - counter > Size {
        return false;
      }
      var blockIndex := Slot(counter / BlockBits);
      var bitIndex := counter % BlockBits;
      ok := (ring[blockIndex] >> (bitIndex as bv6)) & 1 == 0;
      ZeroOrOne(ring[blockIndex], bitIndex as bv6);
      assert Holds(ring[blockIndex], counter / BlockBits, seen);
      assert bitIndex in Offsets(ring[blockIndex]) <==> BlockBits * (counter / BlockBits) + bitIndex in seen;
    }

    /** Clears the `n` words after the block `start`. */
    method ClearBlocks(start: nat, n: nat)
      requires ring.Length == RingBlocks && n <= RingBlocks
      modifies ring
      ensures Cleared(old(ring[..]), ring[..], start, n)
    {
      hide Cleared, Slot;
      ClearNone(ring[..], start);
      var lastBlockIndex := start;
      for i := 0 to n
        invariant 0 <= lastBlockIndex && Slot(lastBlockIndex) == Slot(start + i)
        invariant Cleared(old(ring[..]), ring[..], start, i)
      {
        ClearNext(old(ring[..]), ring[..], start, i);
        SlotNext(lastBlockIndex, start + i);
        SlotOfSlot(lastBlockIndex + 1);
        ghost var now := ring[..];
        lastBlockIndex := Slot(lastBlockIndex + 1);
        ring[lastBlockIndex] := 0;
        assert ring[..] == now[Slot(start + i + 1) := 0];
      }
    }

    /** Moves `last` up to `counter`, clearing the blocks entered, at most once around. */
    method Advance(counter: U64)
      requires Valid() && counter > last
      modifies this, ring
      ensures Valid() && last == counter && seen == old(seen)
    {
      var diff := counter / BlockBits - last / BlockBits;
      if diff > RingBlocks {
        diff := RingBlocks;
      }
      ClearBlocks(last / BlockBits, diff);
      AdvanceRepresents(old(ring[..]), ring[..], last, counter, seen, diff);
      last := counter;
    }

    /** The bit write shared by `MustAdd` and `Add`. */
    method Mark(counter: U64)
      requires Valid() && counter <= last && last - counter <= Size
      modifies this, ring
      ensures Valid() && last == old(last) && seen == old(seen) + {counter}
    {
      MarkRepresents(ring[..], last, seen, counter);
      var blockIndex := Slot(counter / BlockBits);
      var bitIndex := counter % BlockBits;
      ring[blockIndex] := WithBit(ring[blockIndex], bitIndex);
      seen := seen + {counter};
    }

    method MustAdd(counter: U64)
      requires Valid() && Spec().Accepts(counter)
      modifies this, ring
      ensures Valid() && Spec() == old(Spec()).Insert(counter)
    {
      if counter > last {
        Advance(counter);
      }
      Mark(counter);
    }

    method Add(counter: U64) returns (ok: bool)
      requires Valid()
      modifies this, ring
      ensures Valid() && ok == old(Spec()).Accepts(counter)
      ensures Spec() == if ok then old(Spec()).Insert(counter) else old(Spec())
    {
      ghost var before := Spec();
      if counter > last {
        Advance(counter);
      } else {
        var fresh' := IsOk(counter);
        if !fresh' {
          return false;
        }
      }
      Mark(counter);
      ok := true;
    }
  }
}
