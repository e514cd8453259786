/** The zero-copy stream relay: any reader to any writer through shared buffers, and the plain Read and Write
    made from them. Readers and writers are known only by their contracts. */
module StreamRelay {
  import opened Words

  const DefaultBufferSize := 32768

  datatype Error = EOF | Failed

  // ----- what the relay knows of its two ends -----

  /** How much of what is left one read into `len` bytes yields: something, unless nothing is left. */
  function Portion(left: Bytes, portion: Bytes -> nat, len: nat): (n: nat)
    ensures n <= len && n <= |left| && (n == 0 <==> left == [] || len == 0)
  {
    Min(Min(len, |left|), 1 + portion(left))
  }

  /** A stream that yields its bytes in portions of its own choice and ends with an empty read. */
  class Reader {
    const front: nat
    const rear: nat
    const minPayload: nat
    const portion: Bytes -> nat
    const final: Error
    var left: Bytes

    constructor (front: nat, rear: nat, minPayload: nat, portion: Bytes -> nat, final: Error, data: Bytes)
      ensures left == data && this.final == final && this.portion == portion
      ensures this.front == front && this.rear == rear && this.minPayload == minPayload
    {
      this.front, this.rear, this.minPayload, this.portion, this.final := front, rear, minPayload, portion, final;
      left := data;
    }

    /** The payload is the next part of the stream; the rest of the buffer may change. */
    method ReadZeroCopy(b: array<Byte>, start: nat, len: nat) returns (n: nat, err: Option<Error>)
      requires front <= start && start + len + rear <= b.Length && minPayload <= len && len > 0
      modifies this, b
      ensures n == Portion(old(left), portion, len)
      ensures left == old(left)[n..] && b[start..start + n] == old(left)[..n]
      ensures err == if n == 0 then Some(final) else None
    {
      n := Portion(left, portion, len);
      Put(b, start, left[..n]);
      left := left[n..];
      err := if n == 0 then Some(final) else None;
    }
  }

  /** What each write call does, by its number: None when it takes everything, otherwise how many bytes it takes
      and the error it answers. */
  type Plan = nat -> Option<(nat, Error)>

  /** Takes at most `max` bytes per write (any number if 0). A write may use all of the buffer, and may fail
      after part of its payload. */
  class Writer {
    const front: nat
    const rear: nat
    const max: nat
    const plan: Plan
    var calls: nat
    var written: Bytes

    constructor (front: nat, rear: nat, max: nat, plan: Plan)
      ensures written == [] && calls == 0
      ensures this.front == front && this.rear == rear && this.max == max && this.plan == plan
    {
      this.front, this.rear, this.max, this.plan := front, rear, max, plan;
      calls, written := 0, [];
    }

    method WriteZeroCopy(b: array<Byte>, start: nat, len: nat) returns (n: nat, err: Option<Error>)
      requires front <= start && start + len + rear <= b.Length && (max > 0 ==> len <= max)
      modifies this, b
      ensures n <= len && written == old(written) + old(b[start..start + len])[..n]
      ensures calls == old(calls) + 1
      ensures match plan(old(calls))
              case None => n == len && err.None?
              case Some((k, e)) => n == Min(len, k) && err == Some(e)
    {
      var fate := plan(calls);
      calls := calls + 1;
      n := if fate.Some? then Min(len, fate.value.0) else len;
      written := written + b[start..start + len][..n];
      err := if fate.Some? then Some(fate.value.1) else None;
    }
  }

  /** The calls from `lo` up to `hi` all took everything. */
  /** A reader may come with any portion that fits. */
  lemma AnyPortion(left: Bytes, len: nat, n: nat)
    ensures (exists portion: Bytes -> nat :: Portion(left, portion, len) == n) <==>
            n <= len && n <= |left| && (n == 0 <==> left == [] || len == 0)
  {
    if 1 <= n <= len && n <= |left| {
      var portion: Bytes -> nat := _ => n - 1;
      assert Portion(left, portion, len) == n;
    } else if n == 0 && (left == [] || len == 0) {
      var portion: Bytes -> nat := _ => 0;
      assert Portion(left, portion, len) == 0;
    }
  }

  ghost predicate AllWell(plan: Plan, lo: nat, hi: nat) {
    forall k :: lo <= k < hi ==> plan(k).None?
  }

  /** Only the last of the calls from `lo` up to `hi` failed. */
  ghost predicate LastFails(plan: Plan, lo: nat, hi: nat) {
    lo < hi && AllWell(plan, lo, hi - 1) && plan(hi - 1).Some?
  }

  // ----- relaying -----

  /** What has been moved so far: the writer has the first n bytes of the reader's stream. */
  twostate predicate Moved(r: Reader, w: Writer, n: nat)
    reads r, w
  {
    && n <= |old(r.left)|
    && w.written == old(w.written) + old(r.left)[..n]
  }

  /** A portion of m bytes was read behind the first n, and k of it written. */
  lemma MoveMore(was: Bytes, data: Bytes, n: nat, m: nat, k: nat)
    requires n + m <= |data| && k <= m
    ensures was + data[..n] + data[n..][..m][..k] == was + data[..n + k]
    ensures data[n..][m..] == data[n + m..]
  {
    assert data[n..][..m][..k] == data[n..n + k];
    assert data[..n] + data[n..n + k] == data[..n + k];
    assert was + data[..n] + data[n..n + k] == was + (data[..n] + data[n..n + k]);
  }

  // ----- what a relay does, as a function of its two ends -----

  function Cleared(e: Error): Option<Error> {
    if e.EOF? then None else Some(e)
  }

  /** Writing `len` bytes in pieces of at most `size`, from call number `calls` on: the bytes taken, the next call
      number and the error. With len <= size that is one write. */
  function Pieces(plan: Plan, calls: nat, len: nat, size: nat): (r: (nat, nat, Option<Error>))
    requires size > 0
    decreases len
  {
    if len == 0 then (0, calls, None)
    else
      var j := Min(size, len);
      match plan(calls)
      case None => var (n, c, e) := Pieces(plan, calls + 1, len - j, size); (j + n, c, e)
      case Some((k, e)) => (Min(j, k), calls + 1, Some(e))
  }

  /** A reader, a writer and the sizes of one relay. `pieces` says that it copies portions out in pieces. */
  datatype Ends = Ends(portion: Bytes -> nat, final: Error, plan: Plan, readLen: nat, size: nat, pieces: bool) {
    predicate Ok() {
      readLen > 0 && size > 0
    }

    /** An end-of-file that a write of this portion answers is returned, not cleared. */
    predicate Keeps(len: nat) {
      pieces && len <= size
    }
  }

  /** Bytes taken, calls made, what is reported; and if a write failed, where its portion starts in the stream and how
      long it is. */
  datatype Outcome = Outcome(n: nat, calls: nat, err: Option<Error>, at: nat, failed: Option<nat>) {
    function After(m: nat): Outcome {
      this.(n := m + n, at := m + at)
    }
  }

  function Relayed(x: Ends, data: Bytes, calls: nat): Outcome
    requires x.Ok()
    decreases |data|
  {
    if data == [] then Outcome(0, calls, Cleared(x.final), 0, None)
    else
      var m := Portion(data, x.portion, x.readLen);
      var (k, c, e) := Pieces(x.plan, calls, m, x.size);
      if e.None? then Relayed(x, data[m..], c).After(m)
      else Outcome(k, c, if x.Keeps(m) then e else Cleared(e.value), 0, Some(m))
  }

  // ----- how it ends -----

  lemma {:induction false} PiecesCalls(plan: Plan, calls: nat, len: nat, size: nat)
    requires size > 0
    ensures var (n, c, e) := Pieces(plan, calls, len, size);
            && n <= len && calls <= c && (len > 0 ==> calls < c)
            && (e.None? ==> n == len && AllWell(plan, calls, c))
            && (e.Some? ==> LastFails(plan, calls, c) && e == Some(plan(c - 1).value.1))
    decreases len
  {
    if len > 0 && plan(calls).None? {
      PiecesCalls(plan, calls + 1, len - Min(size, len), size);
    }
  }

  /** The portion that fails is the one read where `at` says, which portions lead to; the bytes taken end in it, and the
      failing call is one of its calls. */
  ghost predicate FailsIn(x: Ends, data: Bytes, calls: nat, out: Outcome)
    requires x.Ok()
    decreases |data|
  {
    && data != []
    && var m := Portion(data, x.portion, x.readLen);
       var (k, c, e) := Pieces(x.plan, calls, m, x.size);
       if e.Some? then out.at == 0 && out.failed == Some(m) && out.n == k <= m && out.calls == c
       else
         && out.at >= m && out.n >= m
         && FailsIn(x, data[m..], c, out.(n := out.n - m, at := out.at - m))
  }

  /** Either no write failed: then the whole stream went through and its end is reported. Or the last one did: then its
      error is reported, an end-of-file among them only if it is kept for a portion of that length. */
  ghost predicate EndsWith(x: Ends, data: Bytes, calls: nat, out: Outcome)
    requires x.Ok()
  {
    && out.n <= |data| && calls <= out.calls && (data != [] ==> calls < out.calls)
    && if out.failed.None? then
         AllWell(x.plan, calls, out.calls) && out.n == |data| && out.err == Cleared(x.final)
       else
         && LastFails(x.plan, calls, out.calls) && FailsIn(x, data, calls, out)
         && out.at <= out.n <= out.at + out.failed.value <= |data|
         && var e := x.plan(out.calls - 1).value.1;
            out.err == if x.Keeps(out.failed.value) then Some(e) else Cleared(e)
  }

  /** How every relay ends. */
  lemma {:induction false} RelayedEnds(x: Ends, data: Bytes, calls: nat)
    requires x.Ok()
    ensures EndsWith(x, data, calls, Relayed(x, data, calls))
    decreases |data|
  {
    hide Relayed, Pieces, EndsWith;
    RelayedStep(x, data, calls);
    var m := Portion(data, x.portion, x.readLen);
    var (k, c, e) := Pieces(x.plan, calls, m, x.size);
    if data == [] {
      NothingEnds(x, calls);
    } else if e.None? {
      RelayedEnds(x, data[m..], c);
      LaterEnds(x, data, calls, Relayed(x, data[m..], c));
    } else {
      FailureEnds(x, data, calls);
    }
  }

  lemma NothingEnds(x: Ends, calls: nat)
    requires x.Ok()
    ensures EndsWith(x, [], calls, Outcome(0, calls, Cleared(x.final), 0, None))
  {}

  lemma FailureEnds(x: Ends, data: Bytes, calls: nat)
    requires x.Ok() && data != []
    ensures var m := Portion(data, x.portion, x.readLen);
            var (k, c, e) := Pieces(x.plan, calls, m, x.size);
            e.Some? ==> EndsWith(x, data, calls, Outcome(k, c, if x.Keeps(m) then e else Cleared(e.value), 0, Some(m)))
  {
    hide Pieces, AllWell;
    var m := Portion(data, x.portion, x.readLen);
    var (k, c, e) := Pieces(x.plan, calls, m, x.size);
    PiecesCalls(x.plan, calls, m, x.size);
    if e.Some? {
      var out := Outcome(k, c, if x.Keeps(m) then e else Cleared(e.value), 0, Some(m));
      assert m > 0 && LastFails(x.plan, calls, out.calls);
      assert FailsIn(x, data, calls, out);
      assert out.failed.value == m;
    }
  }

  lemma LaterEnds(x: Ends, data: Bytes, calls: nat, rest: Outcome)
    requires x.Ok() && data != []
    requires var m := Portion(data, x.portion, x.readLen);
             var (k, c, e) := Pieces(x.plan, calls, m, x.size);
             e.None? && EndsWith(x, data[m..], c, rest)
    ensures EndsWith(x, data, calls, rest.After(Portion(data, x.portion, x.readLen)))
  {
    hide Pieces, AllWell, LastFails;
    var m := Portion(data, x.portion, x.readLen);
    var c := Pieces(x.plan, calls, m, x.size).1;
    PiecesCalls(x.plan, calls, m, x.size);
    WellJoined(x.plan, calls, c, rest.calls);
    assert rest.After(m).(n := rest.After(m).n - m, at := rest.After(m).at - m) == rest;
  }

  lemma WellJoined(plan: Plan, lo: nat, mid: nat, hi: nat)
    requires lo <= mid <= hi && AllWell(plan, lo, mid)
    ensures AllWell(plan, mid, hi) ==> AllWell(plan, lo, hi)
    ensures LastFails(plan, mid, hi) ==> LastFails(plan, lo, hi)
  {}

  /** Success, exactly: the stream ended cleanly and no write failed, or the write that failed answered end-of-file and
      the portion it belonged to was not written in one go by a relay that copies in pieces. */
  lemma SuccessExactly(x: Ends, data: Bytes, calls: nat)
    requires x.Ok()
    ensures var out := Relayed(x, data, calls);
            && (out.failed.None? <==> AllWell(x.plan, calls, out.calls))
            && (out.failed.Some? ==> LastFails(x.plan, calls, out.calls) && FailsIn(x, data, calls, out))
            && (out.err.None? <==>
                  if out.failed.None? then x.final.EOF?
                  else x.plan(out.calls - 1).value.1.EOF? && !(x.pieces && out.failed.value <= x.size))
  {
    RelayedEnds(x, data, calls);
  }

  ghost predicate NeverEOF(plan: Plan) {
    forall k :: plan(k).Some? ==> !plan(k).value.1.EOF?
  }

  /** With a writer that never answers end-of-file, success means that everything was written and the stream ended cleanly. */
  lemma SuccessIsComplete(x: Ends, data: Bytes, calls: nat)
    requires x.Ok() && NeverEOF(x.plan)
    ensures var out := Relayed(x, data, calls);
            && (out.err.None? <==> x.final.EOF? && AllWell(x.plan, calls, out.calls))
            && (out.err.None? ==> out.n == |data|)
  {
    RelayedEnds(x, data, calls);
  }

  // ----- the relay -----

  /** The write limit of the relay's buffer. */
  function WriteSize(w: Writer, r: Reader): nat {
    if w.max > 0 then w.max else if r.minPayload > 0 then r.minPayload else DefaultBufferSize
  }

  /** The relay of this reader to this writer. It copies in pieces when one read can be larger than one write. */
  function EndsOf(w: Writer, r: Reader): (x: Ends)
    ensures x.Ok()
  {
    var size := WriteSize(w, r);
    Ends(r.portion, r.final, w.plan, if r.minPayload > size then r.minPayload else size, size, r.minPayload > size)
  }

  /** Which sizes a relay works with: a write takes what the writer does, or else what the reader comes with, or else the
      default; a read takes as much, or more if the reader needs more, and then what was read is copied out in pieces. */
  lemma RelaySizes(w: Writer, r: Reader)
    ensures var x := EndsOf(w, r);
            && (w.max > 0 ==> x.size == w.max)
            && (w.max == 0 && r.minPayload > 0 ==> x.size == r.minPayload)
            && (w.max == 0 && r.minPayload == 0 ==> x.size == 32768)
            && x.readLen == Max(x.size, r.minPayload) && (x.pieces <==> r.minPayload > w.max > 0)
            && x.plan == w.plan && x.portion == r.portion && x.final == r.final
  {}

  /** Relay: the writer gets the stream's start of the returned length, in order, no write over the limit; count, error
      and calls are those of `Relayed`. */
  method Relay(w: Writer, r: Reader) returns (n: nat, err: Option<Error>)
    modifies r, w
    ensures Moved(r, w, n)
    ensures var out := Relayed(EndsOf(w, r), old(r.left), old(w.calls));
            n == out.n && err == out.err && w.calls == out.calls
  {
    hide Relayed, Pieces, Portion;
    var front, rear := Max(r.front, w.front), Max(r.rear, w.rear);
    var readMax, writeMax := r.minPayload, w.max;
    if writeMax == 0 {
      writeMax := readMax;
      if writeMax == 0 {
        writeMax := DefaultBufferSize;
      }
    }
    ghost var x := EndsOf(w, r);
    if readMax > writeMax {
      n, err := RelayFallback(w, r, front, rear, readMax, writeMax);
      return;
    }
    assert x == Ends(r.portion, r.final, w.plan, writeMax, writeMax, false);
    hide EndsOf, WriteSize, Min, Max;
    var b := new Byte[front + writeMax + rear];
    n := 0;
    ghost var all := Relayed(x, r.left, w.calls);
    while true
      invariant fresh(b) && Moved(r, w, n) && r.left == old(r.left)[n..]
      invariant all == Relayed(x, r.left, w.calls).After(n)
      decreases |r.left|
    {
      ghost var data, was := old(r.left), old(w.written);
      RelayedStep(x, r.left, w.calls);
      var payloadLen;
      payloadLen, err := r.ReadZeroCopy(b, front, writeMax);
      if payloadLen == 0 {
        if err == Some(EOF) {
          err := None;
        }
        return;
      }
      SinglePiece(w.plan, w.calls, payloadLen, writeMax);
      var payloadWritten, werr := w.WriteZeroCopy(b, front, payloadLen);
      MoveMore(was, data, n, payloadLen, payloadWritten);
      n := n + payloadWritten;
      if werr.Some? {
        err := werr;
      }
      if err.Some? {
        if err == Some(EOF) {
          err := None;
        }
        return;
      }
    }
  }

  lemma RelayedStep(x: Ends, data: Bytes, calls: nat)
    requires x.Ok()
    ensures var out := Relayed(x, data, calls);
            var m := Portion(data, x.portion, x.readLen);
            var (k, c, e) := Pieces(x.plan, calls, m, x.size);
            && (data == [] ==> out == Outcome(0, calls, Cleared(x.final), 0, None))
            && (data != [] && e.None? ==> out == Relayed(x, data[m..], c).After(m))
            && (data != [] && e.Some? ==> out == Outcome(k, c, if x.Keeps(m) then e else Cleared(e.value), 0, Some(m)))
  {
    hide Pieces;
  }

  /** What fits goes out in one write. */
  lemma SinglePiece(plan: Plan, calls: nat, len: nat, size: nat)
    requires 0 < len <= size
    ensures Pieces(plan, calls, len, size) ==
            match plan(calls)
            case None => (len, calls + 1, None)
            case Some((k, e)) => (Min(len, k), calls + 1, Some(e))
  {
    assert plan(calls).None? ==> Pieces(plan, calls + 1, 0, size) == (0, calls + 1, None);
  }

  /** relayFallback: a portion larger than one write is copied out in pieces, so that a write never disturbs
      what is still to be written. An end-of-file error from a single write is returned, one from a piece is
      cleared. */
  method RelayFallback(w: Writer, r: Reader, front: nat, rear: nat, readMax: nat, writeMax: nat)
    returns (n: nat, err: Option<Error>)
    requires front >= r.front && front >= w.front && rear >= r.rear && rear >= w.rear
    requires r.minPayload <= readMax && 0 < writeMax < readMax && (w.max > 0 ==> writeMax <= w.max)
    modifies r, w
    ensures Moved(r, w, n)
    ensures var out := Relayed(Ends(r.portion, r.final, w.plan, readMax, writeMax, true), old(r.left), old(w.calls));
            n == out.n && err == out.err && w.calls == out.calls
  {
    hide Min, Relayed, Pieces, Portion;
    var br := new Byte[front + readMax + rear];
    var bw := new Byte[front + writeMax + rear];
    n := 0;
    ghost var x := Ends(r.portion, r.final, w.plan, readMax, writeMax, true);
    ghost var all := Relayed(x, r.left, w.calls);
    while true
      invariant fresh(br) && fresh(bw) && br != bw && Moved(r, w, n) && r.left == old(r.left)[n..]
      invariant all == Relayed(x, r.left, w.calls).After(n)
      decreases |r.left|
    {
      ghost var data, was := old(r.left), old(w.written);
      RelayedStep(x, r.left, w.calls);
      var payloadLen;
      payloadLen, err := r.ReadZeroCopy(br, front, readMax);
      if payloadLen == 0 {
        if err == Some(EOF) {
          err := None;
        }
        return;
      }
      PiecesCalls(w.plan, w.calls, payloadLen, writeMax);
      var payloadWritten, werr;
      // Short-circuit to avoid copying if the portion fits in one write.
      if payloadLen <= writeMax {
        SinglePiece(w.plan, w.calls, payloadLen, writeMax);
        payloadWritten, werr := w.WriteZeroCopy(br, front, payloadLen);
      } else {
        payloadWritten, werr := WritePieces(w, br, bw, front, rear, payloadLen, writeMax);
      }
      MoveMore(was, data, n, payloadLen, payloadWritten);
      n := n + payloadWritten;
      if werr.Some? {
        err := werr;
        if payloadLen > writeMax && err == Some(EOF) {
          err := None;
        }
        return;
      }
    }
  }

  method WritePieces(w: Writer, br: array<Byte>, bw: array<Byte>, front: nat, rear: nat, len: nat, writeMax: nat)
    returns (n: nat, err: Option<Error>)
    requires br != bw && front + len <= br.Length && front + writeMax + rear <= bw.Length
    requires front >= w.front && rear >= w.rear && 0 < writeMax && (w.max > 0 ==> writeMax <= w.max)
    modifies w, bw
    ensures n <= len && w.written == old(w.written) + old(br[front..front + len])[..n]
    ensures (n, w.calls, err) == Pieces(w.plan, old(w.calls), len, writeMax)
  {
    hide Patch, Pieces;
    var i := 0;
    n, err := 0, None;
    ghost var was, portion := w.written, br[front..front + len];
    ghost var all := Pieces(w.plan, w.calls, len, writeMax);
    assert portion[..0] == [];
    while i < len
      invariant n == i <= len && err.None?
      invariant w.written == was + portion[..n] && br[front..front + len] == portion
      invariant var (m, c, e) := Pieces(w.plan, w.calls, len - n, writeMax); all == (n + m, c, e)
    {
      var j := Min(writeMax, len - i);
      SubSlice(br[..], front, len, i, i + j);
      PutPiece(bw, front, br[front + i..front + i + j]);
      PiecesStep(w.plan, w.calls, len - i, writeMax);
      var payloadWritten, werr := w.WriteZeroCopy(bw, front, j);
      MovePiece(was, portion, i, j, payloadWritten);
      n := n + payloadWritten;
      if werr.Some? {
        err := werr;
        return;
      }
      i := i + j;
    }
    PiecesStep(w.plan, w.calls, 0, writeMax);
  }

  lemma PiecesStep(plan: Plan, calls: nat, len: nat, size: nat)
    requires size > 0
    ensures len == 0 ==> Pieces(plan, calls, len, size) == (0, calls, None)
    ensures len > 0 ==>
              var j := Min(size, len);
              Pieces(plan, calls, len, size) ==
              match plan(calls)
              case None => (var (n, c, e) := Pieces(plan, calls + 1, len - j, size); (j + n, c, e))
              case Some((k, e)) => (Min(j, k), calls + 1, Some(e))
  {}

  // ----- writers that answer end-of-file -----

  /** A writer whose next call takes nothing and answers end-of-file: whatever the stream holds, a relay that does not
      copy in pieces reports success with nothing written. */
  method EndOfFileTruncates(w: Writer, r: Reader) returns (n: nat, err: Option<Error>)
    requires w.plan(w.calls) == Some((0, EOF)) && r.left != [] && r.minPayload <= WriteSize(w, r)
    modifies r, w
    ensures n == 0 && err.None? && w.written == old(w.written)
  {
    var x := EndsOf(w, r);
    RelayedStep(x, r.left, w.calls);
    SinglePiece(w.plan, w.calls, Portion(r.left, r.portion, x.readLen), x.size);
    n, err := Relay(w, r);
  }

  /** With the same writer a relay that copies in pieces clears the end-of-file of a portion larger than one write, and
      returns that of a smaller one. */
  method EndOfFileInPieces(w: Writer, r: Reader) returns (n: nat, err: Option<Error>)
    requires w.plan(w.calls) == Some((0, EOF)) && r.left != [] && r.minPayload > WriteSize(w, r)
    modifies r, w
    ensures n == 0 && w.written == old(w.written)
    ensures err == if Portion(old(r.left), r.portion, r.minPayload) > WriteSize(w, r) then None else Some(EOF)
  {
    var x := EndsOf(w, r);
    RelayedStep(x, r.left, w.calls);
    PiecesStep(w.plan, w.calls, Portion(r.left, r.portion, x.readLen), x.size);
    n, err := Relay(w, r);
  }

  /** Put, of which only the piece itself matters. */
  method PutPiece(b: array<Byte>, at: nat, d: Bytes)
    requires at + |d| <= b.Length
    modifies b
    ensures b[at..at + |d|] == d
  {
    Put(b, at, d);
  }

  lemma MovePiece(was: Bytes, data: Bytes, i: nat, j: nat, k: nat)
    requires i + j <= |data| && k <= j
    ensures was + data[..i] + data[i..i + j][..k] == was + data[..i + k]
  {
    assert data[..i] + data[i..i + j][..k] == data[..i + k];
    assert was + data[..i] + data[i..i + j][..k] == was + (data[..i] + data[i..i + j][..k]);
  }

  // ----- plain reads and writes -----

  class CopyReadWriter {
    const reader: Reader
    const writer: Writer
    const frontHeadroom: nat
    const rearHeadroom: nat
    const readBuf: array<Byte>
    var readBufStart: nat
    var readBufLength: nat
    const writeBuf: array<Byte>

    ghost predicate Valid()
      reads this
    {
      && readBuf != writeBuf
      && frontHeadroom >= reader.front && frontHeadroom >= writer.front
      && rearHeadroom >= reader.rear && rearHeadroom >= writer.rear
      && frontHeadroom + reader.minPayload + rearHeadroom <= readBuf.Length
      && frontHeadroom + rearHeadroom < readBuf.Length
      && frontHeadroom + rearHeadroom < writeBuf.Length
      && (writer.max > 0 ==> writeBuf.Length <= frontHeadroom + writer.max + rearHeadroom)
      && readBufStart + readBufLength <= readBuf.Length
    }

    /** What a caller has yet to read: the rest of the buffered portion, then the stream. */
    ghost function Unread(): Bytes
      requires Valid()
      reads this, readBuf, reader
    {
      Buffered() + reader.left
    }

    ghost function Buffered(): (r: Bytes)
      requires Valid()
      reads this, readBuf
      ensures |r| == readBufLength
    {
      readBuf[readBufStart..readBufStart + readBufLength]
    }

    constructor (reader: Reader, writer: Writer)
      ensures Valid() && this.reader == reader && this.writer == writer
      ensures fresh(readBuf) && fresh(writeBuf) && Unread() == reader.left
    {
      this.reader, this.writer := reader, writer;
      frontHeadroom, rearHeadroom := Max(reader.front, writer.front), Max(reader.rear, writer.rear);
      var readBufSize := if reader.minPayload == 0 then DefaultBufferSize else reader.minPayload;
      var writeBufSize := if writer.max == 0 then DefaultBufferSize else writer.max;
      readBuf := new Byte[Max(reader.front, writer.front) + readBufSize + Max(reader.rear, writer.rear)];
      writeBuf := new Byte[Max(reader.front, writer.front) + writeBufSize + Max(reader.rear, writer.rear)];
      readBufStart, readBufLength := 0, 0;
    }

    /** Yields the next bytes of the stream, whatever size is asked for and whatever portions come in. */
    method Read(b: array<Byte>) returns (n: nat, err: Option<Error>)
      requires Valid() && b != readBuf && b != writeBuf
      modifies this, readBuf, reader, b
      ensures Valid()
      ensures n <= b.Length && n <= |old(Unread())|
      ensures b[..n] == old(Unread())[..n] && Unread() == old(Unread())[n..]
      ensures b[n..] == old(b[n..])
      ensures err.Some? <==> old(Unread()) == []
      ensures err.Some? ==> n == 0 && err == Some(reader.final)
      ensures err.None? && b.Length > 0 ==> n > 0
    {
      err := Fill();
      if err.Some? {
        return 0, err;
      }
      n := Take(b);
    }

    /** Makes sure that something is buffered, unless the stream has ended. */
    method Fill() returns (err: Option<Error>)
      requires Valid()
      modifies this, readBuf, reader
      ensures Valid() && Unread() == old(Unread())
      ensures readBufLength == 0 <==> old(Unread()) == []
      ensures err == if readBufLength == 0 then Some(reader.final) else None
    {
      hide Buffered;
      err := None;
      if readBufLength == 0 {
        ghost var left := reader.left;
        EmptyJoin(Buffered(), left);
        err := Refill();
        Rejoin(left, readBufLength);
      }
    }

    /** An empty buffer is filled with the next portion. */
    method Refill() returns (err: Option<Error>)
      requires Valid() && readBufLength == 0
      modifies this, readBuf, reader
      ensures Valid()
      ensures readBufLength <= |old(reader.left)| && reader.left == old(reader.left)[readBufLength..]
      ensures Buffered() == old(reader.left)[..readBufLength]
      ensures readBufLength == 0 <==> old(reader.left) == []
      ensures err == if readBufLength == 0 then Some(reader.final) else None
    {
      readBufStart := frontHeadroom;
      var n;
      n, err := reader.ReadZeroCopy(readBuf, readBufStart, readBuf.Length - frontHeadroom - rearHeadroom);
      readBufLength := n;
    }

    /** As much of the buffered portion as fits. */
    method Take(b: array<Byte>) returns (n: nat)
      requires Valid() && b != readBuf && b != writeBuf
      modifies this, b
      ensures Valid() && n == Min(b.Length, old(readBufLength))
      ensures b[..n] == old(Unread())[..n] && Unread() == old(Unread())[n..]
      ensures b[n..] == old(b[n..])
    {
      n := Min(b.Length, readBufLength);
      Taken(readBuf[..], readBufStart, readBufLength, reader.left, n);
      PutFront(b, readBuf[readBufStart..readBufStart + n]);
      readBufStart := readBufStart + n;
      readBufLength := readBufLength - n;
    }

    /** All of b, or a first part of it and an error; no write exceeds the limit. */
    method Write(b: array<Byte>) returns (n: nat, err: Option<Error>)
      requires Valid() && b != writeBuf
      modifies writer, writeBuf
      ensures n <= b.Length && writer.written == old(writer.written) + b[..n] && old(writer.calls) <= writer.calls
      ensures err.None? ==> n == b.Length && AllWell(writer.plan, old(writer.calls), writer.calls)
      ensures err.Some? ==> LastFails(writer.plan, old(writer.calls), writer.calls)
                            && err == Some(writer.plan(writer.calls - 1).value.1)
    {
      n, err := 0, None;
      ghost var was, data := writer.written, b[..];
      while n < b.Length
        invariant n <= b.Length && err.None?
        invariant old(writer.calls) <= writer.calls && AllWell(writer.plan, old(writer.calls), writer.calls)
        invariant b[..] == data && writer.written == was + data[..n]
      {
        var payloadLength := Min(writeBuf.Length - rearHeadroom - frontHeadroom, b.Length - n);
        assert b[n..n + payloadLength] == data[n..n + payloadLength];
        PutPiece(writeBuf, frontHeadroom, b[n..n + payloadLength]);
        var payloadWritten;
        payloadWritten, err := writer.WriteZeroCopy(writeBuf, frontHeadroom, payloadLength);
        MovePiece(was, data, n, payloadLength, payloadWritten);
        n := n + payloadWritten;
        if err.Some? {
          return;
        }
      }
    }
  }

  lemma EmptyJoin(s: Bytes, t: Bytes)
    requires |s| == 0
    ensures s + t == t
  {}

  lemma Rejoin(s: Bytes, n: nat)
    requires n <= |s|
    ensures s[..n] + s[n..] == s
  {}

  method PutFront(b: array<Byte>, d: Bytes)
    requires |d| <= b.Length
    modifies b
    ensures b[..|d|] == d && b[|d|..] == old(b[|d|..])
  {
    hide Patch;
    ghost var was := b[..];
    PatchFront(was, d);
    Put(b, 0, d);
    assert b[..|d|] == b[..][..|d|] && b[|d|..] == b[..][|d|..] && was[|d|..] == old(b[|d|..]);
  }

  lemma PatchFront(s: Bytes, d: Bytes)
    requires |d| <= |s|
    ensures Patch(s, 0, d)[..|d|] == d && Patch(s, 0, d)[|d|..] == s[|d|..]
  {}

  lemma Taken(buf: Bytes, start: nat, length: nat, rest: Bytes, n: nat)
    requires start + length <= |buf| && n <= length
    ensures (buf[start..start + length] + rest)[..n] == buf[start..start + n]
    ensures (buf[start..start + length] + rest)[n..] == buf[start + n..start + length] + rest
  {
    SubSlice(buf, start, length, 0, n);
    SubSlice(buf, start, length, n, length);
    var portion := buf[start..start + length];
    assert (portion + rest)[..n] == portion[..n] && (portion + rest)[n..] == portion[n..] + rest;
  }

  method CopyWriteOnce(w: Writer, b: Bytes) returns (n: nat, err: Option<Error>)
    modifies w
    ensures n <= |b| && w.written == old(w.written) + b[..n] && old(w.calls) <= w.calls
    ensures err.None? ==> n == |b| && AllWell(w.plan, old(w.calls), w.calls)
    ensures err.Some? ==> LastFails(w.plan, old(w.calls), w.calls) && err == Some(w.plan(w.calls - 1).value.1)
  {
    var size := if w.max == 0 then DefaultBufferSize else w.max;
    if size > |b| {
      size := |b|;
    }
    var buf := new Byte[w.front + size + w.rear];
    n, err := 0, None;
    ghost var was := w.written;
    while n < |b|
      invariant n <= |b| && err.None? && fresh(buf)
      invariant old(w.calls) <= w.calls && AllWell(w.plan, old(w.calls), w.calls)
      invariant w.written == was + b[..n]
    {
      var payloadLength := Min(size, |b| - n);
      PutPiece(buf, w.front, b[n..n + payloadLength]);
      var payloadWritten;
      payloadWritten, err := w.WriteZeroCopy(buf, w.front, payloadLength);
      MovePiece(was, b, n, payloadLength, payloadWritten);
      n := n + payloadWritten;
      if err.Some? {
        return;
      }
    }
  }

  lemma Advance(got: Bytes, before: Bytes, n: nat)
    requires n <= |before|
    ensures got + before[..n] + before[n..] == got + before
  {
    assert before[..n] + before[n..] == before;
    assert got + before[..n] + before[n..] == got + (before[..n] + before[n..]);
  }

  /** Any number of reads of any sizes spells out the stream from its start. Reads of at least a byte make progress: as many
      bytes as reads, or the end; so more reads than bytes reach the end and have read everything. */
  method ReadMany(rw: CopyReadWriter, sizes: seq<nat>) returns (got: Bytes, ended: bool)
    requires rw.Valid()
    modifies rw, rw.readBuf, rw.reader
    ensures rw.Valid()
    ensures old(rw.Unread()) == got + rw.Unread()
    ensures ended ==> got == old(rw.Unread())
    ensures (forall i :: 0 <= i < |sizes| ==> sizes[i] > 0) ==>
              && (ended || |got| >= |sizes|)
              && (|sizes| > |old(rw.Unread())| ==> ended && got == old(rw.Unread()))
  {
    got, ended := [], false;
    for i := 0 to |sizes|
      invariant rw.Valid() && old(rw.Unread()) == got + rw.Unread()
      invariant ended ==> got == old(rw.Unread())
      invariant (forall j :: 0 <= j < |sizes| ==> sizes[j] > 0) ==> ended || |got| >= i
    {
      var b := new Byte[sizes[i]];
      ghost var before := rw.Unread();
      var n, err := rw.Read(b);
      Advance(got, before, n);
      got := got + b[..n];
      if err.Some? {
        ended := true;
      }
    }
  }
}
