/** Fixed-width integers, big-endian encodings, in-place buffer writes and slices. */
module Words {
  type Byte = x: int | 0 <= x < 0x100
  type U16 = x: int | 0 <= x < 0x1_0000
  type U64 = x: int | 0 <= x < 0x1_0000_0000_0000_0000
  type Bytes = seq<Byte>

  datatype Option<+T> = None | Some(value: T)

  datatype Result<+T, +E> = Ok(value: T) | Err(error: E)

  // ----- big-endian integers -----

  function Pow256(k: nat): (r: nat)
    ensures r > 0
  {
    if k == 0 then 1 else 256 * Pow256(k - 1)
  }

  function BE(n: nat, k: nat): (r: Bytes)
    ensures |r| == k
    decreases k
  {
    if k == 0 then [] else BE(n / 256, k - 1) + [n % 256]
  }

  function FromBE(s: Bytes): nat {
    if s == [] then 0 else FromBE(s[..|s| - 1]) * 256 + s[|s| - 1]
  }

  lemma {:induction false} FromBEofBE(n: nat, k: nat)
    requires n < Pow256(k)
    ensures FromBE(BE(n, k)) == n
    decreases k
  {
    if k > 0 {
      FromBEofBE(n / 256, k - 1);
      assert BE(n, k)[..k - 1] == BE(n / 256, k - 1);
    }
  }

  lemma {:induction false} BEofFromBE(s: Bytes)
    ensures FromBE(s) < Pow256(|s|)
    ensures BE(FromBE(s), |s|) == s
  {
    if s != [] {
      BEofFromBE(s[..|s| - 1]);
      assert s == s[..|s| - 1] + [s[|s| - 1]];
    }
  }

  lemma Widths()
    ensures Pow256(2) == 0x1_0000
    ensures Pow256(8) == 0x1_0000_0000_0000_0000
  {
    assert Pow256(1) == 256 && Pow256(2) == 0x1_0000;
    assert Pow256(4) == 256 * Pow256(3) == 0x1_0000_0000;
    assert Pow256(5) == 0x100_0000_0000;
    assert Pow256(6) == 0x1_0000_0000_0000;
    assert Pow256(7) == 0x100_0000_0000_0000;
  }

  const Width16: nat := 2
  const Width64: nat := 8

  function Put16(n: U16): (r: Bytes)
    ensures |r| == 2
  {
    BE(n, Width16)
  }

  function Put64(n: U64): (r: Bytes)
    ensures |r| == 8
  {
    BE(n, Width64)
  }

  function Get16(s: Bytes): (r: U16)
    requires |s| >= 2
    ensures Put16(r) == s[..2]
  {
    BEofFromBE(s[..2]);
    Widths();
    FromBE(s[..2])
  }

  function Get64(s: Bytes): (r: U64)
    requires |s| >= 8
    ensures Put64(r) == s[..8]
  {
    BEofFromBE(s[..8]);
    Widths();
    FromBE(s[..8])
  }

  /** Byte by byte: the most significant byte first. */
  lemma BigEndian(s: Bytes)
    ensures |s| >= 2 ==> Get16(s) == 0x100 * s[0] as int + s[1]
    ensures |s| >= 8 ==>
              Get64(s) == 0x100_0000_0000_0000 * s[0] as int + 0x1_0000_0000_0000 * s[1] as int + 0x100_0000_0000 * s[2] as int
                          + 0x1_0000_0000 * s[3] as int + 0x100_0000 * s[4] as int + 0x1_0000 * s[5] as int
                          + 0x100 * s[6] as int + s[7]
  {
    if |s| >= 2 {
      FromBEPrefix(s, 0);
      FromBEPrefix(s, 1);
    }
    if |s| >= 8 {
      FromBEPrefix(s, 2);
      FromBEPrefix(s, 3);
      FromBEPrefix(s, 4);
      FromBEPrefix(s, 5);
      FromBEPrefix(s, 6);
      FromBEPrefix(s, 7);
    }
  }

  lemma FromBEPrefix(s: Bytes, k: nat)
    requires k < |s|
    ensures FromBE(s[..k + 1]) == FromBE(s[..k]) * 256 + s[k]
    ensures FromBE(s[..0]) == 0
  {
    assert s[..k + 1][..k] == s[..k];
  }

  lemma Get16Put16(n: U16, rest: Bytes)
    ensures Get16(Put16(n) + rest) == n
  {
    Widths();
    FromBEofBE(n, 2);
    assert (Put16(n) + rest)[..2] == Put16(n);
  }

  lemma Get64Put64(n: U64, rest: Bytes)
    ensures Get64(Put64(n) + rest) == n
  {
    Widths();
    FromBEofBE(n, 8);
    assert (Put64(n) + rest)[..8] == Put64(n);
  }

  lemma SubSlice(s: Bytes, start: nat, len: nat, lo: nat, hi: nat)
    requires lo <= hi <= len && start + len <= |s|
    ensures s[start..start + len][lo..hi] == s[start + lo..start + hi]
    ensures hi == len ==> s[start..start + len][lo..] == s[start + lo..start + hi]
  {
    var t := s[start..start + len];
    assert forall i :: 0 <= i < hi - lo ==> t[lo..hi][i] == t[lo + i] == s[start + lo..start + hi][i];
  }

  // ----- writing into a buffer -----

  /** `s` with `d` written over it at offset `at`. */
  function Patch(s: Bytes, at: nat, d: Bytes): (r: Bytes)
    requires at + |d| <= |s|
    ensures |r| == |s|
  {
    s[..at] + d + s[at + |d|..]
  }

  lemma PatchSlice(s: Bytes, at: nat, d: Bytes)
    requires at + |d| <= |s|
    ensures Patch(s, at, d)[at..at + |d|] == d
  {}

  lemma PatchEmpty(s: Bytes, at: nat)
    requires at <= |s|
    ensures Patch(s, at, []) == s
  {}

  lemma PatchAppend(s: Bytes, at: nat, d: Bytes, e: Bytes)
    requires at + |d| + |e| <= |s|
    ensures Patch(Patch(s, at, d), at + |d|, e) == Patch(s, at, d + e)
  {}

  /** Copies `d` into the buffer at `at`. */
  method Put(b: array<Byte>, at: nat, d: Bytes)
    requires at + |d| <= b.Length
    modifies b
    ensures b[..] == Patch(old(b[..]), at, d)
    ensures b[at..at + |d|] == d
  {
    forall i | 0 <= i < |d| {
      b[at + i] := d[i];
    }
  }

  // ----- small numbers and sequences -----

  function Min(a: int, b: int): int {
    if a < b then a else b
  }

  function Max(a: int, b: int): int {
    if a > b then a else b
  }

  lemma Assoc<T>(a: seq<T>, b: seq<T>, c: seq<T>)
    ensures a + b + c == a + (b + c)
  {}


  method SliceContains<T(==)>(s: seq<T>, v: T) returns (r: bool)
    ensures r <==> v in s
  {
    for i := 0 to |s|
      invariant v !in s[..i]
    {
      if v == s[i] {
        return true;
      }
    }
    return false;
  }
}
