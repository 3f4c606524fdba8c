/** Bytes, little-endian fields and byte-sized bit masks, shared by both file systems. */
module Bytes {

  type Byte = x: int | 0 <= x < 256

  type Sector = seq<Byte>

  /** A directory entry. */
  type Slot = s: seq<Byte> | |s| == 32 witness Zeros(32)

  datatype Option<+T> = None | Some(value: T)

  /** Little-endian fields. */
  function U16(s: seq<Byte>, p: nat): (v: nat)
    requires p + 2 <= |s|
    ensures v < 0x1_0000
  {
    s[p] + 0x100 * (s[p + 1] as int)
  }

  function U32(s: seq<Byte>, p: nat): (v: nat)
    requires p + 4 <= |s|
    ensures v < 0x1_0000_0000
  {
    U16(s, p) + 0x1_0000 * U16(s, p + 2)
  }

  function U64(s: seq<Byte>, p: nat): (v: nat)
    requires p + 8 <= |s|
    ensures v < 0x1_0000_0000_0000_0000
  {
    U32(s, p) + 0x1_0000_0000 * U32(s, p + 4)
  }

  function Le16(v: nat): (b: seq<Byte>)
    ensures |b| == 2 && U16(b, 0) == v % 0x1_0000
  {
    [v % 0x100, v / 0x100 % 0x100]
  }

  function Le32(v: nat): (b: seq<Byte>)
    ensures |b| == 4 && U32(b, 0) == v % 0x1_0000_0000
  {
    SplitWord(v, 0x1_0000);
    Join16(Le16(v), Le16(v / 0x1_0000));
    Le16(v) + Le16(v / 0x1_0000)
  }

  function Le64(v: nat): (b: seq<Byte>)
    ensures |b| == 8 && U64(b, 0) == v % 0x1_0000_0000_0000_0000
  {
    SplitWord(v, 0x1_0000_0000);
    Join32(Le32(v), Le32(v / 0x1_0000_0000));
    Le32(v) + Le32(v / 0x1_0000_0000)
  }

  lemma SplitWord(v: nat, m: nat)
    requires m == 0x1_0000 || m == 0x1_0000_0000
    ensures v % (m * m) == v % m + m * (v / m % m)
  {
  }

  lemma Join16(a: seq<Byte>, b: seq<Byte>)
    requires |a| == 2 && |b| == 2
    ensures U32(a + b, 0) == U16(a, 0) + 0x1_0000 * U16(b, 0)
  {
  }

  lemma Join32(a: seq<Byte>, b: seq<Byte>)
    requires |a| == 4 && |b| == 4
    ensures U64(a + b, 0) == U32(a, 0) + 0x1_0000_0000 * U32(b, 0)
  {
  }

  /** The bytes of s with b laid over them from position p. */
  function Splice(s: seq<Byte>, p: nat, b: seq<Byte>): (r: seq<Byte>)
    requires p + |b| <= |s|
    ensures |r| == |s|
    ensures forall i :: 0 <= i < |s| ==> r[i] == if p <= i < p + |b| then b[i - p] else s[i]
  {
    s[..p] + b + s[p + |b|..]
  }

  function Zeros(n: nat): (z: seq<Byte>)
    ensures |z| == n && forall i :: 0 <= i < n ==> z[i] == 0
  {
    seq(n, _ => 0)
  }

  function Min(a: int, b: int): int {
    if a < b then a else b
  }

  function Pow2(n: nat): (p: nat)
    ensures p >= 1
  {
    if n == 0 then 1 else 2 * Pow2(n - 1)
  }

  /** Bit k of a word, (v & (1 << k)) != 0. */
  predicate Bit(v: nat, k: nat) {
    if k == 0 then v % 2 == 1 else Bit(v / 2, k - 1)
  }

  /** v | (1 << k) when on, v & ~(1 << k) otherwise, in a word of the given width. */
  function WithBit(v: nat, k: nat, on: bool, width: nat): (r: nat)
    requires k < width && v < Pow2(width)
    ensures r < Pow2(width)
  {
    assert v / 2 < Pow2(width - 1);
    if k == 0 then v / 2 * 2 + (if on then 1 else 0)
    else 2 * WithBit(v / 2, k - 1, on, width - 1) + v % 2
  }

  /** Setting or clearing one bit of a word leaves every other bit alone. */
  lemma {:induction false} WithBitOnly(v: nat, k: nat, on: bool, width: nat, j: nat)
    requires k < width && v < Pow2(width)
    ensures Bit(WithBit(v, k, on, width), j) == if j == k then on else Bit(v, j)
  {
    var r := WithBit(v, k, on, width);
    if k == 0 {
      assert r / 2 == v / 2;
    } else {
      assert r / 2 == WithBit(v / 2, k - 1, on, width - 1);
      if j > 0 {
        WithBitOnly(v / 2, k - 1, on, width - 1, j - 1);
      }
    }
  }

  const LOWER: string := "abcdefghijklmnopqrstuvwxyz"
  const UPPER: string := "ABCDEFGHIJKLMNOPQRSTUVWXYZ"

  /** u is the capital of the ASCII letter c, or c itself when that is no small letter. */
  ghost predicate Capitalized(c: int, u: int) {
    || (exists k :: 0 <= k < 26 && c == LOWER[k] as int && u == UPPER[k] as int)
    || (u == c && forall k :: 0 <= k < 26 ==> c != LOWER[k] as int)
  }

  lemma Alphabet(k: nat)
    requires k < 26
    ensures LOWER[k] as int == 0x61 + k && UPPER[k] as int == 0x41 + k
  {
  }

  lemma CapitalIs(c: int, u: int)
    ensures Capitalized(c, u) <==> u == if 0x61 <= c <= 0x7A then c - 0x20 else c
  {
    forall k | 0 <= k < 26
      ensures LOWER[k] as int == 0x61 + k && UPPER[k] as int == 0x41 + k
    {
      Alphabet(k);
    }
    if 0x61 <= c <= 0x7A {
      assert LOWER[c - 0x61] as int == c;
    }
  }
}
