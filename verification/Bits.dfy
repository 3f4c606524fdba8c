/** The bits of a number, and the running sums that rotate by one bit before every byte. */
module Bits {
  import Arithmetic
  import opened Bytes

  lemma DivDiv(a: nat, h: nat)
    requires h > 0
    ensures a / (2 * h) == a / 2 / h
    ensures a % (2 * h) == 2 * (a / 2 % h) + a % 2
  {
    var x, d := a / 2, a % 2;
    var q, r := x / h, x % h;
    assert x == h * q + r;
    assert a == 2 * x + d && 2 * (h * q) == (2 * h) * q;
    Arithmetic.DivUnique(a, 2 * h, q, 2 * r + d);
  }

  lemma {:induction false} ZeroBit(k: nat)
    ensures !Bit(0, k)
  {
    if k > 0 {
      ZeroBit(k - 1);
    }
  }

  /** Bit k is the binary digit of weight 2^k. */
  lemma {:induction false} BitIs(v: nat, k: nat)
    ensures Bit(v, k) <==> v / Pow2(k) % 2 == 1
  {
    if k > 0 {
      BitIs(v / 2, k - 1);
      DivDiv(v, Pow2(k - 1));
    }
  }

  lemma {:induction false} SmallBits(v: nat, n: nat, k: nat)
    requires v < Pow2(n) && n <= k
    ensures !Bit(v, k)
  {
    if n == 0 {
      ZeroBit(k);
    } else {
      SmallBits(v / 2, n - 1, k - 1);
    }
  }

  /** Two numbers put behind one another. */
  lemma {:induction false} JoinedBits(high: nat, low: nat, n: nat, k: nat)
    requires low < Pow2(n)
    ensures Bit(Pow2(n) * high + low, k) <==> if k < n then Bit(low, k) else Bit(high, k - n)
  {
    if n > 0 {
      var v, w := Pow2(n) * high + low, Pow2(n - 1) * high + low / 2;
      assert Pow2(n) * high == 2 * (Pow2(n - 1) * high);
      Arithmetic.DivUnique(v, 2, w, low % 2);
      if k > 0 {
        JoinedBits(high, low / 2, n - 1, k - 1);
      }
    }
  }

  /** The digits above and below place n. */
  lemma SplitBits(v: nat, n: nat, k: nat)
    ensures Bit(v % Pow2(n), k) <==> k < n && Bit(v, k)
    ensures v / Pow2(n) >= 0 && (Bit(v / Pow2(n), k) <==> Bit(v, n + k))
  {
    var p := Pow2(n);
    var high, low := v / p, v % p;
    assert v == p * high + low;
    if high < 0 {
      Arithmetic.MulSign(p, high);
      assert false;
    }
    JoinedBits(high, low, n, k);
    JoinedBits(high, low, n, n + k);
    if k >= n {
      SmallBits(low, n, k);
    }
  }

  lemma {:induction false} SameBits(v: nat, w: nat, n: nat)
    requires v < Pow2(n) && w < Pow2(n) && forall k :: 0 <= k < n ==> (Bit(v, k) <==> Bit(w, k))
    ensures v == w
  {
    if n > 0 {
      assert Bit(v, 0) <==> Bit(w, 0);
      forall k | 0 <= k < n - 1
        ensures Bit(v / 2, k) <==> Bit(w / 2, k)
      {
        assert Bit(v, k + 1) <==> Bit(w, k + 1);
      }
      SameBits(v / 2, w / 2, n - 1);
    }
  }

  /** A 16-bit field in memory: bit j is bit j % 8 of byte j / 8. */
  lemma WordBits16(s: seq<Byte>, p: nat, j: nat)
    requires p + 2 <= |s| && j < 16
    ensures Bit(U16(s, p), j) <==> Bit(s[p + j / 8], j % 8)
  {
    assert Pow2(8) == 0x100;
    JoinedBits(s[p + 1], s[p], 8, j);
  }

  lemma WordBits32(s: seq<Byte>, p: nat, j: nat)
    requires p + 4 <= |s| && j < 32
    ensures Bit(U32(s, p), j) <==> Bit(s[p + j / 8], j % 8)
  {
    hide U16, Bit;
    assert Pow2(8) == 0x100;
    assert Pow2(16) == 0x1_0000;
    JoinedBits(U16(s, p + 2), U16(s, p), 16, j);
    if j < 16 {
      WordBits16(s, p, j);
    } else {
      WordBits16(s, p + 2, j - 16);
    }
  }

  /** So also for 32 and 64 bits. */
  lemma WordBits64(s: seq<Byte>, p: nat, j: nat)
    requires p + 8 <= |s| && j < 64
    ensures Bit(U64(s, p), j) <==> Bit(s[p + j / 8], j % 8)
  {
    hide U32, Bit;
    assert Pow2(8) == 0x100;
    assert Pow2(16) == 0x1_0000;
    assert Pow2(24) == 0x100_0000;
    assert Pow2(32) == 0x1_0000_0000;
    JoinedBits(U32(s, p + 4), U32(s, p), 32, j);
    if j < 32 {
      WordBits32(s, p, j);
    } else {
      WordBits32(s, p + 4, j - 32);
    }
  }

  // ----- sums that rotate

  /** r is the word w of the given width rotated right by one bit. */
  ghost predicate Rotated(w: nat, r: nat, width: nat) {
    r < Pow2(width) && forall j :: 0 <= j < width ==> (Bit(r, j) <==> Bit(w, (j + 1) % width))
  }

  /** Rotate the sum, then add the byte, in a word of the given width. */
  ghost predicate Adds(sum: nat, b: Byte, sum': nat, width: nat) {
    exists r: nat :: Rotated(sum, r, width) && sum' == (r + b) % Pow2(width)
  }

  /** t holds the running sums of the bytes, from 0 on. */
  ghost predicate RunningSums(bytes: seq<Byte>, t: seq<nat>, width: nat) {
    |t| == |bytes| + 1 && t[0] == 0 && forall i :: 0 <= i < |bytes| ==> Adds(t[i], bytes[i], t[i + 1], width)
  }

  /** The rotating sum of the bytes is sum. */
  ghost predicate SumsTo(bytes: seq<Byte>, sum: nat, width: nat) {
    exists t: seq<nat> :: RunningSums(bytes, t, width) && t[|bytes|] == sum
  }

  lemma SumsToNothing(width: nat)
    ensures SumsTo([], 0, width)
  {
    assert RunningSums([], [0], width);
  }

  lemma SumsToMore(bytes: seq<Byte>, sum: nat, b: Byte, sum': nat, width: nat)
    requires SumsTo(bytes, sum, width) && Adds(sum, b, sum', width)
    ensures SumsTo(bytes + [b], sum', width)
  {
    hide Adds;
    var t: seq<nat> :| RunningSums(bytes, t, width) && t[|bytes|] == sum;
    var u := t + [sum'];
    forall i | 0 <= i < |bytes| + 1
      ensures Adds(u[i], (bytes + [b])[i], u[i + 1], width)
    {
      if i < |bytes| {
        assert u[i] == t[i] && u[i + 1] == t[i + 1];
      }
    }
    assert RunningSums(bytes + [b], u, width);
  }

  /** There is one such sum. */
  lemma SumsOnce(bytes: seq<Byte>, a: nat, b: nat, width: nat)
    requires SumsTo(bytes, a, width) && SumsTo(bytes, b, width)
    ensures a == b
  {
    hide Adds;
    var t: seq<nat> :| RunningSums(bytes, t, width) && t[|bytes|] == a;
    var u: seq<nat> :| RunningSums(bytes, u, width) && u[|bytes|] == b;
    SumsAgree(bytes, t, u, |bytes|, width);
  }

  lemma {:induction false} SumsAgree(bytes: seq<Byte>, t: seq<nat>, u: seq<nat>, n: nat, width: nat)
    requires RunningSums(bytes, t, width) && RunningSums(bytes, u, width) && n <= |bytes|
    ensures |t| == |u| == |bytes| + 1 && t[n] == u[n]
  {
    hide Adds;
    if n > 0 {
      SumsAgree(bytes, t, u, n - 1, width);
      AddsOnce(t[n - 1], bytes[n - 1], t[n], u[n], width);
    }
  }

  lemma AddsOnce(sum: nat, b: Byte, x: nat, y: nat, width: nat)
    requires Adds(sum, b, x, width) && Adds(sum, b, y, width)
    ensures x == y
  {
    hide Bit, Pow2;
    var r: nat :| Rotated(sum, r, width) && x == (r + b) % Pow2(width);
    var s: nat :| Rotated(sum, s, width) && y == (s + b) % Pow2(width);
    SameBits(r, s, width);
  }

  /** Rotating by moving the lowest digit to the top. */
  lemma RotatedWord(w: nat, width: nat)
    requires width > 0 && w < Pow2(width)
    ensures Rotated(w, (if w % 2 == 1 then Pow2(width - 1) else 0) + w / 2, width)
  {
    hide Bit;
    var r := (if w % 2 == 1 then Pow2(width - 1) else 0) + w / 2;
    forall j | 0 <= j < width
      ensures Bit(r, j) <==> Bit(w, (j + 1) % width)
    {
      RotatedBit(w, r, width, j);
    }
  }

  lemma RotatedBit(w: nat, r: nat, width: nat, j: nat)
    requires j < width && w / 2 < Pow2(width - 1) && r == (if w % 2 == 1 then Pow2(width - 1) else 0) + w / 2
    ensures Bit(r, j) <==> Bit(w, (j + 1) % width)
  {
    hide Bit, Pow2;
    assert r == Pow2(width - 1) * (w % 2) + w / 2;
    JoinedBits(w % 2, w / 2, width - 1, j);
    NextBit(w, j);
    LowBit(w);
    if j < width - 1 {
      Arithmetic.DivUnique(j + 1, width, 0, j + 1);
    } else {
      Arithmetic.DivUnique(j + 1, width, 1, 0);
    }
  }

  lemma NextBit(w: nat, j: nat)
    ensures Bit(w / 2, j) <==> Bit(w, j + 1)
  {
  }

  lemma LowBit(w: nat)
    ensures Bit(w % 2, 0) <==> Bit(w, 0)
  {
  }
}
