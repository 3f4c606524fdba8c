/** Facts about products and quotients by a positive divisor. */
module Arithmetic {

  lemma MulSign(b: nat, x: int)
    ensures x >= 1 ==> b * x >= b
    ensures x <= -1 ==> b * x + b <= 0
  {
    if x >= 1 {
      assert b * x == b * (x - 1) + b;
    } else if x <= -1 {
      assert b * x == b * (x + 1) - b;
    }
  }

  lemma DivUnique(a: int, b: nat, q: int, r: nat)
    requires b > 0 && a == b * q + r && r < b
    ensures a / b == q && a % b == r
  {
    var q' := a / b;
    assert a == b * q' + a % b;
    assert b * (q' - q) == b * q' - b * q;
    MulSign(b, q' - q);
  }

  lemma DivBelow(a: nat, b: nat, n: nat)
    requires b > 0 && a < b * n
    ensures a / b < n
  {
    assert a == b * (a / b) + a % b;
    assert b * (a / b - n) == b * (a / b) - b * n;
    MulSign(b, a / b - n);
  }

  lemma MulMono(b: nat, x: int, y: int)
    requires x <= y
    ensures b * x <= b * y
    ensures x < y ==> b * x + b <= b * y
  {
    assert b * (y - x) == b * y - b * x;
    MulSign(b, y - x);
  }

  lemma MulSplit(b: int, x: int, y: int)
    ensures b * (x + y) == b * x + b * y
  {
  }

  /** Moving d forward inside a unit of size s, inside blocks of k units. */
  lemma SplitForward(off: nat, d: nat, s: nat, k: nat)
    requires s > 0 && k > 0 && s * k > 0
    requires off % (s * k) % s + d < s
    ensures (off + d) / (s * k) == off / (s * k)
    ensures (off + d) % (s * k) / s == off % (s * k) / s
    ensures (off + d) % (s * k) % s == off % (s * k) % s + d
  {
    var cs := s * k;
    var q, inside := off / cs, off % cs;
    var j, r := inside / s, inside % s;
    DivBelow(inside, s, k);
    MulMono(s, j, k);
    assert inside == s * j + r;
    DivUnique(off + d, cs, q, inside + d);
    DivUnique(inside + d, s, j, r + d);
  }

  lemma SplitBounds(off: nat, s: nat, k: nat, n: nat)
    requires s > 0 && k > 0 && s * k > 0
    requires off < n * (s * k)
    ensures off / (s * k) < n && off % (s * k) / s < k
  {
    DivBelow(off, s * k, n);
    DivBelow(off % (s * k), s, k);
  }

  lemma SplitInjective(a: nat, b: nat, s: nat, cs: nat)
    requires s > 0 && cs > 0
    requires a / cs == b / cs && a % cs / s == b % cs / s && a % cs % s == b % cs % s
    ensures a == b
  {
    var x, y := a % cs, b % cs;
    assert x == s * (x / s) + x % s && y == s * (y / s) + y % s;
    assert a == cs * (a / cs) + x && b == cs * (b / cs) + y;
  }

  /** The position one unit further on: next unit of the block, or first unit of the next block. */
  lemma SplitNext(off: nat, s: nat, k: nat)
    requires s > 0 && k > 0 && s * k > 0
    requires off % (s * k) % s == 0
    ensures (off + s) % (s * k) % s == 0
    ensures off % (s * k) / s + 1 < k ==>
              (off + s) / (s * k) == off / (s * k) && (off + s) % (s * k) / s == off % (s * k) / s + 1
    ensures off % (s * k) / s + 1 >= k ==>
              (off + s) / (s * k) == off / (s * k) + 1 && (off + s) % (s * k) / s == 0
  {
    var cs := s * k;
    var j := off % cs / s;
    DivBelow(off % cs, s, k);
    assert off % cs == s * j;
    if j + 1 < k {
      SplitInside(off, s, cs, j, k);
    } else {
      SplitCarry(off, s, cs, j);
    }
  }

  lemma SplitInside(off: nat, s: nat, cs: nat, j: nat, k: nat)
    requires s > 0 && cs == s * k && cs > 0 && off % cs == s * j && j + 1 < k
    ensures (off + s) / cs == off / cs && (off + s) % cs / s == j + 1 && (off + s) % cs % s == 0
  {
    MulMono(s, j + 1, k);
    MulSplit(s, j, 1);
    DivUnique(off + s, cs, off / cs, s * (j + 1));
    DivUnique(s * (j + 1), s, j + 1, 0);
  }

  lemma SplitCarry(off: nat, s: nat, cs: nat, j: nat)
    requires s > 0 && cs == s * (j + 1) && off % cs == s * j
    ensures cs > 0 && (off + s) / cs == off / cs + 1 && (off + s) % cs == 0
  {
    MulSplit(s, j, 1);
    DivUnique(off + s, cs, off / cs + 1, 0);
  }

  lemma SplitStart(n: nat, s: nat, k: nat)
    requires s > 0 && k > 0 && s * k > 0
    ensures n * (s * k) / (s * k) == n && n * (s * k) % (s * k) == 0
  {
    DivUnique(n * (s * k), s * k, n, 0);
  }

  function Product(a: nat, b: nat): nat {
    a * b
  }

  lemma ModAtMost(x: nat, s: nat)
    requires s > 0
    ensures x % s <= x
  {
    assert x == s * (x / s) + x % s;
    MulMono(s, 0, x / s);
  }

  /** Moving d backward inside a unit. */
  lemma SplitBackward(off: nat, d: nat, s: nat, k: nat)
    requires s > 0 && k > 0 && s * k > 0
    requires d <= off % (s * k) % s
    ensures d <= off && (off - d) / (s * k) == off / (s * k)
    ensures (off - d) % (s * k) / s == off % (s * k) / s
    ensures (off - d) % (s * k) % s == off % (s * k) % s - d
  {
    var cs := s * k;
    var q, inside := off / cs, off % cs;
    var j, r := inside / s, inside % s;
    ModAtMost(off, cs);
    ModAtMost(inside, s);
    DivUnique(off - d, cs, q, inside - d);
    DivUnique(inside - d, s, j, r - d);
  }

  lemma DivLess(a: nat, b: nat, n: nat)
    requires b > 0
    ensures a / b < n <==> a < n * b
  {
    if a < n * b {
      DivBelow(a, b, n);
    } else {
      assert a == b * (a / b) + a % b;
      if a / b < n {
        MulMono(b, a / b, n);
        assert false;
      }
    }
  }

  /** The unit that holds off ends inside its block, and before the end when it is not the last. */
  lemma UnitEnd(off: nat, s: nat, k: nat, n: nat)
    requires s > 0 && k > 0 && s * k > 0 && off < n * (s * k)
    ensures off - off % (s * k) % s + s <= n * (s * k)
    ensures off % (s * k) / s + 1 < k ==> off - off % (s * k) % s + s < n * (s * k)
  {
    var cs := s * k;
    var q, inside := off / cs, off % cs;
    var j := inside / s;
    DivBelow(off, cs, n);
    DivBelow(inside, s, k);
    MulMono(cs, q, n);
    MulMono(s, j, k);
    if j + 1 < k {
      MulMono(s, j + 1, k);
      MulSplit(s, j, 1);
    }
  }
}
