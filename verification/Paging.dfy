/** Four-level page tables in physical memory: the radix tree as a flat map from pages to entries. */
module Paging {
  import Arithmetic
  import opened Bytes
  import opened Bits
  import opened Frames

  const PRESENT: nat := 0
  const WRITABLE: nat := 1
  const USER: nat := 2

  /** A 64-bit page table entry. */
  type Word = w: int | 0 <= w < 0x1_0000_0000_0000_0000

  type Table = t: seq<Word> | |t| == 512 witness seq(512, _ => 0)

  /** Page tables by the frame they are in. */
  type Memory = map<nat, Table>

  /** PAGE_ADDRESS_MASK: bits 12 to 51. */
  function Address(w: nat): (a: nat)
    ensures a % PAGE_SIZE == 0
    ensures forall k: nat :: Bit(a, k) <==> 12 <= k < 52 && Bit(w, k)
  {
    AddressBits(w);
    w / PAGE_SIZE % 0x100_0000_0000 * PAGE_SIZE
  }

  lemma AddressBits(w: nat)
    ensures var a := w / PAGE_SIZE % 0x100_0000_0000 * PAGE_SIZE;
            forall k: nat :: Bit(a, k) <==> 12 <= k < 52 && Bit(w, k)
  {
    hide Bit;
    PageAndField();
    var a := w / PAGE_SIZE % 0x100_0000_0000 * PAGE_SIZE;
    forall k: nat
      ensures Bit(a, k) <==> 12 <= k < 52 && Bit(w, k)
    {
      JoinedBits(w / PAGE_SIZE % 0x100_0000_0000, 0, 12, k);
      if k < 12 {
        ZeroBit(k);
      } else {
        SplitBits(w / PAGE_SIZE, 40, k - 12);
        SplitBits(w, 12, k - 12);
      }
    }
  }

  /** Bitwise or. */
  function Or(a: nat, b: nat): nat {
    if a == 0 && b == 0 then 0 else 2 * Or(a / 2, b / 2) + (if a % 2 == 1 || b % 2 == 1 then 1 else 0)
  }

  lemma {:induction false} OrBit(a: nat, b: nat, k: nat)
    ensures Bit(Or(a, b), k) <==> Bit(a, k) || Bit(b, k)
    decreases k, a + b
  {
    if a == 0 && b == 0 {
      ZeroBit(k);
    } else {
      assert Or(a, b) / 2 == Or(a / 2, b / 2) && Or(a, b) % 2 == (if a % 2 == 1 || b % 2 == 1 then 1 else 0);
      if k > 0 {
        OrBit(a / 2, b / 2, k - 1);
      }
    }
  }

  lemma {:induction false} OrBound(a: nat, b: nat, n: nat)
    requires a < Pow2(n) && b < Pow2(n)
    ensures Or(a, b) < Pow2(n)
  {
    if n > 0 && !(a == 0 && b == 0) {
      OrBound(a / 2, b / 2, n - 1);
    }
  }

  lemma Pow2Of64()
    ensures Pow2(64) == 0x1_0000_0000_0000_0000
  {
    assert Pow2(8) == 0x100;
    assert Pow2(16) == 0x1_0000;
    assert Pow2(24) == 0x100_0000;
    assert Pow2(32) == 0x1_0000_0000;
    assert Pow2(40) == 0x100_0000_0000;
    assert Pow2(48) == 0x1_0000_0000_0000;
    assert Pow2(56) == 0x100_0000_0000_0000;
  }

  /** The entry that map_page stores: (physical_address & mask) | flags | present. */
  function LeafEntry(physical: nat, flags: Word): (w: Word)
    ensures Bit(w, PRESENT) && (Bit(w, USER) <==> Bit(flags, USER))
    ensures Address(flags) == 0 ==> Address(w) == Address(physical)
    ensures forall k: nat :: Bit(w, k) <==> k == PRESENT || Bit(flags, k) || (12 <= k < 52 && Bit(physical, k))
  {
    LeafBits(physical, flags);
    assert Address(flags) == 0 ==> Address(Or(Or(Address(physical), flags), 1)) == Address(physical) by {
      if Address(flags) == 0 {
        LeafAddress(physical, flags);
      }
    }
    Or(Or(Address(physical), flags), 1)
  }

  function Quotient(a: nat, m: nat): (q: nat)
    requires m > 0
  {
    Arithmetic.DivLess(a, m, 0);
    a / m
  }

  /** Or works digit by digit, so also on the digits above and below a place. */
  lemma {:induction false} OrDiv(a: nat, b: nat, n: nat)
    ensures Quotient(Or(a, b), Pow2(n)) == Or(Quotient(a, Pow2(n)), Quotient(b, Pow2(n)))
  {
    if n > 0 {
      var h := Pow2(n - 1);
      OrHalf(a, b);
      OrDiv(a / 2, b / 2, n - 1);
      DivDiv(a, h);
      DivDiv(b, h);
      DivDiv(Or(a, b), h);
    }
  }

  lemma OrHalf(a: nat, b: nat)
    ensures Or(a, b) / 2 == Or(a / 2, b / 2)
    ensures Or(a, b) % 2 == if a % 2 == 1 || b % 2 == 1 then 1 else 0
  {
  }

  lemma {:induction false} OrMod(a: nat, b: nat, n: nat)
    ensures Or(a, b) % Pow2(n) == Or(a % Pow2(n), b % Pow2(n))
  {
    if n > 0 {
      var h := Pow2(n - 1);
      OrHalf(a, b);
      OrMod(a / 2, b / 2, n - 1);
      DivDiv(a, h);
      DivDiv(b, h);
      DivDiv(Or(a, b), h);
      var x, y := a % Pow2(n), b % Pow2(n);
      assert x / 2 == a / 2 % h && y / 2 == b / 2 % h && x % 2 == a % 2 && y % 2 == b % 2;
      OrHalf(x, y);
    }
  }

  lemma {:induction false} OrZero(a: nat)
    ensures Or(a, 0) == a
  {
    if a > 0 {
      OrZero(a / 2);
    }
  }

  /** Oring in a word without address bits keeps the address. */
  lemma OrAddress(a: nat, b: nat)
    requires Address(b) == 0
    ensures Address(Or(a, b)) == Address(a)
  {
    PageAndField();
    OrDiv(a, b, 12);
    OrMod(a / PAGE_SIZE, b / PAGE_SIZE, 40);
    assert b / PAGE_SIZE % 0x100_0000_0000 == 0;
    OrZero(a / PAGE_SIZE % 0x100_0000_0000);
  }

  lemma PageAndField()
    ensures Pow2(12) == PAGE_SIZE && Pow2(40) == 0x100_0000_0000
  {
    assert Pow2(8) == 0x100;
    assert Pow2(16) == 0x1_0000;
    assert Pow2(24) == 0x100_0000;
    assert Pow2(32) == 0x1_0000_0000;
  }

  lemma AddressTwice(w: nat)
    ensures Address(Address(w)) == Address(w)
  {
    var n := w / PAGE_SIZE % 0x100_0000_0000;
    Arithmetic.DivUnique(PAGE_SIZE * n, PAGE_SIZE, n, 0);
  }

  lemma LeafAddress(physical: nat, flags: Word)
    requires Address(flags) == 0
    ensures Address(Or(Or(Address(physical), flags), 1)) == Address(physical)
  {
    var a := Address(physical);
    AddressTwice(physical);
    OrAddress(a, flags);
    OrAddress(Or(a, flags), 1);
  }

  lemma LeafBits(physical: nat, flags: Word)
    ensures var w := Or(Or(Address(physical), flags), 1);
            && w < 0x1_0000_0000_0000_0000 && Bit(w, PRESENT) && (Bit(w, USER) <==> Bit(flags, USER))
            && forall k: nat :: Bit(w, k) <==> k == PRESENT || Bit(flags, k) || (12 <= k < 52 && Bit(physical, k))
  {
    var a := Address(physical);
    Pow2Of64();
    OrBound(a, flags, 64);
    OrBound(Or(a, flags), 1, 64);
    forall k: nat
      ensures Bit(Or(Or(a, flags), 1), k) <==> k == PRESENT || Bit(flags, k) || (12 <= k < 52 && Bit(physical, k))
    {
      OrBit(Or(a, flags), 1, k);
      OrBit(a, flags, k);
      OneBits(k);
    }
  }

  lemma OneBits(k: nat)
    ensures Bit(1, k) <==> k == 0
  {
    if k > 0 {
      ZeroBit(k - 1);
    }
  }

  /** A table entry with the user bit added. */
  function WithUser(w: Word): (r: Word)
    ensures Address(r) == Address(w) && (Bit(r, PRESENT) <==> Bit(w, PRESENT)) && Bit(r, USER)
    ensures forall k: nat :: k != USER ==> (Bit(r, k) <==> Bit(w, k))
  {
    UserBits(w);
    assert forall k: nat :: k != USER ==> (Bit(if w / 4 % 2 == 1 then w else w + 4, k) <==> Bit(w, k)) by {
      forall k: nat | k != USER
        ensures Bit(if w / 4 % 2 == 1 then w else w + 4, k) <==> Bit(w, k)
      {
        OtherBits(w, k);
      }
    }
    if w / 4 % 2 == 1 then w else w + 4
  }

  lemma UserBits(w: Word)
    ensures var r := if w / 4 % 2 == 1 then w else w + 4;
            && r < 0x1_0000_0000_0000_0000 && Address(r) == Address(w)
            && (Bit(r, PRESENT) <==> Bit(w, PRESENT)) && Bit(r, USER)
  {
    var r := if w / 4 % 2 == 1 then w else w + 4;
    UserDigits(w);
    assert r / PAGE_SIZE == w / PAGE_SIZE by { SamePageBits(r, w); }
    assert Bit(r, 2) <==> Bit(r / 2, 1);
    assert Bit(r / 2, 1) <==> Bit(r / 2 / 2, 0);
    assert r / 2 / 2 == r / 4;
  }

  lemma OtherBits(w: Word, k: nat)
    requires k != USER
    ensures Bit(if w / 4 % 2 == 1 then w else w + 4, k) <==> Bit(w, k)
  {
    var r := if w / 4 % 2 == 1 then w else w + 4;
    UserDigits(w);
    if k == 1 {
      DivDiv(r, 2);
      DivDiv(w, 2);
      assert r % 4 == w % 4;
      assert (Bit(r, 1) <==> Bit(r / 2, 0)) && (Bit(w, 1) <==> Bit(w / 2, 0));
    } else if k >= 3 {
      BitAbove(r, k);
      BitAbove(w, k);
    }
  }

  lemma BitAbove(w: nat, k: nat)
    requires k >= 3
    ensures Bit(w, k) <==> Bit(w / 8, k - 3)
  {
    DivDiv(w, 4);
    DivDiv(w / 2, 2);
    assert Bit(w, k) <==> Bit(w / 2, k - 1);
    assert Bit(w / 2, k - 1) <==> Bit(w / 2 / 2, k - 2);
    assert Bit(w / 2 / 2, k - 2) <==> Bit(w / 2 / 2 / 2, k - 3);
  }

  lemma UserDigits(w: Word)
    ensures var r := if w / 4 % 2 == 1 then w else w + 4;
            r / 8 == w / 8 && r / 4 % 2 == 1 && r % 2 == w % 2 && r % 4 == w % 4 && r < 0x1_0000_0000_0000_0000
  {
    var q, d := w / 8, w % 8;
    assert w == 8 * q + d;
    Halves(q, d);
    if d < 4 {
      Halves(q, d + 4);
    }
  }

  lemma Halves(q: nat, d: nat)
    requires d < 8
    ensures var w := 8 * q + d;
            w / 8 == q && w / 4 % 2 == (if d < 4 then 0 else 1) && w % 2 == d % 2
            && w % 4 == (if d < 4 then d else d - 4)
  {
    var w, h := 8 * q + d, if d < 4 then 0 else 1;
    Arithmetic.DivUnique(w, 8, q, d);
    Arithmetic.DivUnique(w, 4, 2 * q + h, d - 4 * h);
    Arithmetic.DivUnique(2 * q + h, 2, q, h);
    Arithmetic.DivUnique(d, 2, d / 2, d % 2);
    Arithmetic.DivUnique(w, 2, 4 * q + d / 2, d % 2);
  }

  lemma SamePageBits(a: nat, b: nat)
    requires a / 8 == b / 8
    ensures a / PAGE_SIZE == b / PAGE_SIZE
  {
    assert a / PAGE_SIZE == a / 8 / 512 && b / PAGE_SIZE == b / 8 / 512;
  }

  /** The entry for a new table: frame | present | writable | user as asked. */
  function TableEntry(frame: nat, user: bool): (w: Word)
    requires frame % PAGE_SIZE == 0 && frame < 0x10_0000_0000_0000
    ensures Address(w) == frame && Bit(w, PRESENT) && Bit(w, WRITABLE) && (user <==> Bit(w, USER))
    ensures forall k: nat :: k !in {PRESENT, WRITABLE, USER} ==> (Bit(w, k) <==> Bit(frame, k))
  {
    TableBits(frame, user);
    TableRest(frame, user);
    frame + 3 + (if user then 4 else 0)
  }

  lemma QuarterOf(w: nat)
    ensures w / 2 / 2 == w / 4
  {
    var q, d := w / 4, w % 4;
    Arithmetic.DivUnique(w, 2, 2 * q + d / 2, d % 2);
    Arithmetic.DivUnique(2 * q + d / 2, 2, q, d / 2);
  }

  lemma TableBits(frame: nat, user: bool)
    requires frame % PAGE_SIZE == 0 && frame < 0x10_0000_0000_0000
    ensures var w := frame + 3 + (if user then 4 else 0);
            Address(w) == frame && Bit(w, PRESENT) && Bit(w, WRITABLE) && (user <==> Bit(w, USER))
  {
    var low := 3 + (if user then 4 else 0);
    var w, k := frame + low, frame / PAGE_SIZE;
    assert frame == PAGE_SIZE * k;
    Arithmetic.DivUnique(w, PAGE_SIZE, k, low);
    Halves(512 * k, low);
    Arithmetic.DivUnique(w, 2, 2048 * k + low / 2, 1);
    Arithmetic.DivUnique(2048 * k + low / 2, 2, 1024 * k + low / 4, 1);
    assert Bit(w, 1) <==> Bit(w / 2, 0);
    QuarterOf(w);
    assert Bit(w, 2) <==> Bit(w / 2, 1);
    assert Bit(w / 2, 1) <==> Bit(w / 2 / 2, 0);
  }

  lemma TableRest(frame: nat, user: bool)
    requires frame % PAGE_SIZE == 0
    ensures var w := frame + 3 + (if user then 4 else 0);
            forall k: nat :: k !in {PRESENT, WRITABLE, USER} ==> (Bit(w, k) <==> Bit(frame, k))
  {
    hide Bit;
    var low := 3 + (if user then 4 else 0);
    PageAndField();
    forall k: nat | k >= 3
      ensures Bit(frame + low, k) <==> Bit(frame, k)
    {
      JoinedBits(frame / PAGE_SIZE, low, 12, k);
      JoinedBits(frame / PAGE_SIZE, 0, 12, k);
      assert Pow2(3) == 8;
      SmallBits(low, 3, k);
      ZeroBit(k);
    }
  }

  // ----- addresses

  /** The four table indices of a virtual address. */
  function Indices(va: nat): (p: seq<nat>)
    ensures |p| == 4 && IsPath(p)
  {
    [va / 0x80_0000_0000 % 512, va / 0x4000_0000 % 512, va / 0x20_0000 % 512, va / 0x1000 % 512]
  }

  ghost predicate IsPath(p: seq<nat>) {
    |p| <= 4 && forall i :: 0 <= i < |p| ==> p[i] < 512
  }

  /** Two addresses share their indices exactly when they are on the same page (48-bit addresses). */
  lemma SamePage(a: nat, b: nat)
    ensures Indices(a) == Indices(b) <==> a / 0x1000 % 0x10_0000_0000 == b / 0x1000 % 0x10_0000_0000
  {
    PageNumber(a);
    PageNumber(b);
    var x, y := Indices(a), Indices(b);
    if a / 0x1000 % 0x10_0000_0000 == b / 0x1000 % 0x10_0000_0000 {
      Digits512(x[0], x[1], x[2], x[3], y[0], y[1], y[2], y[3]);
      assert x == y;
    }
  }

  lemma Digits512(a0: nat, a1: nat, a2: nat, a3: nat, b0: nat, b1: nat, b2: nat, b3: nat)
    requires a0 < 512 && a1 < 512 && a2 < 512 && a3 < 512 && b0 < 512 && b1 < 512 && b2 < 512 && b3 < 512
    requires a0 * 0x800_0000 + a1 * 0x4_0000 + a2 * 512 + a3 == b0 * 0x800_0000 + b1 * 0x4_0000 + b2 * 512 + b3
    ensures a0 == b0 && a1 == b1 && a2 == b2 && a3 == b3
  {
  }

  lemma PageNumber(a: nat)
    ensures var p := Indices(a);
            a / 0x1000 % 0x10_0000_0000 == p[0] * 0x800_0000 + p[1] * 0x4_0000 + p[2] * 512 + p[3]
  {
    var n := a / 0x1000;
    assert a / 0x20_0000 == n / 512 && a / 0x4000_0000 == n / 512 / 512 && a / 0x80_0000_0000 == n / 512 / 512 / 512;
  }

  // ----- the tree

  /** The table that the path p leads to from the top table root. */
  ghost function Node(mem: Memory, root: nat, p: seq<nat>): (n: Option<nat>)
    requires IsPath(p)
  {
    if |p| == 0 then Some(root)
    else
      var n := Node(mem, root, p[..|p| - 1]);
      if n.None? || n.value !in mem || !Bit(mem[n.value][p[|p| - 1]], PRESENT) then None
      else Some(Address(mem[n.value][p[|p| - 1]]))
  }

  /** paging_page_flags: the last-level entry of a page, 0 when a table is missing on the way. */
  ghost function Flat(mem: Memory, root: nat, p: seq<nat>): (w: Word)
    requires IsPath(p) && |p| == 4
  {
    var n := Node(mem, root, p[..3]);
    if n.None? || n.value !in mem then 0 else mem[n.value][p[3]]
  }

  /** Every table on a path is there, and no two paths lead to the same table. */
  ghost predicate Tree(mem: Memory, root: nat) {
    && (forall p :: IsTablePath(p) && Node(mem, root, p).Some? ==> Node(mem, root, p).value in mem)
    && (forall p, q :: IsTablePath(p) && IsTablePath(q) && p != q && Node(mem, root, p).Some? ==>
          Node(mem, root, p) != Node(mem, root, q))
  }

  ghost predicate IsTablePath(p: seq<nat>) {
    IsPath(p) && |p| <= 3
  }

  /** The frames that hold tables of a space. */
  ghost predicate IsTable(mem: Memory, root: nat, f: nat) {
    exists p :: IsTablePath(p) && Node(mem, root, p) == Some(f)
  }

  /** Every table above a present user page lets user code through. */
  ghost predicate UserOpen(mem: Memory, root: nat) {
    forall p :: IsPath(p) && |p| == 4 && IsOpen(Flat(mem, root, p)) ==>
      UserPath(mem, root, p[..3])
  }

  predicate IsOpen(w: Word) {
    Bit(w, PRESENT) && Bit(w, USER)
  }

  /** All entries along a path of tables are present and carry the user bit. */
  ghost predicate UserPath(mem: Memory, root: nat, p: seq<nat>)
    requires IsPath(p)
  {
    |p| == 0 ||
    (var n := Node(mem, root, p[..|p| - 1]);
     && UserPath(mem, root, p[..|p| - 1])
     && n.Some? && n.value in mem && IsOpen(mem[n.value][p[|p| - 1]]))
  }

  /** Nothing that a program can see of the mapping differs. */
  ghost predicate SameFlat(mem: Memory, mem': Memory, root: nat) {
    forall p :: IsPath(p) && |p| == 4 ==> Flat(mem', root, p) == Flat(mem, root, p)
  }

  /** A table on the way to the page is missing. */
  ghost predicate LacksTable(mem: Memory, root: nat, va: nat) {
    Node(mem, root, Indices(va)[..3]).None?
  }

  lemma NoStep(mem: Memory, root: nat, p: seq<nat>, t: nat, i: nat)
    requires IsPath(p + [i]) && IsPath(p) && i < 512 && Node(mem, root, p) == Some(t)
    requires t in mem && !Bit(mem[t][i], PRESENT)
    ensures Node(mem, root, p + [i]).None?
  {
    hide Bit;
    assert (p + [i])[..|p|] == p;
  }

  /** A table that is missing while others have been hung in was missing before. */
  lemma LackedBefore(mem: Memory, mem': Memory, root: nat, va: nat, n: nat)
    requires Keeps(mem, mem', root) && 1 <= n <= 3 && Node(mem', root, Indices(va)[..n]).None?
    ensures LacksTable(mem, root, va)
  {
    hide Indices;
    var p := Indices(va);
    assert IsTablePath(p[..n]);
    NoneBelow(mem, root, p, n);
  }

  // ----- adding the user bit to an entry that is present

  function SetWord(mem: Memory, t: nat, i: nat, w: Word): Memory
    requires t in mem && i < 512
  {
    mem[t := mem[t][i := w]]
  }

  lemma {:induction false} UserNode(mem: Memory, root: nat, t: nat, i: nat, q: seq<nat>)
    requires t in mem && i < 512 && Bit(mem[t][i], PRESENT) && IsPath(q)
    ensures Node(SetWord(mem, t, i, WithUser(mem[t][i])), root, q) == Node(mem, root, q)
  {
    hide WithUser, Bit, Address;
    if |q| > 0 {
      UserNode(mem, root, t, i, q[..|q| - 1]);
    }
  }

  lemma UserTree(mem: Memory, root: nat, t: nat, i: nat, p: seq<nat>)
    requires Tree(mem, root) && t in mem && i < 512 && Bit(mem[t][i], PRESENT)
    requires IsPath(p) && |p| <= 2 && Node(mem, root, p) == Some(t)
    ensures var mem' := SetWord(mem, t, i, WithUser(mem[t][i]));
            Tree(mem', root) && SameFlat(mem, mem', root)
  {
    hide WithUser, Bit, Address, Node;
    var mem' := SetWord(mem, t, i, WithUser(mem[t][i]));
    forall q | IsPath(q)
      ensures Node(mem', root, q) == Node(mem, root, q)
    {
      UserNode(mem, root, t, i, q);
    }
    forall q | IsPath(q) && |q| == 4
      ensures Flat(mem', root, q) == Flat(mem, root, q)
    {
      assert IsTablePath(q[..3]) && IsTablePath(p) && q[..3] != p;
    }
  }

  /** What a change to tables above the last level may do to the nodes and entries of a space: tables
      stay where they are, and open entries stay open. */
  ghost predicate Keeps(mem: Memory, mem': Memory, root: nat) {
    && (forall q :: IsTablePath(q) && Node(mem, root, q).Some? ==> Node(mem', root, q) == Node(mem, root, q))
    && (forall q, i :: IsPath(q) && |q| <= 2 && 0 <= i < 512 && Node(mem, root, q).Some? ==>
          var n := Node(mem, root, q).value;
          n in mem && IsOpen(mem[n][i]) ==> n in mem' && IsOpen(mem'[n][i]))
  }

  lemma {:induction false} UserPathKept(mem: Memory, mem': Memory, root: nat, q: seq<nat>)
    requires Keeps(mem, mem', root) && IsTablePath(q) && UserPath(mem, root, q)
    ensures UserPath(mem', root, q)
  {
    hide IsOpen, Address, Node;
    if |q| > 0 {
      var r := q[..|q| - 1];
      UserPathKept(mem, mem', root, r);
      assert IsTablePath(r) && 0 <= q[|q| - 1] < 512;
    }
  }

  lemma UserOpenKept(mem: Memory, mem': Memory, root: nat)
    requires Keeps(mem, mem', root) && SameFlat(mem, mem', root) && UserOpen(mem, root)
    ensures UserOpen(mem', root)
  {
    hide IsOpen, Address, Node, UserPath, Flat, Keeps;
    forall p | IsPath(p) && |p| == 4 && IsOpen(Flat(mem', root, p))
      ensures UserPath(mem', root, p[..3])
    {
      UserPathKept(mem, mem', root, p[..3]);
    }
  }

  lemma UserKeeps(mem: Memory, root: nat, t: nat, i: nat)
    requires t in mem && i < 512 && Bit(mem[t][i], PRESENT)
    ensures Keeps(mem, SetWord(mem, t, i, WithUser(mem[t][i])), root)
  {
    hide WithUser, Bit, Address, Node;
    var mem' := SetWord(mem, t, i, WithUser(mem[t][i]));
    forall q | IsTablePath(q)
      ensures Node(mem', root, q) == Node(mem, root, q)
    {
      UserNode(mem, root, t, i, q);
    }
  }

  // ----- hanging in a new table

  function Zeroed(): (t: Table)
    ensures forall i :: 0 <= i < 512 ==> t[i] == 0
  {
    seq(512, _ => 0)
  }

  function AddTable(mem: Memory, t: nat, i: nat, f: nat, w: Word): Memory
    requires t in mem && i < 512
  {
    var cleared := mem[f := Zeroed()];
    cleared[t := cleared[t][i := w]]
  }

  lemma {:induction false} AddedNode(mem: Memory, root: nat, p: seq<nat>, t: nat, i: nat, f: nat, w: Word, q: seq<nat>)
    requires Tree(mem, root) && IsPath(p) && |p| <= 2 && Node(mem, root, p) == Some(t) && t in mem && i < 512 && t != f
    requires !Bit(mem[t][i], PRESENT) && Bit(w, PRESENT) && Address(w) == f && !IsTable(mem, root, f) && IsTablePath(q)
    ensures Node(AddTable(mem, t, i, f, w), root, q) == if q == p + [i] then Some(f) else Node(mem, root, q)
  {
    hide Address;
    var mem' := AddTable(mem, t, i, f, w);
    if |q| > 0 {
      var r, j := q[..|q| - 1], q[|q| - 1];
      AddedNode(mem, root, p, t, i, f, w, r);
      assert q == r + [j];
      if r == p + [i] {
        assert Node(mem, root, r).None?;
      } else if Node(mem, root, r).Some? {
        var n := Node(mem, root, r).value;
        assert n != f;
        if n == t {
          assert r == p;
        }
      }
    }
  }

  lemma AddedTree(mem: Memory, root: nat, p: seq<nat>, t: nat, i: nat, f: nat, w: Word)
    requires Tree(mem, root) && IsPath(p) && |p| <= 2 && Node(mem, root, p) == Some(t) && t in mem && i < 512 && t != f
    requires !Bit(mem[t][i], PRESENT) && Bit(w, PRESENT) && Address(w) == f && !IsTable(mem, root, f)
    ensures var mem' := AddTable(mem, t, i, f, w);
            && Tree(mem', root) && SameFlat(mem, mem', root) && Keeps(mem, mem', root)
            && IsTablePath(p + [i]) && Node(mem, root, p + [i]).None?
            && (forall q :: IsTablePath(q) ==>
                Node(mem', root, q) == if q == p + [i] then Some(f) else Node(mem, root, q))
  {
    hide Address, Node, Bit;
    var mem' := AddTable(mem, t, i, f, w);
    forall q | IsTablePath(q)
      ensures Node(mem', root, q) == if q == p + [i] then Some(f) else Node(mem, root, q)
      ensures q == p + [i] ==> Node(mem, root, q).None?
    {
      AddedNode(mem, root, p, t, i, f, w, q);
      if q == p + [i] {
        NoTableYet(mem, root, p, t, i);
      }
    }
    assert IsTablePath(p + [i]);
    AddedFlat(mem, mem', root, p, t, i, f, w);
  }

  lemma NoTableYet(mem: Memory, root: nat, p: seq<nat>, t: nat, i: nat)
    requires IsPath(p) && |p| <= 2 && Node(mem, root, p) == Some(t) && t in mem && i < 512 && !Bit(mem[t][i], PRESENT)
    ensures IsPath(p + [i]) && Node(mem, root, p + [i]).None?
  {
    assert (p + [i])[..|p|] == p;
  }

  lemma AddedFlat(mem: Memory, mem': Memory, root: nat, p: seq<nat>, t: nat, i: nat, f: nat, w: Word)
    requires Tree(mem, root) && IsPath(p) && |p| <= 2 && Node(mem, root, p) == Some(t) && t in mem && i < 512 && t != f
    requires mem' == AddTable(mem, t, i, f, w) && !Bit(mem[t][i], PRESENT) && !IsTable(mem, root, f)
             && IsTablePath(p + [i])
    requires forall q :: IsTablePath(q) ==> Node(mem', root, q) == if q == p + [i] then Some(f) else Node(mem, root, q)
    requires Node(mem, root, p + [i]).None?
    ensures SameFlat(mem, mem', root) && Keeps(mem, mem', root)
  {
    hide Address, Node, Bit;
    forall q | IsPath(q) && |q| == 4
      ensures Flat(mem', root, q) == Flat(mem, root, q)
    {
      assert IsTablePath(q[..3]) && IsTablePath(p) && q[..3] != p;
    }
    forall q, j | IsPath(q) && |q| <= 2 && 0 <= j < 512 && Node(mem, root, q).Some?
      ensures var n := Node(mem, root, q).value;
              n in mem && IsOpen(mem[n][j]) ==> n in mem' && IsOpen(mem'[n][j])
    {
      assert IsTablePath(q) && Node(mem, root, q).value != f;
    }
  }

  // ----- setting a last-level entry

  lemma {:induction false} LeafNode(mem: Memory, root: nat, p: seq<nat>, t: nat, i: nat, w: Word, q: seq<nat>)
    requires Tree(mem, root) && IsPath(p) && |p| == 3 && Node(mem, root, p) == Some(t) && t in mem && i < 512
             && IsTablePath(q)
    ensures Node(SetWord(mem, t, i, w), root, q) == Node(mem, root, q)
  {
    hide Address, Bit;
    if |q| > 0 {
      var r := q[..|q| - 1];
      LeafNode(mem, root, p, t, i, w, r);
      assert IsTablePath(r) && IsTablePath(p) && r != p;
    }
  }

  lemma LeafTree(mem: Memory, root: nat, p: seq<nat>, t: nat, i: nat, w: Word)
    requires Tree(mem, root) && IsPath(p) && |p| == 3 && Node(mem, root, p) == Some(t) && t in mem && i < 512
    ensures var mem' := SetWord(mem, t, i, w);
            && Tree(mem', root) && Keeps(mem, mem', root)
               && (forall g :: IsTable(mem', root, g) <==> IsTable(mem, root, g))
            && (forall q :: IsTablePath(q) ==> Node(mem', root, q) == Node(mem, root, q))
            && (forall q :: IsPath(q) && |q| == 4 ==>
                Flat(mem', root, q) == if q == p + [i] then w else Flat(mem, root, q))
  {
    hide Address, Bit, Node;
    var mem' := SetWord(mem, t, i, w);
    forall q | IsTablePath(q)
      ensures Node(mem', root, q) == Node(mem, root, q)
    {
      LeafNode(mem, root, p, t, i, w, q);
    }
    forall q | IsPath(q) && |q| == 4
      ensures Flat(mem', root, q) == if q == p + [i] then w else Flat(mem, root, q)
    {
      assert IsTablePath(q[..3]) && IsTablePath(p);
      assert q == q[..3] + [q[3]];
    }
    forall q, j | IsPath(q) && |q| <= 2 && 0 <= j < 512 && Node(mem, root, q).Some?
      ensures var n := Node(mem, root, q).value;
              n in mem && IsOpen(mem[n][j]) ==> n in mem' && IsOpen(mem'[n][j])
    {
      assert IsTablePath(q) && IsTablePath(p) && q != p;
    }
  }

  // ----- spaces that do not have the changed table

  ghost predicate Untouched(mem: Memory, mem': Memory, root: nat) {
    forall q :: IsTablePath(q) && Node(mem, root, q).Some? ==>
      var n := Node(mem, root, q).value; n in mem ==> n in mem' && mem'[n] == mem[n]
  }

  lemma {:induction false} UntouchedNode(mem: Memory, mem': Memory, root: nat, q: seq<nat>)
    requires Tree(mem, root) && Untouched(mem, mem', root) && IsTablePath(q)
    ensures Node(mem', root, q) == Node(mem, root, q)
  {
    hide Address, Bit;
    if |q| > 0 {
      var r := q[..|q| - 1];
      UntouchedNode(mem, mem', root, r);
      assert IsTablePath(r);
    }
  }

  lemma UntouchedTree(mem: Memory, mem': Memory, root: nat)
    requires Tree(mem, root) && Untouched(mem, mem', root)
    ensures Tree(mem', root) && SameFlat(mem, mem', root)
            && (forall g :: IsTable(mem', root, g) <==> IsTable(mem, root, g))
    ensures forall q :: IsTablePath(q) ==> Node(mem', root, q) == Node(mem, root, q)
  {
    hide Address, Bit, Node;
    forall q | IsTablePath(q)
      ensures Node(mem', root, q) == Node(mem, root, q)
    {
      UntouchedNode(mem, mem', root, q);
    }
    forall q | IsPath(q) && |q| == 4
      ensures Flat(mem', root, q) == Flat(mem, root, q)
    {
      assert IsTablePath(q[..3]);
    }
  }

  lemma UntouchedKeeps(mem: Memory, mem': Memory, root: nat)
    requires Tree(mem, root) && Untouched(mem, mem', root)
    ensures Keeps(mem, mem', root)
  {
    hide Node, IsOpen;
    UntouchedTree(mem, mem', root);
    forall q, i | IsPath(q) && |q| <= 2 && 0 <= i < 512 && Node(mem, root, q).Some?
      ensures var n := Node(mem, root, q).value;
              n in mem && IsOpen(mem[n][i]) ==> n in mem' && IsOpen(mem'[n][i])
    {
      assert IsTablePath(q);
    }
  }

  // ----- all spaces together

  /** A table that two spaces share is at the same place in both, in the upper half, under a top-level
      entry that leads both to the same table. */
  ghost predicate Apart(mem: Memory, a: nat, b: nat) {
    forall p, q :: IsTablePath(p) && IsTablePath(q) && Node(mem, a, p).Some? && Node(mem, a, p) == Node(mem, b, q) ==>
      p == q && |p| >= 1 && p[0] >= 256 && Shared(mem, a, b, p[0])
  }

  /** The top-level entries at index i of two spaces lead to the same table. */
  ghost predicate Shared(mem: Memory, a: nat, b: nat, i: nat) {
    i < 512 && IsPath([i]) && Node(mem, a, [i]).Some? && Node(mem, a, [i]) == Node(mem, b, [i])
  }

  /** Every space is a tree of live frames, and any two are apart. */
  ghost predicate System(mem: Memory, live: set<nat>, roots: set<nat>) {
    && (forall r :: r in roots ==> Tree(mem, r) && forall f :: IsTable(mem, r, f) ==> f in live)
    && (forall a, b :: a in roots && b in roots && a != b ==> Apart(mem, a, b))
  }

  /** Either the space reaches table t by path p, or it does not have it. */
  lemma SameOrNone(mem: Memory, live: set<nat>, roots: set<nat>, a: nat, b: nat, p: seq<nat>, t: nat)
    requires System(mem, live, roots) && a in roots && b in roots && IsTablePath(p) && Node(mem, a, p) == Some(t)
    ensures Node(mem, b, p) == Some(t) || !IsTable(mem, b, t)
    ensures a != b && Node(mem, b, p) == Some(t) ==> |p| >= 1 && p[0] >= 256 && Shared(mem, a, b, p[0])
  {
    hide Node, Tree;
    if a != b && IsTable(mem, b, t) {
      var q :| IsTablePath(q) && Node(mem, b, q) == Some(t);
      assert Apart(mem, a, b);
    }
  }

  lemma ElsewhereUntouched(mem: Memory, mem': Memory, b: nat, t: nat, f: nat)
    requires !IsTable(mem, b, t) && !IsTable(mem, b, f)
    requires forall n :: n in mem && n != t && n != f ==> n in mem' && mem'[n] == mem[n]
    ensures Untouched(mem, mem', b)
  {
    hide Node;
  }

  /** Setting the user bit in a table above the last level changes no mapping of any space. */
  lemma SystemUser(mem: Memory, live: set<nat>, roots: set<nat>, a: nat, p: seq<nat>, t: nat, i: nat)
    requires System(mem, live, roots) && a in roots && IsPath(p) && |p| <= 2 && Node(mem, a, p) == Some(t)
    requires t in mem && i < 512 && Bit(mem[t][i], PRESENT)
    ensures var mem' := SetWord(mem, t, i, WithUser(mem[t][i]));
            System(mem', live, roots) && forall r :: r in roots ==> SameFlat(mem, mem', r) && Keeps(mem, mem', r)
  {
    hide Node, Tree, WithUser, Bit, SameFlat, Address, Keeps;
    var mem' := SetWord(mem, t, i, WithUser(mem[t][i]));
    forall r | r in roots
      ensures Tree(mem', r) && SameFlat(mem, mem', r) && Keeps(mem, mem', r)
      ensures forall q :: IsTablePath(q) ==> Node(mem', r, q) == Node(mem, r, q)
    {
      UserKeeps(mem, r, t, i);
      forall q | IsTablePath(q)
        ensures Node(mem', r, q) == Node(mem, r, q)
      {
        UserNode(mem, r, t, i, q);
      }
      SameOrNone(mem, live, roots, a, r, p, t);
      if Node(mem, r, p) == Some(t) {
        UserTree(mem, r, t, i, p);
      } else {
        ElsewhereUntouched(mem, mem', r, t, t);
        UntouchedTree(mem, mem', r);
      }
    }
    SameSystem(mem, mem', live, roots);
  }

  lemma SameSystem(mem: Memory, mem': Memory, live: set<nat>, roots: set<nat>)
    requires System(mem, live, roots)
    requires forall r :: r in roots ==> Tree(mem', r)
    requires forall r, q :: r in roots && IsTablePath(q) ==> Node(mem', r, q) == Node(mem, r, q)
    ensures System(mem', live, roots)
  {
    hide Node, Tree;
    forall r, f | r in roots && IsTable(mem', r, f)
      ensures f in live
    {
      assert IsTable(mem, r, f);
    }
    forall a, b | a in roots && b in roots && a != b
      ensures Apart(mem', a, b)
    {
      assert Apart(mem, a, b);
      forall i | 0 <= i < 512 && Shared(mem, a, b, i)
        ensures Shared(mem', a, b, i)
      {
        assert IsTablePath([i]);
      }
    }
  }

  /** Hanging a new frame in as a table changes no mapping of any space. */
  lemma SystemAdd(mem: Memory, live: set<nat>, roots: set<nat>, a: nat, p: seq<nat>, t: nat, i: nat, f: nat, w: Word)
    requires System(mem, live, roots) && a in roots && IsPath(p) && |p| <= 2 && Node(mem, a, p) == Some(t)
    requires t in mem && i < 512 && !Bit(mem[t][i], PRESENT) && Bit(w, PRESENT) && Address(w) == f && f !in live
    ensures var mem' := AddTable(mem, t, i, f, w);
            System(mem', live + {f}, roots) && forall r :: r in roots ==> SameFlat(mem, mem', r) && Keeps(mem, mem', r)
  {
    hide Node, Tree, Bit, SameFlat, Address, Keeps;
    var mem' := AddTable(mem, t, i, f, w);
    assert IsTablePath(p + [i]) && IsTable(mem, a, t);
    forall r | r in roots
      ensures Tree(mem', r) && SameFlat(mem, mem', r) && Keeps(mem, mem', r)
      ensures Node(mem, r, p) == Some(t) ==> Node(mem, r, p + [i]).None?
      ensures forall q :: IsTablePath(q) ==>
                Node(mem', r, q) == if q == p + [i] && Node(mem, r, p) == Some(t) then Some(f) else Node(mem, r, q)
    {
      SameOrNone(mem, live, roots, a, r, p, t);
      if Node(mem, r, p) == Some(t) {
        AddedTree(mem, r, p, t, i, f, w);
        NoTableYet(mem, r, p, t, i);
      } else {
        ElsewhereUntouched(mem, mem', r, t, f);
        UntouchedTree(mem, mem', r);
        UntouchedKeeps(mem, mem', r);
      }
    }
    AddedSystem(mem, mem', live, roots, a, p, t, i, f);
  }

  /** Sharing is not lost when tables only come in addition. */
  lemma SharedGrows(mem: Memory, mem': Memory, x: nat, y: nat, i: nat)
    requires Shared(mem, x, y, i)
    requires forall q :: IsTablePath(q) && Node(mem, x, q).Some? ==> Node(mem', x, q) == Node(mem, x, q)
    requires forall q :: IsTablePath(q) && Node(mem, y, q).Some? ==> Node(mem', y, q) == Node(mem, y, q)
    ensures Shared(mem', x, y, i)
  {
    hide Node;
    assert IsTablePath([i]);
  }

  lemma AddedSystem(mem: Memory, mem': Memory, live: set<nat>, roots: set<nat>, a: nat, p: seq<nat>, t: nat, i: nat,
                    f: nat)
    requires System(mem, live, roots) && a in roots && IsTablePath(p) && IsTablePath(p + [i])
             && Node(mem, a, p) == Some(t) && f !in live
    requires forall r :: r in roots && Node(mem, r, p) == Some(t) ==> Node(mem, r, p + [i]).None?
    requires forall r :: r in roots ==> Tree(mem', r)
    requires forall r, q :: r in roots && IsTablePath(q) ==>
               Node(mem', r, q) == if q == p + [i] && Node(mem, r, p) == Some(t) then Some(f) else Node(mem, r, q)
    ensures System(mem', live + {f}, roots)
  {
    hide Node, Tree;
    forall r, g | r in roots && IsTable(mem', r, g)
      ensures g in live + {f}
    {
      assert g == f || IsTable(mem, r, g);
    }
    forall x, y | x in roots && y in roots && x != y
      ensures Apart(mem', x, y)
    {
      forall c, d | IsTablePath(c) && IsTablePath(d) && Node(mem', x, c).Some? && Node(mem', x, c) == Node(mem', y, d)
        ensures c == d && |c| >= 1 && c[0] >= 256 && Shared(mem', x, y, c[0])
      {
        assert Apart(mem, x, y);
        var g := Node(mem', x, c).value;
        if g == f {
          assert !IsTable(mem, x, f) && !IsTable(mem, y, f);
          assert Node(mem, x, p) == Some(t) && Node(mem, y, p) == Some(t);
        }
        assert Shared(mem, x, y, c[0]);
        SharedGrows(mem, mem', x, y, c[0]);
      }
    }
  }

  /** Setting a last-level entry changes one page of its space, and no lower-half page of another. */
  lemma SystemLeaf(mem: Memory, live: set<nat>, roots: set<nat>, a: nat, p: seq<nat>, t: nat, i: nat, w: Word)
    requires System(mem, live, roots) && a in roots && IsPath(p) && |p| == 3 && Node(mem, a, p) == Some(t) && t in mem
             && i < 512
    ensures var mem' := SetWord(mem, t, i, w);
            && System(mem', live, roots)
            && (forall q :: IsPath(q) && |q| == 4 ==> Flat(mem', a, q) == if q == p + [i] then w else Flat(mem, a, q))
            && (forall b :: b in roots && b != a ==> SameLower(mem, mem', b))
  {
    hide Node, Tree, Bit, Address, Flat, Keeps;
    var mem' := SetWord(mem, t, i, w);
    LeafTree(mem, a, p, t, i, w);
    forall r | r in roots
      ensures Tree(mem', r) && (r != a ==> SameLower(mem, mem', r))
      ensures forall q :: IsTablePath(q) ==> Node(mem', r, q) == Node(mem, r, q)
    {
      SameOrNone(mem, live, roots, a, r, p, t);
      if Node(mem, r, p) == Some(t) {
        LeafTree(mem, r, p, t, i, w);
      } else {
        ElsewhereUntouched(mem, mem', r, t, t);
        UntouchedTree(mem, mem', r);
      }
    }
    SameSystem(mem, mem', live, roots);
  }

  /** The mapping of the lower half is the same. */
  ghost predicate SameLower(mem: Memory, mem': Memory, root: nat) {
    forall q :: IsPath(q) && |q| == 4 && q[0] < 256 ==> Flat(mem', root, q) == Flat(mem, root, q)
  }

  // ----- small steps for the operations

  lemma InTree(mem: Memory, live: set<nat>, roots: set<nat>, root: nat, p: seq<nat>, t: nat)
    requires System(mem, live, roots) && root in roots && IsTablePath(p) && Node(mem, root, p) == Some(t)
    ensures Tree(mem, root) && t in mem && t in live
  {
    hide Node;
    assert IsTable(mem, root, t);
  }

  lemma NodeStep(mem: Memory, root: nat, p: seq<nat>, t: nat, i: nat)
    requires IsPath(p) && |p| <= 2 && i < 512 && Node(mem, root, p) == Some(t) && t in mem && Bit(mem[t][i], PRESENT)
    ensures IsTablePath(p + [i]) && Node(mem, root, p + [i]) == Some(Address(mem[t][i]))
  {
    assert (p + [i])[..|p|] == p;
  }

  lemma OpenStep(mem: Memory, root: nat, p: seq<nat>, t: nat, i: nat)
    requires IsPath(p) && |p| <= 2 && i < 512 && Node(mem, root, p) == Some(t) && t in mem && IsOpen(mem[t][i])
    requires UserPath(mem, root, p)
    ensures IsTablePath(p + [i]) && UserPath(mem, root, p + [i])
  {
    hide IsOpen, Node;
    assert (p + [i])[..|p|] == p;
  }

  lemma KeepsNode(mem: Memory, mem': Memory, root: nat, p: seq<nat>, t: nat)
    requires Keeps(mem, mem', root) && IsTablePath(p) && Node(mem, root, p) == Some(t)
    ensures Node(mem', root, p) == Some(t)
  {
    hide Node, IsOpen;
  }

  lemma SameFlatSelf(mem: Memory, roots: set<nat>)
    ensures forall r :: r in roots ==> SameFlat(mem, mem, r)
  {
  }

  lemma SameFlatTrans(mem: Memory, mem': Memory, mem'': Memory, roots: set<nat>)
    requires forall r :: r in roots ==> SameFlat(mem, mem', r) && SameFlat(mem', mem'', r)
    ensures forall r :: r in roots ==> SameFlat(mem, mem'', r)
  {
    hide Flat;
  }

  // ----- who stays open to user code

  /** The top tables of the other spaces are as they were. */
  ghost predicate TopsKept(mem: Memory, mem': Memory, roots: set<nat>, root: nat) {
    forall s :: s in roots && s != root ==> s in mem && s in mem' && mem'[s] == mem[s]
  }

  lemma TopsApart(mem: Memory, live: set<nat>, roots: set<nat>, root: nat, p: seq<nat>, t: nat)
    requires System(mem, live, roots) && root in roots && IsTablePath(p) && Node(mem, root, p) == Some(t)
    ensures forall s :: s in roots && s != root ==> s != t && s in mem && s in live
  {
    hide Node;
    forall s | s in roots && s != root
      ensures s != t && s in mem && s in live
    {
      RootNode(mem, s);
      InTree(mem, live, roots, s, [], s);
      assert Apart(mem, root, s);
    }
  }

  lemma KeepsAll(mem: Memory, mem': Memory, mem'': Memory, roots: set<nat>, root: nat)
    requires forall r :: r in roots ==> Keeps(mem, mem', r) && Keeps(mem', mem'', r)
    requires TopsKept(mem, mem', roots, root) && TopsKept(mem', mem'', roots, root)
    ensures forall r :: r in roots ==> Keeps(mem, mem'', r)
    ensures TopsKept(mem, mem'', roots, root)
  {
    hide Node, IsOpen;
    forall r | r in roots
      ensures Keeps(mem, mem'', r)
    {
      assert Keeps(mem, mem', r) && Keeps(mem', mem'', r);
      forall q | IsTablePath(q) && Node(mem, r, q).Some?
        ensures Node(mem'', r, q) == Node(mem, r, q)
      {
        assert Node(mem', r, q) == Node(mem, r, q);
      }
      forall q, i | IsPath(q) && |q| <= 2 && 0 <= i < 512 && Node(mem, r, q).Some?
        ensures var n := Node(mem, r, q).value;
                n in mem && IsOpen(mem[n][i]) ==> n in mem'' && IsOpen(mem''[n][i])
      {
        assert IsTablePath(q) && Node(mem', r, q) == Node(mem, r, q);
      }
    }
  }

  lemma KeepsSelf(mem: Memory, live: set<nat>, roots: set<nat>, root: nat)
    requires System(mem, live, roots) && (root in roots || root == 0)
    ensures (forall r :: r in roots ==> Keeps(mem, mem, r)) && TopsKept(mem, mem, roots, root)
  {
    hide Node, IsOpen;
    forall s | s in roots && s != root
      ensures s in mem
    {
      RootNode(mem, s);
      InTree(mem, live, roots, s, [], s);
    }
  }

  /** Below a shared top-level entry two spaces are the same. */
  lemma {:induction false} SharedBelow(mem: Memory, a: nat, b: nat, q: seq<nat>)
    requires IsPath(q) && |q| >= 1 && Shared(mem, a, b, q[0])
    ensures Node(mem, a, q) == Node(mem, b, q)
  {
    hide Address, Bit;
    if |q| > 1 {
      SharedBelow(mem, a, b, q[..|q| - 1]);
    } else {
      assert q == [q[0]];
    }
  }

  lemma {:induction false} SharedUserPath(mem: Memory, a: nat, b: nat, q: seq<nat>)
    requires IsTablePath(q) && |q| >= 1 && Shared(mem, a, b, q[0]) && UserPath(mem, a, q) && b in mem
             && IsOpen(mem[b][q[0]])
    ensures UserPath(mem, b, q)
  {
    hide Node, IsOpen;
    if |q| > 1 {
      var r := q[..|q| - 1];
      SharedUserPath(mem, a, b, r);
      SharedBelow(mem, a, b, r);
    } else {
      assert q[..0] == [];
      RootNode(mem, b);
    }
  }

  lemma {:induction false} UserPathTop(mem: Memory, b: nat, q: seq<nat>)
    requires IsTablePath(q) && |q| >= 1 && UserPath(mem, b, q)
    ensures b in mem && IsOpen(mem[b][q[0]])
  {
    hide Node, IsOpen;
    if |q| > 1 {
      UserPathTop(mem, b, q[..|q| - 1]);
    } else {
      assert q[..0] == [];
      RootNode(mem, b);
    }
  }

  /** Mapping a user page under an index that space b shares, while b's own entry there is closed. */
  ghost predicate LeavesClosed(mem: Memory, a: nat, b: nat, i: nat, flags: Word)
    requires b in mem && i < 512
  {
    Bit(flags, USER) && Shared(mem, a, b, i) && !IsOpen(mem[b][i])
  }

  /** What setting a last-level entry of space a does to the user pages of another space: they stay open
      unless the entry is a user page, b shares it, and b's own top-level entry is closed. */
  lemma OtherLeaf(mem: Memory, live: set<nat>, roots: set<nat>, a: nat, b: nat, p: seq<nat>, t: nat, i: nat, w: Word)
    requires System(mem, live, roots) && a in roots && b in roots && a != b && UserOpen(mem, b)
    requires IsPath(p) && |p| == 3 && Node(mem, a, p) == Some(t) && t in mem && i < 512 && b in mem
    requires Bit(w, PRESENT) && (Bit(w, USER) ==> UserPath(mem, a, p))
    ensures UserOpen(SetWord(mem, t, i, w), b) <==> !LeavesClosed(mem, a, b, p[0], w)
  {
    hide Node, Tree, Bit, Keeps, UserPath, Flat, System, SetWord, UserOpen, Shared;
    var mem' := SetWord(mem, t, i, w);
    InTree(mem, live, roots, a, p, t);
    SystemTree(mem, live, roots, b);
    SameOrNone(mem, live, roots, a, b, p, t);
    if Node(mem, b, p) == Some(t) {
      if !LeavesClosed(mem, a, b, p[0], w) {
        if Bit(w, USER) {
          SharedUserPath(mem, a, b, p);
        }
        LeafOpen(mem, b, p, t, i, w);
      } else {
        TopsApart(mem, live, roots, a, p, t);
        NowClosed(mem, b, p, t, i, w);
      }
    } else {
      if Shared(mem, a, b, p[0]) {
        SharedBelow(mem, a, b, p);
      }
      SetElsewhere(mem, t, i, w);
      ElsewhereUntouched(mem, mem', b, t, t);
      UntouchedTree(mem, mem', b);
      UntouchedKeeps(mem, mem', b);
      UserOpenKept(mem, mem', b);
    }
  }

  lemma SystemTree(mem: Memory, live: set<nat>, roots: set<nat>, b: nat)
    requires System(mem, live, roots) && b in roots
    ensures Tree(mem, b)
  {
  }

  lemma SetElsewhere(mem: Memory, t: nat, i: nat, w: Word)
    requires t in mem && i < 512
    ensures forall n :: n in mem && n != t ==> n in SetWord(mem, t, i, w) && SetWord(mem, t, i, w)[n] == mem[n]
  {
  }

  /** An open page behind a closed top-level entry. */
  lemma NowClosed(mem: Memory, b: nat, p: seq<nat>, t: nat, i: nat, w: Word)
    requires Tree(mem, b) && IsPath(p) && |p| == 3 && Node(mem, b, p) == Some(t) && t in mem && i < 512
    requires b in mem && b != t && IsOpen(w) && !IsOpen(mem[b][p[0]])
    ensures !UserOpen(SetWord(mem, t, i, w), b)
  {
    hide Node, Tree, IsOpen, Keeps, UserPath, Flat;
    var mem' := SetWord(mem, t, i, w);
    LeafTree(mem, b, p, t, i, w);
    var q := p + [i];
    assert IsPath(q) && q[..3] == p && IsOpen(Flat(mem', b, q));
    if UserPath(mem', b, q[..3]) {
      UserPathTop(mem', b, p);
    }
  }

  lemma StaysOpen(mem: Memory, mem': Memory, roots: set<nat>)
    requires forall r :: r in roots ==> SameFlat(mem, mem', r) && Keeps(mem, mem', r)
    ensures forall r :: r in roots && UserOpen(mem, r) ==> UserOpen(mem', r)
  {
    hide Keeps, SameFlat, UserOpen;
    forall r | r in roots && UserOpen(mem, r)
      ensures UserOpen(mem', r)
    {
      UserOpenKept(mem, mem', r);
    }
  }

  /** Every other space after a page has been mapped. */
  lemma OtherSpaces(mem: Memory, mem': Memory, live: set<nat>, live': set<nat>, roots: set<nat>, a: nat, p: seq<nat>,
                    t1: nat, t: nat, i: nat, w: Word, flags: Word)
    requires System(mem, live, roots) && System(mem', live', roots) && a in roots && TopsKept(mem, mem', roots, a)
    requires forall r :: r in roots ==> Keeps(mem, mem', r) && (UserOpen(mem, r) ==> UserOpen(mem', r))
    requires IsPath(p) && |p| == 3 && Node(mem', a, p) == Some(t) && t in mem' && i < 512
    requires IsPath([p[0]]) && Node(mem', a, [p[0]]) == Some(t1) && (Node(mem, a, [p[0]]).None? ==> t1 !in live)
    requires Bit(w, PRESENT) && (Bit(w, USER) <==> Bit(flags, USER)) && (Bit(w, USER) ==> UserPath(mem', a, p))
    ensures forall b :: b in roots && b != a && UserOpen(mem, b) ==>
              b in mem && (UserOpen(SetWord(mem', t, i, w), b) <==> !LeavesClosed(mem, a, b, p[0], flags))
  {
    hide Node, Bit, System, Keeps, UserPath, UserOpen, SetWord, Shared;
    forall b | b in roots && b != a && UserOpen(mem, b)
      ensures b in mem && (UserOpen(SetWord(mem', t, i, w), b) <==> !LeavesClosed(mem, a, b, p[0], flags))
    {
      SharedSame(mem, mem', live, roots, a, b, p[0], t1);
      OtherLeaf(mem', live', roots, a, b, p, t, i, w);
    }
  }

  /** New tables change neither which top-level entries are shared nor the other spaces' own entries. */
  lemma SharedSame(mem: Memory, mem': Memory, live: set<nat>, roots: set<nat>, a: nat, b: nat, i: nat, t: nat)
    requires System(mem, live, roots) && a in roots && b in roots && a != b && i < 512
    requires Keeps(mem, mem', a) && Keeps(mem, mem', b) && TopsKept(mem, mem', roots, a)
    requires IsPath([i]) && Node(mem', a, [i]) == Some(t) && (Node(mem, a, [i]).None? ==> t !in live)
    ensures Shared(mem, a, b, i) <==> Shared(mem', a, b, i)
  {
    hide Keeps, Bit, Address, Tree;
    assert IsTablePath([i]);
    if Shared(mem, a, b, i) {
      KeepsNode(mem, mem', a, [i], Node(mem, a, [i]).value);
      KeepsNode(mem, mem', b, [i], Node(mem, b, [i]).value);
    } else if Shared(mem', a, b, i) {
      assert [i][..0] == [];
      assert Node(mem, b, [i]) == Node(mem', b, [i]) == Some(t);
      assert IsTable(mem, b, t);
      if Node(mem, a, [i]).Some? {
        KeepsNode(mem, mem', a, [i], Node(mem, a, [i]).value);
      }
    }
  }

  lemma UsableBounds(memoryMap: seq<Region>, f: nat)
    requires Usable(memoryMap, f) && forall i :: 0 <= i < |memoryMap| ==> End(memoryMap[i]) <= 0x10_0000_0000_0000
    ensures f % PAGE_SIZE == 0 && f < 0x10_0000_0000_0000
  {
    var i :| 0 <= i < |memoryMap| && InRegion(memoryMap[i], f);
  }

  // ----- the operations

  class Mmu {
    var mem: Memory
    const alloc: Allocator

    /** Physical addresses have 52 bits. */
    ghost predicate Valid()
      reads this, alloc
    {
      alloc.Valid() && forall i :: 0 <= i < |alloc.memoryMap| ==> End(alloc.memoryMap[i]) <= 0x10_0000_0000_0000
    }

    constructor (alloc: Allocator)
      ensures this.alloc == alloc && mem == map[]
    {
      this.alloc := alloc;
      mem := map[];
    }

    method AllocateFrame() returns (f: nat)
      requires Valid()
      modifies alloc
      ensures Valid() && alloc.lost == old(alloc.lost) && alloc.freed == old(alloc.freed)
      ensures f == 0 ==> alloc.live == old(alloc.live) && alloc.Exhausted()
      ensures f != 0 ==> f !in old(alloc.live) && alloc.live == old(alloc.live) + {f}
      ensures f != 0 ==> f % PAGE_SIZE == 0 && f < 0x10_0000_0000_0000
    {
      hide Books, Behind, All, ValidMap, Frames.Within, Frames.AheadOf, Usable;
      f := alloc.Allocate();
      if f != 0 {
        UsableBounds(alloc.memoryMap, f);
      }
    }

    /** next_table: follow an entry to the next table, or hang in a new, empty one. */
    method NextTable(t: nat, i: nat, flags: Word, ghost root: nat, ghost p: seq<nat>, ghost roots: set<nat>)
        returns (r: nat)
      requires Valid() && System(mem, alloc.live, roots) && root in roots
      requires IsPath(p) && |p| <= 2 && i < 512 && IsPath(p + [i]) && Node(mem, root, p) == Some(t)
      requires Bit(flags, USER) ==> UserPath(mem, root, p)
      modifies this`mem, alloc
      ensures Valid() && System(mem, alloc.live, roots)
      ensures forall s :: s in roots ==> SameFlat(old(mem), mem, s) && Keeps(old(mem), mem, s)
      ensures TopsKept(old(mem), mem, roots, root)
      ensures r != 0 && Node(old(mem), root, p + [i]).None? ==> r !in old(alloc.live)
      ensures r != 0 ==> Node(mem, root, p + [i]) == Some(r) && (Bit(flags, USER) ==> UserPath(mem, root, p + [i]))
      ensures alloc.lost == old(alloc.lost) && old(alloc.live) <= alloc.live
      ensures r == 0 ==> Node(old(mem), root, p + [i]).None? && alloc.Exhausted()
    {
      hide Books, Behind, All, ValidMap, Frames.Within, End, Usable, Node, Tree, Bit, SameFlat, Address, System,
           UserOpen, UserPath, WithUser, TableEntry, AddTable, SetWord, Keeps, IsTable;
      InTree(mem, alloc.live, roots, root, p, t);
      TopsApart(mem, alloc.live, roots, root, p, t);
      KeepsSelf(mem, alloc.live, roots, root);
      SameFlatSelf(mem, roots);
      ghost var mem0, live := mem, alloc.live;
      if Bit(mem[t][i], PRESENT) {
        NodeStep(mem, root, p, t, i);
        if Bit(flags, USER) {
          SystemUser(mem, live, roots, root, p, t, i);
          SetElsewhere(mem, t, i, WithUser(mem[t][i]));
          mem := SetWord(mem, t, i, WithUser(mem[t][i]));
          WordSet(mem0, t, i, WithUser(mem0[t][i]));
          UserPathKept(mem0, mem, root, p);
          KeepsNode(mem0, mem, root, p, t);
          OpenStep(mem, root, p, t, i);
        }
        r := Address(mem[t][i]);
        NodeStep(mem, root, p, t, i);
        InTree(mem, live, roots, root, p + [i], r);
        alloc.LiveIsUsable(r);
        return;
      }
      NotATableYet(mem, live, roots, root);
      r := AllocateFrame();
      if r == 0 {
        NoStep(mem, root, p, t, i);
        return;
      }
      var w := TableEntry(r, Bit(flags, USER));
      SystemAdd(mem, live, roots, root, p, t, i, r, w);
      AddedTree(mem, root, p, t, i, r, w);
      mem := AddTable(mem, t, i, r, w);
      TableAdded(mem0, t, i, r, w);
      if Bit(flags, USER) {
        UserPathKept(mem0, mem, root, p);
        KeepsNode(mem0, mem, root, p, t);
        OpenStep(mem, root, p, t, i);
      }
    }

    /** map_page.  It fails only when a table on the way is missing and no frame is left; then nothing is mapped
        differently.  On success the page has the new entry and every other page of the space the entry it
        had.  No lower-half page of another space changes either way.  User pages stay open to user code in
        the space itself, and in another space exactly unless the page is a user page under a shared
        top-level index where that space's own entry is closed. */
    method MapPage(root: nat, va: nat, physical: nat, flags: Word, ghost roots: set<nat>) returns (ok: bool)
      requires Valid() && System(mem, alloc.live, roots) && (root != 0 ==> root in roots)
      modifies this`mem, alloc
      ensures Valid() && System(mem, alloc.live, roots)
      ensures root == 0 ==> !ok
      ensures root != 0 && !ok ==> LacksTable(old(mem), root, va) && alloc.Exhausted()
      ensures ok ==> forall q :: IsPath(q) && |q| == 4 ==>
                Flat(mem, root, q) == if q == Indices(va) then LeafEntry(physical, flags) else Flat(old(mem), root, q)
      ensures !ok ==> forall r :: r in roots ==> SameFlat(old(mem), mem, r)
      ensures forall b :: b in roots && b != root ==> SameLower(old(mem), mem, b)
      ensures root != 0 && UserOpen(old(mem), root) ==> UserOpen(mem, root)
      ensures forall b :: b in roots && b != root && UserOpen(old(mem), b) ==>
                b in old(mem) && (UserOpen(mem, b) <==> !(ok && LeavesClosed(old(mem), root, b, Indices(va)[0], flags)))
      ensures alloc.lost == old(alloc.lost) && old(alloc.live) <= alloc.live
    {
      hide Books, Behind, All, ValidMap, Frames.Within, End, Node, Tree, Bit, SameFlat, Address, System, UserOpen,
           UserPath, LeafEntry, SetWord, Keeps, IsTable, Indices, Flat, SameLower, Shared, LeavesClosed, LacksTable,
           Allocator.Exhausted;
      ghost var mem0, live := mem, alloc.live;
      SameFlatSelf(mem, roots);
      LowerSame(mem0, mem, roots);
      KeepsSelf(mem, alloc.live, roots, root);
      if root == 0 {
        return false;
      }
      var p := Indices(va);
      RootNode(mem, root);
      assert [] + [p[0]] == p[..1] == [p[0]];
      var t1 := NextTable(root, p[0], flags, root, [], roots);
      ghost var mem1 := mem;
      LowerSame(mem0, mem1, roots);
      StaysOpen(mem0, mem1, roots);
      if t1 == 0 {
        LackedBefore(mem0, mem0, root, va, 1);
        return false;
      }
      assert p[..1] + [p[1]] == p[..2];
      var t2 := NextTable(t1, p[1], flags, root, p[..1], roots);
      ghost var mem2 := mem;
      SameFlatTrans(mem0, mem1, mem2, roots);
      KeepsAll(mem0, mem1, mem2, roots, root);
      LowerSame(mem0, mem2, roots);
      StaysOpen(mem0, mem2, roots);
      if t2 == 0 {
        LackedBefore(mem0, mem1, root, va, 2);
        return false;
      }
      assert p[..2] + [p[2]] == p[..3];
      var t3 := NextTable(t2, p[2], flags, root, p[..2], roots);
      ghost var mem3 := mem;
      SameFlatTrans(mem0, mem2, mem3, roots);
      KeepsAll(mem0, mem2, mem3, roots, root);
      KeepsAll(mem1, mem2, mem3, roots, root);
      LowerSame(mem0, mem3, roots);
      StaysOpen(mem0, mem3, roots);
      if t3 == 0 {
        LackedBefore(mem0, mem2, root, va, 3);
        return false;
      }
      assert p[..3] + [p[3]] == p;
      InTree(mem, alloc.live, roots, root, p[..3], t3);
      KeepsNode(mem1, mem3, root, [p[0]], t1);
      var w := LeafEntry(physical, flags);
      SystemLeaf(mem, alloc.live, roots, root, p[..3], t3, p[3], w);
      mem := SetWord(mem, t3, p[3], w);
      LowerTrans(mem0, mem3, mem, roots, root);
      FlatStep(mem0, mem3, mem, root, p, w);
      if UserOpen(mem0, root) {
        LeafOpen(mem3, root, p[..3], t3, p[3], w);
      }
      OtherSpaces(mem0, mem3, live, alloc.live, roots, root, p[..3], t1, t3, p[3], w, flags);
      ok := true;
    }

    /** paging_page_flags reads the flat map. */
    method PageFlags(root: nat, va: nat) returns (w: Word)
      requires Tree(mem, root)
      ensures w == Flat(mem, root, Indices(va))
    {
      hide Indices, Bit, Address;
      var p := Indices(va);
      var table := root;
      for level := 0 to 3
        invariant Node(mem, root, p[..level]) == Some(table)
      {
        assert IsTablePath(p[..level]) && table in mem;
        assert p[..level + 1][..level] == p[..level];
        var entry := mem[table][p[level]];
        if !Bit(entry, PRESENT) {
          NoneBelow(mem, root, p, level + 1);
          return 0;
        }
        table := Address(entry);
      }
      assert IsTablePath(p[..3]);
      w := mem[table][p[3]];
    }

    /** Clear a new top table and copy the upper half of another into it. */
    method CopyUpper(root: nat, kernel: nat)
      requires kernel in mem && root != kernel
      modifies this`mem
      ensures Branched(old(mem), mem, kernel, root)
    {
      ghost var mem0 := mem;
      mem := mem[root := Zeroed()];
      for index := 256 to 512
        invariant root in mem && forall n :: n in mem0 && n != root ==> n in mem && mem[n] == mem0[n]
        invariant forall j :: 0 <= j < 512 ==> mem[root][j] == if 256 <= j < index then mem0[kernel][j] else 0
      {
        mem := SetWord(mem, root, index, mem[kernel][index]);
      }
    }

    /** paging_create_address_space: a new top table with the kernel's upper half and an empty lower
        half, apart from every space there is. */
    method CreateSpace(kernel: nat, ghost roots: set<nat>) returns (root: nat)
      requires Valid() && System(mem, alloc.live, roots) && kernel in roots
      modifies this`mem, alloc
      ensures Valid() && alloc.lost == old(alloc.lost) && old(alloc.live) <= alloc.live
      ensures root == 0 ==> mem == old(mem) && alloc.live == old(alloc.live) && alloc.Exhausted()
      ensures root != 0 ==>
                && root !in roots && System(mem, alloc.live, roots + {root})
                   && (UserOpen(old(mem), kernel) ==> UserOpen(mem, root))
                && (forall r :: r in roots ==>
                    SameFlat(old(mem), mem, r) && (UserOpen(old(mem), r) ==> UserOpen(mem, r)))
                && (forall r :: r in roots ==> r in old(mem) && r in mem && mem[r] == old(mem)[r])
                && root in mem && (forall i :: 256 <= i < 512 ==> mem[root][i] == mem[kernel][i])
                && (forall q :: IsPath(q) && |q| == 4 ==>
                      Flat(mem, root, q) == if q[0] < 256 then 0 else Flat(old(mem), kernel, q))
    {
      hide Books, Behind, All, ValidMap, Frames.Within, End, Node, Tree, Bit, Address, System, UserOpen, UserPath,
           IsTable, Flat, SameFlat, Branched;
      ghost var mem0, live := mem, alloc.live;
      RootNode(mem, kernel);
      InTree(mem, live, roots, kernel, [], kernel);
      root := AllocateFrame();
      if root == 0 {
        return;
      }
      CopyUpper(root, kernel);
      NewSpace(mem0, mem, live, roots, kernel, root);
    }
  }

  /** mem' is mem with a new top table that shares the upper half of another. */
  ghost predicate Branched(mem: Memory, mem': Memory, kernel: nat, root: nat) {
    && kernel in mem && root in mem' && (forall n :: n in mem && n != root ==> n in mem' && mem'[n] == mem[n])
    && forall j :: 0 <= j < 512 ==> mem'[root][j] == if 256 <= j then mem[kernel][j] else 0
  }

  lemma {:induction false} NewNode(mem: Memory, mem': Memory, kernel: nat, root: nat, q: seq<nat>)
    requires Tree(mem, kernel) && Branched(mem, mem', kernel, root) && !IsTable(mem, kernel, root) && IsTablePath(q)
    ensures Node(mem', root, q) == if |q| == 0 then Some(root) else if q[0] < 256 then None else Node(mem, kernel, q)
  {
    hide Address;
    if |q| > 0 {
      var r := q[..|q| - 1];
      NewNode(mem, mem', kernel, root, r);
      assert IsTablePath(r);
      ZeroBit(PRESENT);
      if |r| > 0 && Node(mem, kernel, r).Some? {
        assert Node(mem, kernel, r).value != root;
      }
    }
  }

  lemma {:induction false} NewUserPath(mem: Memory, mem': Memory, kernel: nat, root: nat, q: seq<nat>)
    requires Tree(mem, kernel) && Branched(mem, mem', kernel, root) && !IsTable(mem, kernel, root) && IsTablePath(q)
    requires (|q| > 0 ==> q[0] >= 256) && UserPath(mem, kernel, q)
    ensures UserPath(mem', root, q)
  {
    hide Address, IsOpen, Node;
    if |q| > 0 {
      var r := q[..|q| - 1];
      NewUserPath(mem, mem', kernel, root, r);
      NewNode(mem, mem', kernel, root, r);
      assert IsTablePath(r);
      if |r| > 0 {
        assert Node(mem, kernel, r).value != root;
      } else {
        assert Node(mem, kernel, r) == Some(kernel) by { RootNode(mem, kernel); }
      }
    }
  }

  lemma NewSpaceShape(mem: Memory, mem': Memory, kernel: nat, root: nat)
    requires Tree(mem, kernel) && Branched(mem, mem', kernel, root) && !IsTable(mem, kernel, root)
    ensures Tree(mem', root) && (UserOpen(mem, kernel) ==> UserOpen(mem', root))
    ensures forall q :: IsTablePath(q) ==>
              Node(mem', root, q) == if |q| == 0 then Some(root) else if q[0] < 256 then None else Node(mem, kernel, q)
    ensures forall q :: IsPath(q) && |q| == 4 ==> Flat(mem', root, q) == if q[0] < 256 then 0 else Flat(mem, kernel, q)
  {
    hide Address, IsOpen, Node, UserPath, Bit;
    forall q | IsTablePath(q)
      ensures Node(mem', root, q) == if |q| == 0 then Some(root) else if q[0] < 256 then None else Node(mem, kernel, q)
    {
      NewNode(mem, mem', kernel, root, q);
    }
    forall q | IsPath(q) && |q| == 4
      ensures Flat(mem', root, q) == if q[0] < 256 then 0 else Flat(mem, kernel, q)
    {
      assert IsTablePath(q[..3]);
    }
    if UserOpen(mem, kernel) {
      forall q | IsPath(q) && |q| == 4 && IsOpen(Flat(mem', root, q))
        ensures UserPath(mem', root, q[..3])
      {
        ZeroClosed();
        NewUserPath(mem, mem', kernel, root, q[..3]);
      }
    }
  }

  lemma ZeroClosed()
    ensures !IsOpen(0)
  {
    ZeroBit(PRESENT);
  }

  lemma NewSpace(mem: Memory, mem': Memory, live: set<nat>, roots: set<nat>, kernel: nat, root: nat)
    requires System(mem, live, roots) && kernel in roots && root !in live && Branched(mem, mem', kernel, root)
    ensures root !in roots && System(mem', live + {root}, roots + {root})
            && (UserOpen(mem, kernel) ==> UserOpen(mem', root))
    ensures forall r :: r in roots ==> SameFlat(mem, mem', r) && (UserOpen(mem, r) ==> UserOpen(mem', r))
    ensures forall r :: r in roots ==> r in mem && r in mem' && mem'[r] == mem[r]
    ensures root in mem' && forall i :: 256 <= i < 512 ==> mem'[root][i] == mem'[kernel][i]
    ensures forall q :: IsPath(q) && |q| == 4 ==> Flat(mem', root, q) == if q[0] < 256 then 0 else Flat(mem, kernel, q)
  {
    hide Address, Node, Tree, UserOpen, Bit, Flat, SameFlat, Branched, Keeps;
    NotATableYet(mem, live, roots, kernel);
    NewSpaceShape(mem, mem', kernel, root);
    forall r | r in roots
      ensures r != root && Tree(mem', r) && SameFlat(mem, mem', r) && (UserOpen(mem, r) ==> UserOpen(mem', r))
      ensures r in mem && r in mem' && mem'[r] == mem[r]
      ensures forall q :: IsTablePath(q) ==> Node(mem', r, q) == Node(mem, r, q)
    {
      RootNode(mem, r);
      InTree(mem, live, roots, r, [], r);
      assert IsTable(mem, r, r);
      NotATableYet(mem, live, roots, r);
      BranchedElsewhere(mem, mem', kernel, root, r);
      UntouchedTree(mem, mem', r);
      UntouchedKeeps(mem, mem', r);
      BranchedTops(mem, mem', kernel, root, r);
      if UserOpen(mem, r) {
        UserOpenKept(mem, mem', r);
      }
    }
    BranchedTops(mem, mem', kernel, root, kernel);
    NewSystem(mem, mem', live, roots, kernel, root);
  }

  lemma BranchedTops(mem: Memory, mem': Memory, kernel: nat, root: nat, r: nat)
    requires Branched(mem, mem', kernel, root) && r in mem && r != root
    ensures r in mem' && mem'[r] == mem[r]
    ensures root in mem' && (r == kernel ==> forall i :: 256 <= i < 512 ==> mem'[root][i] == mem'[kernel][i])
  {
  }

  lemma BranchedElsewhere(mem: Memory, mem': Memory, kernel: nat, root: nat, r: nat)
    requires Branched(mem, mem', kernel, root) && !IsTable(mem, r, root)
    ensures Untouched(mem, mem', r)
  {
    hide Node;
  }

  lemma NewSystem(mem: Memory, mem': Memory, live: set<nat>, roots: set<nat>, kernel: nat, root: nat)
    requires System(mem, live, roots) && kernel in roots && root !in live && root !in roots
    requires Tree(mem', root) && forall r :: r in roots ==> Tree(mem', r)
    requires forall r, q :: r in roots && IsTablePath(q) ==> Node(mem', r, q) == Node(mem, r, q)
    requires forall q :: IsTablePath(q) ==>
               Node(mem', root, q) == if |q| == 0 then Some(root) else if q[0] < 256 then None else Node(mem, kernel, q)
    ensures System(mem', live + {root}, roots + {root})
  {
    hide Node, Tree;
    SameSystem(mem, mem', live, roots);
    forall f | IsTable(mem', root, f)
      ensures f in live + {root}
    {
      assert f == root || IsTable(mem, kernel, f);
    }
    forall r | r in roots
      ensures Apart(mem', root, r) && Apart(mem', r, root)
    {
      ApartFromNew(mem, mem', live, roots, kernel, root, r);
    }
  }

  lemma ApartFromNew(mem: Memory, mem': Memory, live: set<nat>, roots: set<nat>, kernel: nat, root: nat, r: nat)
    requires System(mem, live, roots) && kernel in roots && root !in live && r in roots
    requires forall q :: IsTablePath(q) ==> Node(mem', r, q) == Node(mem, r, q)
    requires forall q :: IsTablePath(q) ==>
               Node(mem', root, q) == if |q| == 0 then Some(root) else if q[0] < 256 then None else Node(mem, kernel, q)
    ensures Apart(mem', root, r) && Apart(mem', r, root)
  {
    hide Node;
    forall p, q | IsTablePath(p) && IsTablePath(q) && Node(mem', root, p).Some?
        && Node(mem', root, p) == Node(mem', r, q)
      ensures p == q && |p| >= 1 && p[0] >= 256 && Shared(mem', root, r, p[0])
    {
      assert IsTable(mem, r, Node(mem, r, q).value);
      if r != kernel {
        assert Apart(mem, kernel, r);
      } else {
        FirstStep(mem, kernel, p);
      }
      assert IsTablePath([p[0]]);
    }
  }

  /** A path that leads somewhere leads somewhere after its first step. */
  lemma {:induction false} FirstStep(mem: Memory, root: nat, p: seq<nat>)
    requires IsPath(p) && |p| >= 1 && Node(mem, root, p).Some?
    ensures IsPath([p[0]]) && Node(mem, root, [p[0]]).Some?
  {
    if |p| > 1 {
      FirstStep(mem, root, p[..|p| - 1]);
    } else {
      assert p == [p[0]];
    }
  }

  lemma RootNode(mem: Memory, root: nat)
    ensures IsTablePath([]) && Node(mem, root, []) == Some(root) && UserPath(mem, root, [])
  {
  }

  lemma LowerSame(mem: Memory, mem': Memory, roots: set<nat>)
    requires forall r :: r in roots ==> SameFlat(mem, mem', r)
    ensures forall r :: r in roots ==> SameLower(mem, mem', r)
  {
    hide Flat;
  }

  lemma LowerTrans(mem: Memory, mem': Memory, mem'': Memory, roots: set<nat>, a: nat)
    requires forall r :: r in roots ==> SameLower(mem, mem', r)
    requires forall r :: r in roots && r != a ==> SameLower(mem', mem'', r)
    ensures forall r :: r in roots && r != a ==> SameLower(mem, mem'', r)
  {
    hide Flat;
  }

  lemma FlatStep(mem: Memory, mem': Memory, mem'': Memory, root: nat, p: seq<nat>, w: Word)
    requires SameFlat(mem, mem', root)
    requires forall q :: IsPath(q) && |q| == 4 ==> Flat(mem'', root, q) == if q == p then w else Flat(mem', root, q)
    ensures forall q :: IsPath(q) && |q| == 4 ==> Flat(mem'', root, q) == if q == p then w else Flat(mem, root, q)
  {
    hide Flat;
  }

  /** A user page may be set where the path to it is open. */
  lemma LeafOpen(mem: Memory, root: nat, p: seq<nat>, t: nat, i: nat, w: Word)
    requires Tree(mem, root) && IsPath(p) && |p| == 3 && Node(mem, root, p) == Some(t) && t in mem && i < 512
    requires UserOpen(mem, root) && (Bit(w, USER) ==> UserPath(mem, root, p))
    ensures UserOpen(SetWord(mem, t, i, w), root)
  {
    hide Node, Tree, Bit, Flat, Keeps, UserPath;
    var mem' := SetWord(mem, t, i, w);
    LeafTree(mem, root, p, t, i, w);
    forall q | IsPath(q) && |q| == 4 && IsOpen(Flat(mem', root, q))
      ensures UserPath(mem', root, q[..3])
    {
      if q == p + [i] {
        assert q[..3] == p;
      }
      UserPathKept(mem, mem', root, q[..3]);
    }
  }

  lemma {:induction false} NoneBelow(mem: Memory, root: nat, p: seq<nat>, n: nat)
    requires IsPath(p) && 1 <= n <= |p| && Node(mem, root, p[..n]).None?
    ensures forall m :: n <= m <= |p| ==> Node(mem, root, p[..m]).None?
    decreases |p| - n
  {
    if n < |p| {
      assert p[..n + 1][..n] == p[..n];
      NoneBelow(mem, root, p, n + 1);
    }
  }

  lemma NotATableYet(mem: Memory, live: set<nat>, roots: set<nat>, root: nat)
    requires System(mem, live, roots) && root in roots
    ensures forall f :: f !in live ==> !IsTable(mem, root, f)
  {
  }

  lemma WordSet(mem: Memory, t: nat, i: nat, w: Word)
    requires t in mem && i < 512
    ensures t in SetWord(mem, t, i, w) && SetWord(mem, t, i, w)[t][i] == w
  {
  }

  lemma TableAdded(mem: Memory, t: nat, i: nat, f: nat, w: Word)
    requires t in mem && i < 512
    ensures t in AddTable(mem, t, i, f, w) && AddTable(mem, t, i, f, w)[t][i] == w
    ensures forall n :: n in mem && n != t && n != f ==>
              n in AddTable(mem, t, i, f, w) && AddTable(mem, t, i, f, w)[n] == mem[n]
  {
  }

  lemma SharedTop(mem: Memory, a: nat, b: nat, i: nat)
    requires a in mem && b in mem && i < 512 && mem[a][i] == mem[b][i] && Bit(mem[a][i], PRESENT)
    ensures Shared(mem, a, b, i)
  {
    assert [i][..0] == [];
  }

  /** The case in which another space does not stay open: two spaces created from one kernel share the
      kernel's tables but have top-level entries of their own, so a user page mapped into the upper half
      of one of them is a user page of the other behind a closed entry. */
  method SharedUserPage(x: Mmu, kernel: nat, va: nat, physical: nat, flags: Word, ghost roots: set<nat>)
    returns (ok: bool, a: nat, b: nat, ghost before: Memory)
    requires x.Valid() && System(x.mem, x.alloc.live, roots) && kernel in roots && kernel in x.mem
             && UserOpen(x.mem, kernel)
    requires Indices(va)[0] >= 256 && Bit(flags, USER)
    requires Bit(x.mem[kernel][Indices(va)[0]], PRESENT) && !Bit(x.mem[kernel][Indices(va)[0]], USER)
    modifies x`mem, x.alloc
    ensures ok ==> UserOpen(before, a) && UserOpen(before, b) && UserOpen(x.mem, a) && !UserOpen(x.mem, b)
  {
    hide Books, Behind, All, ValidMap, Frames.Within, End, Node, Tree, Address, System, UserOpen, UserPath, LeafEntry,
         IsTable, Indices, Flat, SameFlat, Keeps, SameLower;
    ok, b, before := false, 0, x.mem;
    ghost var i := Indices(va)[0];
    a := x.CreateSpace(kernel, roots);
    if a == 0 {
      return;
    }
    b := x.CreateSpace(kernel, roots + {a});
    before := x.mem;
    if b == 0 {
      return;
    }
    SharedTop(before, a, b, i);
    ok := x.MapPage(a, va, physical, flags, roots + {a} + {b});
  }
}
