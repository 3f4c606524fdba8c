/** The kernel heap: one arena cut into blocks, first fit with splitting, and merging on every free. */
module Heap {

  const BASE: nat := 0xFFFF_9000_0000_0000
  const SIZE: nat := 2048 * 4096
  /** sizeof(HEAP_BLOCK) */
  const HEAD: nat := 24
  const WORD: nat := 0x1_0000_0000_0000_0000

  /** A block as the list shows it: bytes behind its header, and whether it is free. */
  datatype Block = Block(size: nat, free: bool)

  /** align_size in 64 bits: sizes near 2^64 wrap to 0. */
  function AlignSize(size: nat): (a: nat)
    requires size < WORD
    ensures a % 16 == 0 && (a == 0 <==> size == 0 || size > WORD - 16) && (a != 0 ==> size <= a < size + 16)
  {
    (size + 15) % WORD / 16 * 16
  }

  // ----- the list of blocks as a value

  /** Address of the header of block i, or of the end of the arena. */
  function At(base: nat, bs: seq<Block>, i: nat): nat
    requires i <= |bs|
  {
    if i == 0 then base else At(base, bs, i - 1) + HEAD + bs[i - 1].size
  }

  /** The blocks tile the arena. */
  ghost predicate Tiles(bs: seq<Block>) {
    |bs| > 0 && At(BASE, bs, |bs|) == BASE + SIZE
  }

  /** No two neighbours are both free. */
  ghost predicate Merged(bs: seq<Block>) {
    forall i :: 0 <= i < |bs| - 1 ==> !(bs[i].free && bs[i + 1].free)
  }

  /** The first free block that holds n bytes, or the length of the list. */
  function FirstFit(bs: seq<Block>, n: nat): (i: nat)
    ensures i <= |bs|
    ensures i < |bs| ==> bs[i].free && bs[i].size >= n
    ensures forall j :: 0 <= j < i ==> !(bs[j].free && bs[j].size >= n)
  {
    if |bs| == 0 then 0
    else if bs[0].free && bs[0].size >= n then 0
    else 1 + FirstFit(bs[1..], n)
  }

  /** The list after block i has been taken for n bytes; what is left over becomes a free block when it
      can hold a header and 16 bytes. */
  function Take(bs: seq<Block>, i: nat, n: nat): (r: seq<Block>)
    requires i < |bs| && n <= bs[i].size
  {
    if bs[i].size >= n + HEAD + 16
    then bs[..i] + [Block(n, false), Block(bs[i].size - n - HEAD, true)] + bs[i + 1..]
    else bs[i := bs[i].(free := false)]
  }

  /** The list with all free neighbours merged, from the left. */
  function Merge(bs: seq<Block>): (r: seq<Block>)
    ensures |r| <= |bs| && (|bs| > 0 ==> |r| > 0 && r[0].free == bs[0].free)
    decreases |bs|
  {
    if |bs| < 2 then bs
    else if bs[0].free && bs[1].free then Merge([Block(bs[0].size + HEAD + bs[1].size, true)] + bs[2..])
    else [bs[0]] + Merge(bs[1..])
  }

  /** One step of merging. */
  lemma MergeStep(bs: seq<Block>)
    requires |bs| >= 2
    ensures Merge(bs) == if bs[0].free && bs[1].free then Merge([Block(bs[0].size + HEAD + bs[1].size, true)] + bs[2..])
                         else [bs[0]] + Merge(bs[1..])
  {
  }

  lemma MergedTail(bs: seq<Block>)
    requires |bs| > 0
    ensures Merged(bs) <==> Merged(bs[1..]) && (|bs| > 1 ==> !(bs[0].free && bs[1].free))
  {
    var t := bs[1..];
    if Merged(t) && (|bs| > 1 ==> !(bs[0].free && bs[1].free)) {
      forall i | 0 <= i < |bs| - 1
        ensures !(bs[i].free && bs[i + 1].free)
      {
        if i > 0 {
          assert t[i - 1] == bs[i] && t[i - 1 + 1] == bs[i + 1];
        }
      }
    }
    if Merged(bs) {
      forall i | 0 <= i < |t| - 1
        ensures !(t[i].free && t[i + 1].free)
      {
        assert t[i] == bs[i + 1] && t[i + 1] == bs[i + 1 + 1];
      }
      if |bs| > 1 {
        assert 0 + 1 < |bs| && !(bs[0].free && bs[0 + 1].free);
      }
    }
  }

  lemma {:induction false} MergeMerges(bs: seq<Block>)
    ensures Merged(Merge(bs))
    decreases |bs|
  {
    hide Merge, Merged;
    if |bs| >= 2 {
      MergeStep(bs);
      if bs[0].free && bs[1].free {
        MergeMerges([Block(bs[0].size + HEAD + bs[1].size, true)] + bs[2..]);
      } else {
        var r := Merge(bs[1..]);
        MergeMerges(bs[1..]);
        MergedTail([bs[0]] + r);
        assert ([bs[0]] + r)[1..] == r;
      }
    } else {
      MergeShort(bs);
    }
  }

  lemma MergeShort(bs: seq<Block>)
    requires |bs| < 2
    ensures Merge(bs) == bs && Merged(bs)
  {
  }

  lemma {:induction false} MergeNothing(bs: seq<Block>)
    requires Merged(bs)
    ensures Merge(bs) == bs
  {
    hide Merge, Merged;
    if |bs| >= 2 {
      MergeStep(bs);
      MergedTail(bs);
      MergeNothing(bs[1..]);
    } else {
      MergeShort(bs);
    }
  }

  /** A part without free neighbours that ends in a used block is not touched by merging. */
  lemma {:induction false} MergeBehind(a: seq<Block>, b: seq<Block>)
    requires Merged(a) && |b| > 0 && (|a| > 0 ==> !a[|a| - 1].free || !b[0].free)
    ensures Merge(a + b) == a + Merge(b)
  {
    hide Merge, Merged;
    if |a| == 0 {
      assert a + b == b;
    } else {
      assert (a + b)[1..] == a[1..] + b;
      MergedTail(a);
      MergeBehind(a[1..], b);
      MergeStep(a + b);
      assert [a[0]] + (a[1..] + Merge(b)) == a + Merge(b);
    }
  }

  /** Giving back what was just taken restores the list. */
  lemma TakeThenFree(bs: seq<Block>, i: nat, n: nat)
    requires Merged(bs) && i < |bs| && bs[i].free && n <= bs[i].size
    ensures i < |Take(bs, i, n)| && Merge(Take(bs, i, n)[i := Take(bs, i, n)[i].(free := true)]) == bs
  {
    hide Merge, Merged;
    var t := Take(bs, i, n);
    var f := t[i := t[i].(free := true)];
    MergeNothing(bs);
    if bs[i].size >= n + HEAD + 16 {
      var d := [Block(n, true), Block(bs[i].size - n - HEAD, true)] + bs[i + 1..];
      assert f == bs[..i] + d;
      MergedParts(bs, i);
      MergeBehind(bs[..i], d);
      MergeStep(d);
      assert [Block(bs[i].size, true)] + d[2..] == bs[i..];
      MergeNothing(bs[i..]);
      assert bs[..i] + bs[i..] == bs;
    } else {
      assert f == bs;
    }
  }

  lemma {:induction false} MergedParts(bs: seq<Block>, i: nat)
    requires Merged(bs) && i < |bs|
    ensures Merged(bs[..i]) && Merged(bs[i..]) && (i > 0 && bs[i].free ==> !bs[i - 1].free)
    decreases |bs|
  {
    hide Merged;
    if i > 0 {
      MergedTail(bs);
      MergedParts(bs[1..], i - 1);
      assert bs[1..][i - 1..] == bs[i..] && bs[..i][1..] == bs[1..][..i - 1];
      MergedTail(bs[..i]);
    } else {
      assert bs[..0] == [] && bs[0..] == bs;
      MergeShort([]);
    }
  }

  lemma TakeKeepsMerged(bs: seq<Block>, i: nat, n: nat)
    requires Merged(bs) && i < |bs| && bs[i].free && n <= bs[i].size
    ensures Merged(Take(bs, i, n))
  {
    var t := Take(bs, i, n);
    if bs[i].size >= n + HEAD + 16 {
      forall k | 0 <= k < |t| - 1
        ensures !(t[k].free && t[k + 1].free)
      {
        if k > i + 1 {
          assert t[k] == bs[k - 1] && t[k + 1] == bs[k - 1 + 1];
        } else if k == i + 1 {
          assert t[k + 1] == bs[i + 1] && !(bs[i].free && bs[i + 1].free);
        } else if k < i {
          assert t[k] == bs[k] && (k + 1 < i ==> t[k + 1] == bs[k + 1]);
        }
      }
    }
  }

  // ----- live payloads

  /** Address and size of every payload in use, for blocks laid out from base. */
  ghost function Live(base: nat, bs: seq<Block>): set<(nat, nat)>
    decreases |bs|
  {
    if |bs| == 0 then {}
    else (if bs[0].free then {} else {(base + HEAD, bs[0].size)}) + Live(base + HEAD + bs[0].size, bs[1..])
  }

  lemma {:induction false} AtTail(base: nat, bs: seq<Block>, i: nat)
    requires 0 < i <= |bs|
    ensures At(base, bs, i) == At(base + HEAD + bs[0].size, bs[1..], i - 1)
  {
    if i > 1 {
      AtTail(base, bs, i - 1);
    }
  }

  lemma {:induction false} AtSum(base: nat, a: seq<Block>, b: seq<Block>, i: nat)
    requires i <= |b|
    ensures At(base, a + b, |a|) == At(base, a, |a|)
    ensures At(base, a + b, |a| + i) == At(At(base, a, |a|), b, i)
  {
    if i > 0 {
      AtSum(base, a, b, i - 1);
    } else {
      AtSame(base, a + b, a, |a|);
    }
  }

  lemma {:induction false} AtSame(base: nat, a: seq<Block>, b: seq<Block>, i: nat)
    requires i <= |a| && i <= |b| && forall k :: 0 <= k < i ==> a[k].size == b[k].size
    ensures At(base, a, i) == At(base, b, i)
  {
    if i > 0 {
      AtSame(base, a, b, i - 1);
    }
  }

  lemma LiveStep(base: nat, b: Block, rest: seq<Block>)
    ensures Live(base, [b] + rest) == (if b.free then {} else {(base + HEAD, b.size)}) +
            Live(base + HEAD + b.size, rest)
    ensures At(base, [b] + rest, |rest| + 1) == At(base + HEAD + b.size, rest, |rest|)
  {
    assert ([b] + rest)[1..] == rest;
    AtTail(base, [b] + rest, |rest| + 1);
  }

  lemma {:induction false} LiveSum(base: nat, a: seq<Block>, b: seq<Block>)
    ensures Live(base, a + b) == Live(base, a) + Live(At(base, a, |a|), b)
    decreases |a|
  {
    hide Live, At;
    if |a| == 0 {
      assert a + b == b;
      NothingLive(base);
    } else {
      assert a + b == [a[0]] + (a[1..] + b) && a == [a[0]] + a[1..];
      LiveSum(base + HEAD + a[0].size, a[1..], b);
      LiveStep(base, a[0], a[1..] + b);
      LiveStep(base, a[0], a[1..]);
    }
  }

  lemma NothingLive(base: nat)
    ensures Live(base, []) == {} && At(base, [], 0) == base
  {
  }

  /** Merging moves no payload in use and keeps the arena tiled. */
  lemma {:induction false} MergeKeeps(base: nat, bs: seq<Block>)
    ensures Live(base, Merge(bs)) == Live(base, bs) && At(base, Merge(bs), |Merge(bs)|) == At(base, bs, |bs|)
    decreases |bs|
  {
    hide Merge, Live, At;
    if |bs| < 2 {
      MergeShort(bs);
    } else {
      MergeStep(bs);
      assert bs == [bs[0]] + bs[1..] && bs[1..] == [bs[1]] + bs[2..];
      var next := base + HEAD + bs[0].size;
      LiveStep(base, bs[0], bs[1..]);
      if bs[0].free && bs[1].free {
        var one := Block(bs[0].size + HEAD + bs[1].size, true);
        MergeKeeps(base, [one] + bs[2..]);
        LiveStep(base, one, bs[2..]);
        LiveStep(next, bs[1], bs[2..]);
      } else {
        MergeKeeps(next, bs[1..]);
        LiveStep(base, bs[0], Merge(bs[1..]));
      }
    }
  }

  /** Payloads in use lie in the arena and do not overlap each other. */
  lemma {:induction false} LiveApart(base: nat, bs: seq<Block>, p: (nat, nat), q: (nat, nat))
    requires p in Live(base, bs)
    ensures base + HEAD <= p.0 && p.0 + p.1 <= At(base, bs, |bs|)
    ensures q in Live(base, bs) && p != q ==> p.0 + p.1 + HEAD <= q.0 || q.0 + q.1 + HEAD <= p.0
    decreases |bs|
  {
    AtTail(base, bs, |bs|);
    var rest := base + HEAD + bs[0].size;
    AtGrows(rest, bs[1..]);
    var first := (base + HEAD, bs[0].size);
    if p in Live(rest, bs[1..]) {
      LiveApart(rest, bs[1..], p, q);
    }
    if q in Live(rest, bs[1..]) {
      LiveApart(rest, bs[1..], q, p);
    }
  }

  lemma {:induction false} AtGrows(base: nat, bs: seq<Block>)
    ensures At(base, bs, |bs|) >= base
    decreases |bs|
  {
    if |bs| > 0 {
      AtTail(base, bs, |bs|);
      AtGrows(base + HEAD + bs[0].size, bs[1..]);
    }
  }

  /** Taking a block adds its payload to those in use and keeps the arena tiled. */
  lemma TakeKeeps(base: nat, bs: seq<Block>, i: nat, n: nat)
    requires i < |bs| && bs[i].free && n <= bs[i].size
    ensures var t, at := Take(bs, i, n), At(base, bs, i);
            && i < |t| && !t[i].free && t[i].size >= n && At(base, t, i) == at
            && Live(base, t) == Live(base, bs) + {(at + HEAD, t[i].size)} && At(base, t, |t|) == At(base, bs, |bs|)
  {
    hide Live, At;
    var t, a, c := Take(bs, i, n), bs[..i], bs[i + 1..];
    var at := At(base, a, i);
    assert bs == a + ([bs[i]] + c);
    AtSame(base, bs, a, i);
    AtSame(base, t, a, i);
    LiveSum(base, a, [bs[i]] + c);
    AtSum(base, a, [bs[i]] + c, |c| + 1);
    LiveStep(at, bs[i], c);
    if bs[i].size >= n + HEAD + 16 {
      var x, y := Block(n, false), Block(bs[i].size - n - HEAD, true);
      assert t == a + ([x] + ([y] + c));
      LiveSum(base, a, [x] + ([y] + c));
      AtSum(base, a, [x] + ([y] + c), |c| + 2);
      LiveStep(at, x, [y] + c);
      LiveStep(at + HEAD + n, y, c);
    } else {
      var x := bs[i].(free := false);
      assert t == a + ([x] + c);
      LiveSum(base, a, [x] + c);
      AtSum(base, a, [x] + c, |c| + 1);
      LiveStep(at, x, c);
    }
  }

  /** Marking a block free takes its payload out of those in use. */
  lemma FreeKeeps(base: nat, bs: seq<Block>, i: nat)
    requires i < |bs| && !bs[i].free
    ensures var f, p := bs[i := bs[i].(free := true)], (At(base, bs, i) + HEAD, bs[i].size);
            && p in Live(base, bs) && Live(base, f) == Live(base, bs) - {p} && At(base, f, |f|) == At(base, bs, |bs|)
  {
    hide Live, At;
    var x, a, c := bs[i].(free := true), bs[..i], bs[i + 1..];
    var f := bs[i := x];
    var at := At(base, a, i);
    assert bs == a + ([bs[i]] + c) && f == a + ([x] + c);
    AtSame(base, bs, a, i);
    LiveSum(base, a, [bs[i]] + c);
    LiveSum(base, a, [x] + c);
    AtSum(base, a, [bs[i]] + c, |c| + 1);
    AtSum(base, a, [x] + c, |c| + 1);
    LiveStep(at, bs[i], c);
    LiveStep(at, x, c);
    var p, before, behind := (at + HEAD, bs[i].size), Live(base, a), Live(at + HEAD + bs[i].size, c);
    if p in before {
      LiveApart(base, a, p, p);
    }
    if p in behind {
      LiveApart(at + HEAD + bs[i].size, c, p, p);
    }
    assert Live(base, bs) == before + {p} + behind && Live(base, f) == before + behind;
  }

  // ----- headers in memory

  /** A block header; next is 0 at the end of the list. */
  datatype Header = Header(size: nat, free: bool, next: nat)

  type Memory = map<nat, Header>

  /** The headers in memory are those of the list. */
  ghost predicate Laid(mem: Memory, bs: seq<Block>) {
    forall i :: 0 <= i < |bs| ==> At(BASE, bs, i) in mem && mem[At(BASE, bs, i)] == HeaderOf(bs, i)
  }

  ghost function HeaderOf(bs: seq<Block>, i: nat): Header
    requires i < |bs|
  {
    Header(bs[i].size, bs[i].free, if i + 1 < |bs| then At(BASE, bs, i + 1) else 0)
  }

  lemma {:induction false} AtOrder(bs: seq<Block>, i: nat, j: nat)
    requires i < j <= |bs|
    ensures BASE <= At(BASE, bs, i) && At(BASE, bs, i) + HEAD + bs[i].size <= At(BASE, bs, j)
  {
    if i + 1 < j {
      AtOrder(bs, i, j - 1);
    } else {
      AtAbove(bs, i);
    }
  }

  lemma {:induction false} AtAbove(bs: seq<Block>, i: nat)
    requires i <= |bs|
    ensures BASE <= At(BASE, bs, i)
  {
    if i > 0 {
      AtAbove(bs, i - 1);
    }
  }

  /** Replacing blocks by others of the same total extent moves nothing behind them. */
  lemma AtSplice(a: seq<Block>, x: seq<Block>, y: seq<Block>, c: seq<Block>, j: nat)
    requires j <= |c| && At(At(BASE, a, |a|), x, |x|) == At(At(BASE, a, |a|), y, |y|)
    ensures At(BASE, a + x + c, |a| + |x| + j) == At(BASE, a + y + c, |a| + |y| + j)
  {
    AtSum(BASE, a, x, |x|);
    AtSum(BASE, a, y, |y|);
    AtSum(BASE, a + x, c, j);
    AtSum(BASE, a + y, c, j);
  }

  /** Where the headers are after block i has been split, and what they say. */
  lemma SplitHeader(bs: seq<Block>, i: nat, n: nat, k: nat)
    requires i < |bs| && bs[i].size >= n + HEAD + 16 && k <= |bs|
    ensures var at, t := At(BASE, bs, i), Take(bs, i, n);
            && |t| == |bs| + 1
            && (k < i ==> At(BASE, t, k) == At(BASE, bs, k) < at && HeaderOf(t, k) == HeaderOf(bs, k))
            && (k == i ==> At(BASE, t, k) == at && HeaderOf(t, k) == Header(n, false, at + HEAD + n))
            && (k == i + 1 ==> && At(BASE, t, k) == at + HEAD + n
                               && HeaderOf(t, k) == Header(bs[i].size - n - HEAD, true, HeaderOf(bs, i).next))
            && (k > i + 1 ==>
                At(BASE, t, k) == At(BASE, bs, k - 1) > at + HEAD + n && HeaderOf(t, k) == HeaderOf(bs, k - 1))
  {
    hide At;
    var at, t := At(BASE, bs, i), Take(bs, i, n);
    SplitAt(bs, i, n, if k <= i then k else k - 1);
    if k < |bs| {
      SplitAt(bs, i, n, if k < i then k + 1 else k);
    }
    SplitAt(bs, i, n, i);
    AtNext(t, i);
    if k < i {
      AtOrder(bs, k, i);
      SplitAt(bs, i, n, k + 1);
    } else if k > i + 1 {
      AtOrder(bs, i, k - 1);
    }
  }

  /** Splitting block i in memory. */
  lemma LaidSplit(mem: Memory, bs: seq<Block>, i: nat, n: nat)
    requires Laid(mem, bs) && i < |bs| && bs[i].size >= n + HEAD + 16
    ensures var at, t := At(BASE, bs, i), Take(bs, i, n);
            var fresh' := at + HEAD + n;
            && at in mem && |t| == |bs| + 1 && At(BASE, t, i) == at
            && Laid(mem[fresh' := Header(bs[i].size - n - HEAD, true, mem[at].next)][at := Header(n, false, fresh')], t)
  {
    hide At, HeaderOf, Take;
    var at, t := At(BASE, bs, i), Take(bs, i, n);
    var fresh' := at + HEAD + n;
    var mem' := mem[fresh' := Header(bs[i].size - n - HEAD, true, mem[at].next)][at := Header(n, false, fresh')];
    SplitHeader(bs, i, n, i);
    forall k | 0 <= k < |t|
      ensures At(BASE, t, k) in mem' && mem'[At(BASE, t, k)] == HeaderOf(t, k)
    {
      SplitHeader(bs, i, n, k);
    }
  }

  lemma AtNext(bs: seq<Block>, i: nat)
    requires i < |bs|
    ensures At(BASE, bs, i + 1) == At(BASE, bs, i) + HEAD + bs[i].size
  {
  }

  lemma SplitAt(bs: seq<Block>, i: nat, n: nat, j: nat)
    requires i < |bs| && bs[i].size >= n + HEAD + 16 && j <= |bs|
    ensures At(BASE, Take(bs, i, n), if j <= i then j else j + 1) == At(BASE, bs, j)
  {
    hide At;
    var t, a, c := Take(bs, i, n), bs[..i], bs[i + 1..];
    var x, y := Block(n, false), Block(bs[i].size - n - HEAD, true);
    if j <= i {
      AtSame(BASE, t, bs, j);
    } else {
      assert bs == a + [bs[i]] + c && t == a + [x, y] + c;
      Extents(At(BASE, a, |a|), bs[i], x, y);
      AtSplice(a, [x, y], [bs[i]], c, j - i - 1);
    }
  }

  lemma Extents(at: nat, b: Block, x: Block, y: Block)
    ensures At(at, [b], 1) == at + HEAD + b.size && At(at, [x, y], 2) == at + HEAD + x.size + HEAD + y.size
  {
    assert At(at, [x, y], 1) == at + HEAD + x.size;
  }

  /** Changing the mark of block i in memory. */
  lemma LaidMark(mem: Memory, bs: seq<Block>, i: nat, free: bool)
    requires Laid(mem, bs) && i < |bs|
    ensures var at, f := At(BASE, bs, i), bs[i := bs[i].(free := free)];
            at in mem && At(BASE, f, i) == at && Laid(mem[at := mem[at].(free := free)], f)
  {
    hide At;
    var at, f := At(BASE, bs, i), bs[i := bs[i].(free := free)];
    var mem' := mem[at := mem[at].(free := free)];
    forall j | 0 <= j <= |bs|
      ensures At(BASE, f, j) == At(BASE, bs, j)
    {
      AtSame(BASE, f, bs, j);
    }
    forall k | 0 <= k < |f|
      ensures At(BASE, f, k) in mem' && mem'[At(BASE, f, k)] == HeaderOf(f, k)
    {
      if k < i {
        AtOrder(bs, k, i);
      } else if k > i {
        AtOrder(bs, i, k);
      }
    }
  }

  function Join(bs: seq<Block>, i: nat): seq<Block>
    requires i + 1 < |bs|
  {
    bs[..i] + [Block(bs[i].size + HEAD + bs[i + 1].size, bs[i].free)] + bs[i + 2..]
  }

  lemma JoinAt(bs: seq<Block>, i: nat, j: nat)
    requires i + 1 < |bs| && j < |bs|
    ensures At(BASE, Join(bs, i), j) == At(BASE, bs, if j <= i then j else j + 1)
  {
    hide At;
    var t, a, c := Join(bs, i), bs[..i], bs[i + 2..];
    var x := Block(bs[i].size + HEAD + bs[i + 1].size, bs[i].free);
    if j <= i {
      AtSame(BASE, t, bs, j);
    } else {
      assert bs == a + [bs[i], bs[i + 1]] + c && t == a + [x] + c;
      Extents(At(BASE, a, |a|), x, bs[i], bs[i + 1]);
      AtSplice(a, [bs[i], bs[i + 1]], [x], c, j - i - 1);
    }
  }

  /** Joining block i with the next one in memory. */
  lemma LaidJoin(mem: Memory, bs: seq<Block>, i: nat)
    requires Laid(mem, bs) && i + 1 < |bs|
    ensures var at, next := At(BASE, bs, i), At(BASE, bs, i + 1);
            && at in mem && next in mem && mem[at] == HeaderOf(bs, i) && mem[next] == HeaderOf(bs, i + 1)
            && At(BASE, Join(bs, i), i) == at
            && Laid(mem[at := Header(mem[at].size + HEAD + mem[next].size, mem[at].free, mem[next].next)], Join(bs, i))
  {
    hide At;
    var at, next, t := At(BASE, bs, i), At(BASE, bs, i + 1), Join(bs, i);
    var mem' := mem[at := Header(mem[at].size + HEAD + mem[next].size, mem[at].free, mem[next].next)];
    forall j | 0 <= j < |bs|
      ensures At(BASE, t, j) == At(BASE, bs, if j <= i then j else j + 1)
    {
      JoinAt(bs, i, j);
    }
    forall k | 0 <= k < |t|
      ensures At(BASE, t, k) in mem' && mem'[At(BASE, t, k)] == HeaderOf(t, k)
    {
      if k < i {
        AtOrder(bs, k, i);
        assert t[k] == bs[k] && HeaderOf(t, k) == HeaderOf(bs, k);
      } else if k > i {
        AtOrder(bs, i, k + 1);
        assert t[k] == bs[k + 1] && HeaderOf(t, k) == HeaderOf(bs, k + 1);
      }
    }
  }

  // ----- the operations

  class KernelHeap {
    var mem: Memory
    /** The list that the headers make. */
    ghost var blocks: seq<Block>

    /** The blocks tile the arena and no two free ones are neighbours. */
    ghost predicate Valid()
      reads this
    {
      Laid(mem, blocks) && Tiles(blocks) && Merged(blocks)
    }

    /** Payloads in use: address and size. */
    ghost function InUse(): set<(nat, nat)>
      reads this
    {
      Live(BASE, blocks)
    }

    constructor ()
      ensures Valid() && InUse() == {} && blocks == [Block(SIZE - HEAD, true)]
    {
      mem := map[BASE := Header(SIZE - HEAD, true, 0)];
      blocks := [Block(SIZE - HEAD, true)];
      new;
      assert At(BASE, blocks, 1) == At(BASE, blocks, 0) + HEAD + blocks[0].size;
      assert [blocks[0]] + [] == blocks;
      LiveStep(BASE, blocks[0], []);
      NothingLive(BASE + HEAD + blocks[0].size);
    }

    /** kmalloc: the first free block that is large enough.  It fails only when the aligned size is 0 or
        no free block fits. */
    method Kmalloc(size: nat) returns (p: nat, ghost i: nat)
      requires Valid() && size < WORD
      modifies this
      ensures Valid()
      ensures p == 0 <==> AlignSize(size) == 0 || FirstFit(old(blocks), AlignSize(size)) == |old(blocks)|
      ensures p == 0 ==> mem == old(mem) && blocks == old(blocks)
      ensures p != 0 ==>
                && i == FirstFit(old(blocks), AlignSize(size)) < |old(blocks)| && i < |blocks|
                   && p == At(BASE, blocks, i) + HEAD
                && blocks == Take(old(blocks), i, AlignSize(size)) && blocks[i].size >= size
                && InUse() == old(InUse()) + {(p, blocks[i].size)}
    {
      hide At, Take, Live, Merged, FirstFit;
      var aligned := AlignSize(size);
      i := 0;
      if aligned == 0 {
        return 0, i;
      }
      var block := BASE;
      AtStart(blocks);
      while block != 0
        invariant Valid() && mem == old(mem) && blocks == old(blocks) && i <= |blocks|
        invariant block == if i < |blocks| then At(BASE, blocks, i) else 0
        invariant forall j :: 0 <= j < i ==> !(blocks[j].free && blocks[j].size >= aligned)
        decreases |blocks| - i
      {
        AtAbove(blocks, i);
        assert mem[block] == HeaderOf(blocks, i);
        if mem[block].free && mem[block].size >= aligned {
          FirstFitIs(blocks, aligned, i);
          TakeBlock(block, aligned, i);
          return block + HEAD, i;
        }
        if i + 1 < |blocks| {
          AtAbove(blocks, i + 1);
        }
        block := mem[block].next;
        i := i + 1;
      }
      AtAbove(blocks, i);
      FirstFitIs(blocks, aligned, i);
      p := 0;
    }

    /** Take a block that fits, and split it when enough is left over. */
    method TakeBlock(block: nat, aligned: nat, ghost i: nat)
      requires Valid() && i < |blocks| && blocks[i].free && 0 < aligned <= blocks[i].size
               && block == At(BASE, blocks, i)
      modifies this
      ensures Valid() && blocks == Take(old(blocks), i, aligned) && i < |blocks| && block == At(BASE, blocks, i)
      ensures blocks[i].size >= aligned && InUse() == old(InUse()) + {(block + HEAD, blocks[i].size)}
    {
      hide At, Take, Live, Merged;
      TakeKeeps(BASE, blocks, i, aligned);
      TakeKeepsMerged(blocks, i, aligned);
      BlockFits(blocks, i);
      assert mem[block] == HeaderOf(blocks, i);
      if mem[block].size >= (aligned + HEAD + 16) % WORD {
        LaidSplit(mem, blocks, i, aligned);
        var next := block + HEAD + aligned;
        mem := mem[next := Header(mem[block].size - aligned - HEAD, true, mem[block].next)][block := Header(aligned,
            false, next)];
      } else {
        LaidMark(mem, blocks, i, false);
        TakeWhole(blocks, i, aligned);
        mem := mem[block := mem[block].(free := false)];
      }
      blocks := Take(blocks, i, aligned);
    }

    /** kfree of 0 or of the payload of block i, which is in use.  Exactly that payload stops being in
        use; all others stay where they are. */
    method Kfree(p: nat, ghost i: nat)
      requires Valid() && (p != 0 ==> i < |blocks| && !blocks[i].free && p == At(BASE, blocks, i) + HEAD)
      modifies this
      ensures Valid()
      ensures p == 0 ==> mem == old(mem) && blocks == old(blocks)
      ensures p != 0 ==> blocks == Merge(old(blocks)[i := old(blocks)[i].(free := true)])
      ensures p != 0 ==>
                (p, old(blocks)[i].size) in old(InUse()) && InUse() == old(InUse()) - {(p, old(blocks)[i].size)}
    {
      hide At, Live, Merged, Merge;
      if p == 0 {
        return;
      }
      FreeKeeps(BASE, blocks, i);
      LaidMark(mem, blocks, i, true);
      mem := mem[p - HEAD := mem[p - HEAD].(free := true)];
      blocks := blocks[i := blocks[i].(free := true)];
      MergeAll();
    }

    /** The loop of kfree over the whole list. */
    method MergeAll()
      requires Laid(mem, blocks) && Tiles(blocks)
      modifies this
      ensures Valid() && blocks == Merge(old(blocks)) && InUse() == old(InUse())
    {
      hide At, Live, Merged, Merge;
      ghost var bs, c := blocks, 0;
      var current := BASE;
      AtStart(blocks);
      assert blocks[..0] + Merge(blocks[0..]) == Merge(bs) by { assert blocks[0..] == blocks; }
      while current != 0 && mem[current].next != 0
        invariant Laid(mem, blocks) && c < |blocks| && current == At(BASE, blocks, c)
        invariant blocks[..c] + Merge(blocks[c..]) == Merge(bs)
        decreases |blocks| - c
      {
        AtAbove(blocks, c);
        assert mem[current] == HeaderOf(blocks, c);
        assert c + 1 < |blocks|;
        AtAbove(blocks, c + 1);
        var next := mem[current].next;
        assert mem[next] == HeaderOf(blocks, c + 1);
        MergeStep(blocks[c..]);
        if mem[current].free && mem[next].free {
          LaidJoin(mem, blocks, c);
          JoinTail(blocks, c);
          mem := mem[current := Header(mem[current].size + HEAD + mem[next].size, mem[current].free, mem[next].next)];
          blocks := Join(blocks, c);
        } else {
          assert blocks[..c] + ([blocks[c]] + Merge(blocks[c + 1..])) == blocks[..c + 1] + Merge(blocks[c + 1..]);
          assert blocks[c..][1..] == blocks[c + 1..];
          current := next;
          c := c + 1;
        }
      }
      AtAbove(blocks, c);
      assert mem[current] == HeaderOf(blocks, c);
      if c + 1 < |blocks| {
        AtAbove(blocks, c + 1);
      }
      assert c + 1 == |blocks|;
      MergeShort(blocks[c..]);
      assert blocks[..c] + blocks[c..] == blocks;
      MergeMerges(bs);
      MergeKeeps(BASE, bs);
    }
  }

  lemma AtStart(bs: seq<Block>)
    ensures At(BASE, bs, 0) == BASE
  {
  }

  lemma FirstFitIs(bs: seq<Block>, n: nat, i: nat)
    requires i <= |bs| && (i < |bs| ==> bs[i].free && bs[i].size >= n)
    requires forall j :: 0 <= j < i ==> !(bs[j].free && bs[j].size >= n)
    ensures FirstFit(bs, n) == i
  {
  }

  lemma BlockFits(bs: seq<Block>, i: nat)
    requires Tiles(bs) && i < |bs|
    ensures bs[i].size < SIZE
  {
    AtOrder(bs, i, |bs|);
  }

  lemma TakeWhole(bs: seq<Block>, i: nat, n: nat)
    requires i < |bs| && n <= bs[i].size < n + HEAD + 16
    ensures Take(bs, i, n) == bs[i := bs[i].(free := false)]
  {
  }

  lemma JoinTail(bs: seq<Block>, c: nat)
    requires c + 1 < |bs| && bs[c].free
    ensures Join(bs, c)[..c] == bs[..c]
    ensures Join(bs, c)[c..] == [Block(bs[c..][0].size + HEAD + bs[c..][1].size, true)] + bs[c..][2..]
  {
  }

  /** A request that is served and given back leaves the list of blocks as it was. */
  method MallocThenFree(h: KernelHeap, size: nat) returns (p: nat)
    requires h.Valid() && size < WORD
    modifies h
    ensures h.Valid() && h.blocks == old(h.blocks) && h.InUse() == old(h.InUse())
    ensures p == 0 <==> AlignSize(size) == 0 || FirstFit(h.blocks, AlignSize(size)) == |h.blocks|
  {
    hide At, Take, Live, Merged, Merge, AlignSize, Laid, Tiles;
    ghost var i, bs := 0, h.blocks;
    p, i := h.Kmalloc(size);
    if p != 0 {
      TakeThenFree(bs, i, AlignSize(size));
      TakeInUse(bs, i, AlignSize(size));
      h.Kfree(p, i);
    }
  }

  lemma TakeInUse(bs: seq<Block>, i: nat, n: nat)
    requires i < |bs| && bs[i].free && n <= bs[i].size
    ensures i < |Take(bs, i, n)| && !Take(bs, i, n)[i].free
  {
  }

  /** heap_free_bytes */
  ghost function FreeBytes(bs: seq<Block>): nat {
    if |bs| == 0 then 0 else FreeBytes(bs[..|bs| - 1]) + (if bs[|bs| - 1].free then bs[|bs| - 1].size else 0)
  }

  /** The sizes of the payloads in use. */
  ghost function UsedBytes(bs: seq<Block>): nat {
    if |bs| == 0 then 0 else UsedBytes(bs[..|bs| - 1]) + (if bs[|bs| - 1].free then 0 else bs[|bs| - 1].size)
  }

  /** Free bytes, payloads in use and headers are all the bytes of the blocks. */
  lemma {:induction false} AllBytes(bs: seq<Block>)
    ensures FreeBytes(bs) + UsedBytes(bs) + HEAD * |bs| == At(BASE, bs, |bs|) - BASE
  {
    if |bs| > 0 {
      var less := bs[..|bs| - 1];
      AllBytes(less);
      SameStart(bs, less, |less|);
    }
  }

  lemma {:induction false} SameStart(a: seq<Block>, b: seq<Block>, n: nat)
    requires n <= |a| && n <= |b| && forall i :: 0 <= i < n ==> a[i] == b[i]
    ensures At(BASE, a, n) == At(BASE, b, n)
  {
    if n > 0 {
      SameStart(a, b, n - 1);
    }
  }

  method HeapFreeBytes(h: KernelHeap) returns (total: nat)
    requires h.Valid()
    ensures total == FreeBytes(h.blocks) && total + UsedBytes(h.blocks) + HEAD * |h.blocks| == SIZE
  {
    hide At, Live, Merged, Merge;
    AllBytes(h.blocks);
    var block := BASE;
    total := 0;
    ghost var i := 0;
    AtStart(h.blocks);
    while block != 0
      invariant i <= |h.blocks| && block == (if i < |h.blocks| then At(BASE, h.blocks, i) else 0)
      invariant total == FreeBytes(h.blocks[..i])
      decreases |h.blocks| - i
    {
      AtAbove(h.blocks, i);
      assert h.mem[block] == HeaderOf(h.blocks, i);
      assert h.blocks[..i + 1][..i] == h.blocks[..i];
      if h.mem[block].free {
        total := total + h.mem[block].size;
      }
      if i + 1 < |h.blocks| {
        AtAbove(h.blocks, i + 1);
      }
      block := h.mem[block].next;
      i := i + 1;
    }
    AtAbove(h.blocks, i);
    assert h.blocks[..i] == h.blocks;
  }
}
