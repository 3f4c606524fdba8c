/** Tearing an address space down: every frame of its lower half is given back exactly once, and no
    frame is touched after it has been given back. */
module PagingTeardown {
  import opened Bytes
  import opened Counting
  import opened Frames
  import opened Paging

  /** The frames below the first n entries of table t, in the order in which they are given back.  A
      table of level 1 points at pages, one of a higher level at tables. */
  ghost function Owned(mem: Memory, t: nat, level: nat, n: nat): (s: seq<nat>)
    requires 1 <= level && n <= 512
    decreases level, n, 0
  {
    if n == 0 || t !in mem then [] else Owned(mem, t, level, n - 1) + Share(mem, t, level, n - 1)
  }

  /** The frames below entry i, and the one it points at. */
  ghost function Share(mem: Memory, t: nat, level: nat, i: nat): (s: seq<nat>)
    requires 1 <= level && i < 512 && t in mem
    decreases level, i, 1
  {
    var e := mem[t][i];
    if !Bit(e, PRESENT) then []
    else (if level == 1 then [] else Owned(mem, Address(e), level - 1, 512)) + [Address(e)]
  }

  /** All tables below t are there. */
  ghost predicate TablesIn(mem: Memory, t: nat, level: nat)
    requires 1 <= level
    decreases level
  {
    t in mem && (level > 1 ==> forall i :: 0 <= i < 512 && Bit(mem[t][i], PRESENT) ==>
                 TablesIn(mem, Address(mem[t][i]), level - 1))
  }

  lemma {:induction false} OwnedPrefix(mem: Memory, t: nat, level: nat, i: nat, n: nat)
    requires 1 <= level && i <= n <= 512 && t in mem
    ensures |Owned(mem, t, level, i)| <= |Owned(mem, t, level, n)|
    ensures Owned(mem, t, level, n)[..|Owned(mem, t, level, i)|] == Owned(mem, t, level, i)
    decreases n
  {
    hide Share;
    if i < n {
      OwnedPrefix(mem, t, level, i, n - 1);
    }
  }

  /** What it takes to give back the frames below entry i when those below the earlier ones are gone. */
  ghost predicate Parts(t: nat, a: seq<nat>, b: seq<nat>, all: seq<nat>) {
    && Distinct(b) && Elements(a) !! Elements(b) && t !in a && t !in b
    && Elements(a) <= Elements(all) && Elements(b) <= Elements(all)
  }

  lemma OwnedParts(mem: Memory, t: nat, level: nat, i: nat, n: nat)
    requires 1 <= level && i < n <= 512 && t in mem && Distinct(Owned(mem, t, level, n) + [t])
    ensures Owned(mem, t, level, i + 1) == Owned(mem, t, level, i) + Share(mem, t, level, i)
    ensures Parts(t, Owned(mem, t, level, i), Share(mem, t, level, i), Owned(mem, t, level, n))
  {
    hide Share;
    OwnedPrefix(mem, t, level, i + 1, n);
    SplitParts(t, Owned(mem, t, level, i), Share(mem, t, level, i), Owned(mem, t, level, n));
  }

  lemma SplitParts(t: nat, a: seq<nat>, b: seq<nat>, all: seq<nat>)
    requires Distinct(all + [t]) && |a + b| <= |all| && all[..|a + b|] == a + b
    ensures Parts(t, a, b, all)
  {
    var s := all + [t];
    assert forall i :: 0 <= i < |a| ==> a[i] == (a + b)[i] == all[..|a + b|][i] == s[i];
    assert forall i :: 0 <= i < |b| ==> b[i] == (a + b)[|a| + i] == all[..|a + b|][|a| + i] == s[|a| + i];
    assert s[|all|] == t;
  }

  // ----- giving back

  /** Read or write an entry of a table.  Neither is allowed once the frame has been given back. */
  method Load(x: Mmu, t: nat, i: nat, ghost since: nat) returns (w: Word)
    requires t in x.mem && i < 512 && since <= |x.alloc.freed| && t !in x.alloc.freed[since..]
    ensures w == x.mem[t][i]
  {
    w := x.mem[t][i];
  }

  method Store(x: Mmu, t: nat, i: nat, w: Word, ghost since: nat)
    requires t in x.mem && i < 512 && since <= |x.alloc.freed| && t !in x.alloc.freed[since..]
    modifies x`mem
    ensures x.mem == SetWord(old(x.mem), t, i, w)
  {
    x.mem := x.mem[t := x.mem[t][i := w]];
  }

  /** The tables among the frames s are as they were in mem0. */
  ghost predicate AsBefore(mem0: Memory, mem: Memory, s: set<nat>) {
    forall f :: f in s && f in mem0 ==> f in mem && mem[f] == mem0[f]
  }

  /** Nothing outside s differs. */
  ghost predicate OnlyIn(mem: Memory, mem': Memory, s: set<nat>) {
    mem'.Keys == mem.Keys && forall f :: f in mem && f !in s ==> mem'[f] == mem[f]
  }

  /** Table t with its first n present entries cleared. */
  ghost predicate Cleared(before: Table, after: Table, n: nat)
    requires n <= 512
  {
    forall j :: 0 <= j < 512 ==> after[j] == if j < n && Bit(before[j], PRESENT) then 0 else before[j]
  }

  /** The allocator gave back k frames: the list takes what it has room for, the counter drops by as much. */
  ghost predicate GivenBack(listed: nat, pages: nat, listed': nat, pages': nat, k: nat) {
    listed' == Min(CAPACITY, listed + k) && pages' == pages - (listed' - listed)
  }

  /** What giving back changes. */
  datatype Snap = Snap(mem: Memory, freed: seq<nat>, live: set<nat>, listed: nat, pages: nat)

  ghost function Now(x: Mmu): Snap
    reads x, x.alloc
  {
    Snap(x.mem, x.alloc.freed, x.alloc.live, |x.alloc.freeList|, x.alloc.allocatedPages)
  }

  /** From s to s', exactly the frames done were given back, in that order, and no table outside touched
      was written. */
  ghost predicate Gave(s: Snap, s': Snap, done: seq<nat>, touched: set<nat>) {
    && s'.freed == s.freed + done && s'.live == s.live - Elements(done) && OnlyIn(s.mem, s'.mem, touched)
    && GivenBack(s.listed, s.pages, s'.listed, s'.pages, |done|)
  }

  lemma GaveNone(s: Snap)
    requires s.listed <= CAPACITY
    ensures Gave(s, s, [], {})
  {
    assert s.freed + [] == s.freed;
  }

  lemma GaveTrans(s: Snap, s1: Snap, s2: Snap, a: seq<nat>, t1: set<nat>, b: seq<nat>, t2: set<nat>)
    requires Gave(s, s1, a, t1) && Gave(s1, s2, b, t2)
    ensures Gave(s, s2, a + b, t1 + t2)
  {
    assert s.freed + a + b == s.freed + (a + b);
    assert Elements(a + b) == Elements(a) + Elements(b);
  }

  lemma GaveWider(s: Snap, s': Snap, a: seq<nat>, t: set<nat>, t': set<nat>)
    requires Gave(s, s', a, t) && t <= t'
    ensures Gave(s, s', a, t')
  {
  }

  method Give(x: Mmu, f: nat)
    requires x.alloc.Valid() && f in x.alloc.live
    modifies x.alloc
    ensures x.alloc.Valid() && Gave(old(Now(x)), Now(x), [f], {})
  {
    hide Books, Behind, All, ValidMap, Frames.Within;
    x.alloc.LiveIsUsable(f);
    ListBound(x.alloc.live, x.alloc.lost, x.alloc.freeList, x.alloc.allocatedPages);
    x.alloc.Free(f);
  }

  /** Before the frames below t are given back: they are live, they and t are untouched, and none of them
      has been given back since. */
  ghost predicate Ready(x: Mmu, mem0: Memory, t: nat, all: seq<nat>, since: nat)
    reads x, x.alloc
  {
    && x.alloc.Valid() && since <= |x.alloc.freed|
    && Elements(all) <= x.alloc.live && Elements(all) + {t} !! Elements(x.alloc.freed[since..])
    && AsBefore(mem0, x.mem, Elements(all) + {t})
  }

  /** The loops of paging_destroy_address_space, one level at a time: give back everything below the
      first n entries of table t and clear these entries. */
  method Release(x: Mmu, t: nat, level: nat, n: nat, ghost mem0: Memory, ghost since: nat)
    requires 1 <= level <= 4 && n <= 512 && TablesIn(mem0, t, level) && Distinct(Owned(mem0, t, level, n) + [t])
    requires Ready(x, mem0, t, Owned(mem0, t, level, n), since)
    modifies x`mem, x.alloc
    ensures x.alloc.Valid() && t in x.mem && Cleared(mem0[t], x.mem[t], n)
    ensures Gave(old(Now(x)), Now(x), Owned(mem0, t, level, n), Elements(Owned(mem0, t, level, n)) + {t})
    decreases level, 1
  {
    hide Books, Behind, All, ValidMap, Frames.Within, Bit, Address, Owned, Share, TablesIn, Distinct, Gave, Parts,
         AsBefore, Cleared;
    ghost var s0, all := Now(x), Owned(mem0, t, level, n);
    TablesHere(mem0, t, level);
    NothingOwned(mem0, t, level);
    ReadyTable(x, mem0, t, all, since);
    ClearedNone(mem0[t]);
    ListBound(x.alloc.live, x.alloc.lost, x.alloc.freeList, x.alloc.allocatedPages);
    GaveNone(s0);
    GaveWider(s0, s0, [], {}, Elements(Owned(mem0, t, level, 0)) + {t});
    for i := 0 to n
      invariant x.alloc.Valid() && t in x.mem && Cleared(mem0[t], x.mem[t], i)
      invariant Gave(s0, Now(x), Owned(mem0, t, level, i), Elements(Owned(mem0, t, level, i)) + {t})
    {
      OwnedParts(mem0, t, level, i, n);
      ghost var s1, a, b := Now(x), Owned(mem0, t, level, i), Share(mem0, t, level, i);
      StillThere(s0, s1, mem0, t, a, b, all, since);
      var e := Load(x, t, i, since);
      ShareIs(mem0, t, level, i);
      ClearedNot(mem0[t], x.mem[t], i);
      if Bit(e, PRESENT) {
        ReleaseEntry(x, t, level, i, e, mem0, since);
        ghost var s3 := Now(x);
        GaveTrans(s0, s1, s3, a, Elements(a) + {t}, b, Elements(b) + {});
        TableLeft(s1, s3, t, b, since);
        Store(x, t, i, 0, since);
        Finished(s0, s3, Now(x), mem0, t, a, b, i);
      } else {
        NothingToDo(mem0[t], x.mem[t], i);
        assert a + b == a;
      }
    }
  }

  /** The body of these loops for an entry that is present: give back what lies below it, then its frame. */
  method ReleaseEntry(x: Mmu, t: nat, level: nat, i: nat, e: Word, ghost mem0: Memory, ghost since: nat)
    requires 1 <= level <= 4 && i < 512 && TablesIn(mem0, t, level) && t in mem0 && e == mem0[t][i] && Bit(e, PRESENT)
    requires x.alloc.Valid() && since <= |x.alloc.freed| && Distinct(Share(mem0, t, level, i))
    requires Elements(Share(mem0, t, level, i)) <= x.alloc.live
    requires Elements(Share(mem0, t, level, i)) !! Elements(x.alloc.freed[since..])
    requires AsBefore(mem0, x.mem, Elements(Share(mem0, t, level, i)))
    modifies x`mem, x.alloc
    ensures x.alloc.Valid()
    ensures Gave(old(Now(x)), Now(x), Share(mem0, t, level, i), Elements(Share(mem0, t, level, i)) + {})
    decreases level, 0
  {
    hide Books, Behind, All, ValidMap, Frames.Within, Bit, Address, Owned, Share, TablesIn, Distinct, Gave, Parts,
         AsBefore, Cleared;
    ghost var s1, b := Now(x), Share(mem0, t, level, i);
    ShareIs(mem0, t, level, i);
    var c := Address(e);
    if level > 1 {
      TablesBelow(mem0, t, level, i);
      SmallerReady(s1, mem0, c, Owned(mem0, c, level - 1, 512), b, since);
      Release(x, c, level - 1, 512, mem0, since);
    } else {
      ListBound(x.alloc.live, x.alloc.lost, x.alloc.freeList, x.alloc.allocatedPages);
      GaveNone(s1);
    }
    ghost var s2, below := Now(x), if level > 1 then Owned(mem0, c, level - 1, 512) else [];
    LastOfShare(s1, s2, below, c, b, Elements(below) + (if level > 1 then {c} else {}));
    Give(x, c);
    GaveTrans(s1, s2, Now(x), below, Elements(b), [c], {});
  }

  lemma TablesHere(mem: Memory, t: nat, level: nat)
    requires 1 <= level && TablesIn(mem, t, level)
    ensures t in mem
  {
  }

  lemma NothingOwned(mem: Memory, t: nat, level: nat)
    requires 1 <= level
    ensures Owned(mem, t, level, 0) == []
  {
  }

  lemma ShareIs(mem: Memory, t: nat, level: nat, i: nat)
    requires 1 <= level && i < 512 && t in mem
    ensures var e := mem[t][i];
            Share(mem, t, level, i) ==
            if !Bit(e, PRESENT) then []
            else (if level == 1 then [] else Owned(mem, Address(e), level - 1, 512)) + [Address(e)]
  {
  }

  lemma TablesBelow(mem: Memory, t: nat, level: nat, i: nat)
    requires 1 < level && i < 512 && TablesIn(mem, t, level) && Bit(mem[t][i], PRESENT)
    ensures TablesIn(mem, Address(mem[t][i]), level - 1)
  {
  }

  /** The frames still to be given back are as they were at the start. */
  lemma StillThere(s0: Snap, s1: Snap, mem0: Memory, t: nat, a: seq<nat>, b: seq<nat>, all: seq<nat>, since: nat)
    requires Gave(s0, s1, a, Elements(a) + {t}) && Parts(t, a, b, all)
    requires Elements(all) <= s0.live && since <= |s0.freed| && Elements(all) + {t} !! Elements(s0.freed[since..])
    requires AsBefore(mem0, s0.mem, Elements(all) + {t})
    ensures Elements(b) <= s1.live && since <= |s1.freed| && t !in s1.freed[since..]
    ensures Elements(b) !! Elements(s1.freed[since..]) && AsBefore(mem0, s1.mem, Elements(b)) && Distinct(b) && t !in b
  {
    assert s1.freed[since..] == s0.freed[since..] + a;
    assert t !in s0.freed[since..] by { assert t !in Elements(s0.freed[since..]); }
    forall f | f in Elements(b)
      ensures f in s1.live && f !in Elements(s1.freed[since..])
    {
      assert f in Elements(all) && f !in Elements(a) && f !in Elements(s0.freed[since..]);
    }
  }

  lemma SmallerReady(s: Snap, mem0: Memory, c: nat, o: seq<nat>, b: seq<nat>, since: nat)
    requires b == o + [c] && Distinct(b) && Elements(b) <= s.live && since <= |s.freed|
    requires Elements(b) !! Elements(s.freed[since..]) && AsBefore(mem0, s.mem, Elements(b))
    ensures Distinct(o + [c]) && Elements(o) <= s.live && Elements(o) + {c} !! Elements(s.freed[since..])
    ensures AsBefore(mem0, s.mem, Elements(o) + {c})
  {
    assert Elements(b) == Elements(o) + {c};
  }

  lemma LastOfShare(s1: Snap, s2: Snap, below: seq<nat>, c: nat, b: seq<nat>, touched: set<nat>)
    requires b == below + [c] && Distinct(b) && Elements(b) <= s1.live
    requires touched <= Elements(below) + {c} && Gave(s1, s2, below, touched)
    ensures c in s2.live && Gave(s1, s2, below, Elements(b))
  {
    TakeLast(b, below, c);
    GaveWider(s1, s2, below, touched, Elements(b));
  }

  lemma TableLeft(s1: Snap, s3: Snap, t: nat, b: seq<nat>, since: nat)
    requires Gave(s1, s3, b, Elements(b) + {}) && t !in b && t in s1.mem && since <= |s1.freed|
             && t !in s1.freed[since..]
    ensures t in s3.mem && s3.mem[t] == s1.mem[t] && since <= |s3.freed| && t !in s3.freed[since..]
  {
    assert s3.freed[since..] == s1.freed[since..] + b;
    assert t in s3.mem.Keys;
  }

  lemma Finished(s0: Snap, s3: Snap, s4: Snap, mem0: Memory, t: nat, a: seq<nat>, b: seq<nat>, i: nat)
    requires t in s3.mem && t in mem0 && i < 512 && s4 == s3.(mem := SetWord(s3.mem, t, i, 0))
             && Bit(mem0[t][i], PRESENT)
    requires Gave(s0, s3, a + b, Elements(a) + {t} + (Elements(b) + {})) && Cleared(mem0[t], s3.mem[t], i)
    ensures t in s4.mem && Gave(s0, s4, a + b, Elements(a + b) + {t}) && Cleared(mem0[t], s4.mem[t], i + 1)
  {
    hide Bit, GivenBack;
    assert Elements(a + b) == Elements(a) + Elements(b);
    assert s4.mem.Keys == s3.mem.Keys;
  }

  lemma ClearedNot(before: Table, after: Table, i: nat)
    requires i < 512 && Cleared(before, after, i)
    ensures after[i] == before[i]
  {
    hide Bit;
  }

  lemma ClearedNone(before: Table)
    ensures Cleared(before, before, 0)
  {
  }

  lemma ReadyTable(x: Mmu, mem0: Memory, t: nat, all: seq<nat>, since: nat)
    requires Ready(x, mem0, t, all, since) && t in mem0
    ensures t in x.mem && x.mem[t] == mem0[t]
  {
  }

  lemma NothingToDo(before: Table, after: Table, i: nat)
    requires i < 512 && Cleared(before, after, i) && !Bit(before[i], PRESENT)
    ensures Cleared(before, after, i + 1)
  {
    hide Bit;
  }

  // ----- the whole space

  /** paging_destroy_address_space: everything the lower half owns, then the top table. */
  method DestroySpace(x: Mmu, root: nat)
    requires x.alloc.Valid()
    requires root != 0 ==> TablesIn(x.mem, root, 4) && Distinct(Owned(x.mem, root, 4, 256) + [root])
    requires root != 0 ==> Elements(Owned(x.mem, root, 4, 256)) + {root} <= x.alloc.live
    modifies x`mem, x.alloc
    ensures x.alloc.Valid() && (old(x.Valid()) ==> x.Valid())
    ensures root == 0 ==> Now(x) == old(Now(x))
    ensures root != 0 ==>
              var done := Owned(old(x.mem), root, 4, 256) + [root];
              Gave(old(Now(x)), Now(x), done, Elements(done)) && root in x.mem
              && Cleared(old(x.mem)[root], x.mem[root], 256)
  {
    hide Books, Behind, All, ValidMap, Frames.Within, Owned, TablesIn, Distinct, GivenBack, OnlyIn, Cleared;
    if root == 0 {
      return;
    }
    ghost var s0, since, o := Now(x), |x.alloc.freed|, Owned(x.mem, root, 4, 256);
    assert x.alloc.freed[since..] == [];
    Release(x, root, 4, 256, x.mem, since);
    ghost var s1 := Now(x);
    TakeLast(o + [root], o, root);
    Give(x, root);
    GaveTrans(s0, s1, Now(x), o, Elements(o) + {root}, [root], {});
  }

  // ----- what the lower half owns

  /** Everything owned below a table is what some longer path leads to: a table, or a page for paths of
      four steps. */
  lemma {:induction false} OwnedIsReached(mem: Memory, root: nat, p: seq<nat>, t: nat, level: nat, n: nat, f: nat)
      returns (q: seq<nat>)
    requires 1 <= level && IsPath(p) && |p| + level == 4 && Node(mem, root, p) == Some(t) && n <= 512
    requires f in Owned(mem, t, level, n)
    ensures IsPath(q) && |p| < |q| && q[..|p|] == p && q[|p|] < n && Node(mem, root, q) == Some(f)
    decreases level, n
  {
    hide Bit, Address, Node, Owned, Share;
    OwnedStep(mem, t, level, n, f);
    if f in Owned(mem, t, level, n - 1) {
      q := OwnedIsReached(mem, root, p, t, level, n - 1, f);
    } else {
      ShareIs(mem, t, level, n - 1);
      var c := Address(mem[t][n - 1]);
      StepTo(mem, root, p, t, n - 1);
      if level > 1 && f in Owned(mem, c, level - 1, 512) {
        q := OwnedIsReached(mem, root, p + [n - 1], c, level - 1, 512, f);
        assert q[|p|] == q[..|p| + 1][|p|] && q[..|p|] == q[..|p| + 1][..|p|];
      } else {
        q := p + [n - 1];
      }
    }
  }

  lemma OwnedStep(mem: Memory, t: nat, level: nat, n: nat, f: nat)
    requires 1 <= level && n <= 512 && f in Owned(mem, t, level, n)
    ensures n > 0 && t in mem && (f in Owned(mem, t, level, n - 1) || f in Share(mem, t, level, n - 1))
  {
    hide Share;
  }

  lemma StepTo(mem: Memory, root: nat, p: seq<nat>, t: nat, i: nat)
    requires IsPath(p) && |p| < 4 && i < 512 && Node(mem, root, p) == Some(t) && t in mem
    ensures IsPath(p + [i])
    ensures Node(mem, root, p + [i]) == if Bit(mem[t][i], PRESENT) then Some(Address(mem[t][i])) else None
  {
    assert (p + [i])[..|p|] == p;
  }

  /** And everything that a longer path leads to is owned. */
  lemma {:induction false} ReachedIsOwned(mem: Memory, root: nat, p: seq<nat>, t: nat, level: nat, n: nat,
                                          q: seq<nat>, f: nat)
    requires 1 <= level && IsPath(p) && |p| + level == 4 && Node(mem, root, p) == Some(t) && n <= 512
    requires IsPath(q) && |p| < |q| && q[..|p|] == p && q[|p|] < n && Node(mem, root, q) == Some(f)
    ensures f in Owned(mem, t, level, n)
    decreases level
  {
    hide Bit, Address, Node, Owned;
    var i := q[|p|];
    var r := q[..|p| + 1];
    assert r == p + [i];
    PrefixReached(mem, root, q, |p| + 1);
    StepFrom(mem, root, p, t, i);
    var c := Address(mem[t][i]);
    OwnedPrefixHas(mem, t, level, i, n);
    ShareIs(mem, t, level, i);
    if |q| > |p| + 1 {
      ReachedIsOwned(mem, root, r, c, level - 1, 512, q, f);
    } else {
      assert q == r;
    }
    assert f in Share(mem, t, level, i);
  }

  lemma StepFrom(mem: Memory, root: nat, p: seq<nat>, t: nat, i: nat)
    requires IsPath(p) && |p| < 4 && i < 512 && Node(mem, root, p) == Some(t) && IsPath(p + [i])
             && Node(mem, root, p + [i]).Some?
    ensures t in mem && Bit(mem[t][i], PRESENT) && Node(mem, root, p + [i]) == Some(Address(mem[t][i]))
  {
    assert (p + [i])[..|p|] == p;
  }

  lemma {:induction false} PrefixReached(mem: Memory, root: nat, q: seq<nat>, n: nat)
    requires IsPath(q) && n <= |q| && Node(mem, root, q).Some?
    ensures Node(mem, root, q[..n]).Some?
    decreases |q|
  {
    hide Bit, Address;
    if n < |q| {
      PrefixReached(mem, root, q[..|q| - 1], n);
      assert q[..|q| - 1][..n] == q[..n];
    } else {
      assert q[..n] == q;
    }
  }

  lemma {:induction false} OwnedPrefixHas(mem: Memory, t: nat, level: nat, i: nat, n: nat)
    requires 1 <= level && i < n <= 512 && t in mem
    ensures forall f :: f in Share(mem, t, level, i) ==> f in Owned(mem, t, level, n)
    decreases n
  {
    hide Share;
    if i < n - 1 {
      OwnedPrefixHas(mem, t, level, i, n - 1);
    }
  }

  /** A space whose tables are not among what was given back is as it was. */
  lemma OthersIntact(mem: Memory, mem': Memory, touched: set<nat>, b: nat)
    requires OnlyIn(mem, mem', touched) && Tree(mem, b) && forall f :: IsTable(mem, b, f) ==> f !in touched
    ensures Tree(mem', b) && SameFlat(mem, mem', b)
  {
    hide Node, Tree, SameFlat;
    NotTouched(mem, mem', touched, b);
    UntouchedTree(mem, mem', b);
  }

  /** All tables of a space that is a tree are there. */
  lemma TreeTables(mem: Memory, root: nat)
    requires Tree(mem, root)
    ensures TablesIn(mem, root, 4)
  {
    RootNode(mem, root);
    NodeTables(mem, root, [], root, 4);
  }

  lemma {:induction false} NodeTables(mem: Memory, root: nat, p: seq<nat>, t: nat, level: nat)
    requires Tree(mem, root) && IsTablePath(p) && |p| + level == 4 && Node(mem, root, p) == Some(t)
    ensures TablesIn(mem, t, level)
    decreases level
  {
    hide Node, Bit, Address;
    assert t in mem;
    if level > 1 {
      forall i | 0 <= i < 512 && Bit(mem[t][i], PRESENT)
        ensures TablesIn(mem, Address(mem[t][i]), level - 1)
      {
        StepTo(mem, root, p, t, i);
        NodeTables(mem, root, p + [i], Address(mem[t][i]), level - 1);
      }
    }
  }

  /** A frame that the lower half of a space maps as a page. */
  ghost predicate IsLowerPage(mem: Memory, root: nat, f: nat) {
    exists q :: IsPath(q) && |q| == 4 && q[0] < 256 && Node(mem, root, q) == Some(f)
  }

  /** What a space gives back is no table of another one, unless a page of it is. */
  lemma OwnedElsewhere(mem: Memory, live: set<nat>, roots: set<nat>, root: nat, r: nat, f: nat)
    requires System(mem, live, roots) && root in roots && r in roots && r != root && IsTable(mem, r, f)
             && !IsLowerPage(mem, root, f)
    ensures f !in Owned(mem, root, 4, 256) + [root]
  {
    hide Owned, Tree;
    var c :| IsTablePath(c) && Node(mem, r, c) == Some(f);
    assert Apart(mem, root, r);
    RootNode(mem, root);
    if f in Owned(mem, root, 4, 256) {
      var q := OwnedIsReached(mem, root, [], root, 4, 256, f);
    }
  }

  /** After a space has been destroyed the others are what they were: trees of live frames, apart from
      each other, with the same mappings and as open to user code. */
  lemma AfterDestroy(s: Snap, s': Snap, roots: set<nat>, root: nat)
    requires System(s.mem, s.live, roots) && root in roots
    requires var done := Owned(s.mem, root, 4, 256) + [root]; Gave(s, s', done, Elements(done))
    requires forall r, f :: r in roots && r != root && IsTable(s.mem, r, f) ==> !IsLowerPage(s.mem, root, f)
    ensures System(s'.mem, s'.live, roots - {root})
    ensures forall r :: r in roots && r != root ==>
              SameFlat(s.mem, s'.mem, r) && (UserOpen(s.mem, r) ==> UserOpen(s'.mem, r))
  {
    hide Node, Tree, SameFlat, UserOpen, Owned, GivenBack, IsLowerPage, Keeps;
    var done := Owned(s.mem, root, 4, 256) + [root];
    forall r | r in roots && r != root
      ensures Tree(s'.mem, r) && SameFlat(s.mem, s'.mem, r) && (UserOpen(s.mem, r) ==> UserOpen(s'.mem, r))
      ensures forall q :: IsTablePath(q) ==> Node(s'.mem, r, q) == Node(s.mem, r, q)
      ensures forall f :: IsTable(s.mem, r, f) ==> f in s'.live
    {
      forall f | IsTable(s.mem, r, f)
        ensures f !in Elements(done)
      {
        OwnedElsewhere(s.mem, s.live, roots, root, r, f);
      }
      NotTouched(s.mem, s'.mem, Elements(done), r);
      UntouchedTree(s.mem, s'.mem, r);
      UntouchedKeeps(s.mem, s'.mem, r);
      if UserOpen(s.mem, r) {
        UserOpenKept(s.mem, s'.mem, r);
      }
    }
    FewerSpaces(s.mem, s'.mem, s.live, s'.live, roots, root);
  }

  lemma NotTouched(mem: Memory, mem': Memory, touched: set<nat>, b: nat)
    requires OnlyIn(mem, mem', touched) && forall f :: IsTable(mem, b, f) ==> f !in touched
    ensures Untouched(mem, mem', b)
  {
    hide Node;
    forall q | IsTablePath(q) && Node(mem, b, q).Some?
      ensures var n := Node(mem, b, q).value; n in mem ==> n in mem' && mem'[n] == mem[n]
    {
      assert IsTable(mem, b, Node(mem, b, q).value);
    }
  }

  lemma FewerSpaces(mem: Memory, mem': Memory, live: set<nat>, live': set<nat>, roots: set<nat>, root: nat)
    requires System(mem, live, roots)
    requires forall r :: r in roots && r != root ==> Tree(mem', r) && forall f :: IsTable(mem, r, f) ==> f in live'
    requires forall r, q :: r in roots && r != root && IsTablePath(q) ==> Node(mem', r, q) == Node(mem, r, q)
    ensures System(mem', live', roots - {root})
  {
    hide Node, Tree;
    forall r, f | r in roots - {root} && IsTable(mem', r, f)
      ensures f in live'
    {
      assert IsTable(mem, r, f);
    }
    forall a, b | a in roots - {root} && b in roots - {root} && a != b
      ensures Apart(mem', a, b)
    {
      assert Apart(mem, a, b);
      forall i | 0 <= i < 512 && Shared(mem, a, b, i)
        ensures Shared(mem', a, b, i)
      {
        assert IsTablePath([i]);
      }
    }
  }
}
