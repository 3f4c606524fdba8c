/** Allocation of FAT32 clusters: next fit, bookkeeping of the free count, chains built and freed. */
module Fat32Allocator {
  import opened Counting
  import opened Bytes
  import opened VolumeLayout
  import opened Fat32Volume
  import opened Fat32Chains

  /** The free count is unknown or right. */
  ghost predicate Exact(x: Context)
    requires x.Valid()
    reads x, x.m
  {
    x.freeCount == UNKNOWN || x.freeCount == |Free(x.G(), x.V())|
  }

  /** Fewer than n clusters are free, or the free count says so. */
  ghost predicate Scarce(x: Context, n: nat)
    requires x.Valid()
    reads x, x.m
  {
    |Free(x.G(), x.V())| < n || (x.freeCount != UNKNOWN && x.freeCount < n)
  }

  /** All copies hold the same entries. */
  ghost predicate Mirrored(g: Geometry, s: State) {
    && (forall k :: 0 <= k < |s| ==> |s[k].fat| == g.clusterCount + 2)
    && (forall k, c :: 0 <= k < |s| && ValidCluster(g, c) ==> Entry(s[k].fat[c]) == Entry(s[0].fat[c]))
  }

  function Blank(g: Geometry): (b: seq<Sector>)
    ensures |b| == g.sectorsPerCluster && forall j :: 0 <= j < |b| ==> b[j] == Zeros(g.sectorSize)
  {
    seq(g.sectorsPerCluster, _ => Zeros(g.sectorSize))
  }

  /** A view after cluster c has been marked and cleared. */
  function Claim(g: Geometry, v: View, c: nat): (r: View)
    requires Shaped(g, v) && ValidCluster(g, c)
    ensures Shaped(g, r)
  {
    View(v.fat[c := Merge(v.fat[c], EOC_MARK)], v.heap[c := Blank(g)])
  }

  /** t is s with the first n sectors of cluster c cleared. */
  ghost predicate Cleared(g: Geometry, s: View, t: View, c: nat, n: nat) {
    && |t.heap| == |s.heap| == g.clusterCount + 2 && t.fat == s.fat && c < |t.heap|
    && (forall d :: 0 <= d < |t.heap| && d != c ==> t.heap[d] == s.heap[d])
    && n <= |t.heap[c]| == g.sectorsPerCluster && forall j :: 0 <= j < n ==> t.heap[c][j] == Zeros(g.sectorSize)
  }

  lemma ClearedMore(g: Geometry, s: View, t: View, c: nat, j: nat)
    requires Shaped(g, t) && ValidCluster(g, c) && j < g.sectorsPerCluster && Cleared(g, s, t, c, j)
    ensures Cleared(g, s, PutSector(g, t, c, j, Zeros(g.sectorSize)), c, j + 1)
  {
  }

  lemma ClearedAll(g: Geometry, s: View, u: View, t: View, c: nat)
    requires Shaped(g, s) && ValidCluster(g, c) && u == Put(g, s, c, EOC_MARK)
             && Cleared(g, u, t, c, g.sectorsPerCluster)
    ensures t == Claim(g, s, c)
  {
    assert t.heap[c] == Blank(g);
    assert t.heap == Claim(g, s, c).heap;
  }

  /** Fill a cluster with zeros. */
  method ClearCluster(x: Context, c: nat) returns (ok: bool)
    requires x.Valid() && ValidCluster(x.G(), c)
    modifies x`trail, x.m
    ensures x.Valid() && x.m.faults >= old(x.m.faults)
    ensures Trail(x.G(), old(x.trail), x.trail, {}, {c}) && |x.S()| == |old(x.S())|
    ensures ok ==> forall k :: 0 <= k < |x.S()| ==> Cleared(x.G(), old(x.S())[k], x.S()[k], c, x.G().sectorsPerCluster)
    ensures !ok ==> x.m.faults > old(x.m.faults)
  {
    hide Layout, ViewOf, StateOf, Traced, Copies, Shaped;
    ghost var s, t := x.S(), x.trail;
    TrailStay(x.G(), t);
    assert Trail(x.G(), t, t, {}, {c}) by { TrailWiden(x.G(), t, t, {}, {}, {}, {c}); }
    ClearedNone(x.G(), s, c);
    ok := true;
    for j := 0 to x.copies[0].sectorsPerCluster
      invariant x.Valid() && x.m.faults >= old(x.m.faults) && |x.S()| == |s|
      invariant Trail(x.G(), t, x.trail, {}, {c})
      invariant forall k :: 0 <= k < |s| ==> Cleared(x.G(), s[k], x.S()[k], c, j)
    {
      ghost var u, r := x.S(), x.trail;
      ok := x.WriteCluster(c, j, Zeros(x.copies[0].sectorSize));
      if !ok {
        return;
      }
      TrailMore(x.G(), t, r, x.trail, {}, {c}, {}, {c});
      forall k | 0 <= k < |s|
        ensures Cleared(x.G(), s[k], x.S()[k], c, j + 1)
      {
        ClearedMore(x.G(), s[k], u[k], c, j);
      }
    }
  }

  lemma ClearedNone(g: Geometry, s: State, c: nat)
    requires ShapedState(g, s) && ValidCluster(g, c)
    ensures forall k :: 0 <= k < |s| ==> Cleared(g, s[k], s[k], c, 0)
  {
    forall k | 0 <= k < |s|
      ensures Cleared(g, s[k], s[k], c, 0)
    {
      assert Shaped(g, s[k]);
    }
  }

  /** Mark a free cluster as the end of a chain and clear it; take the mark back when clearing fails. */
  method ClaimCluster(x: Context, c: nat) returns (ok: bool)
    requires x.Valid() && ValidCluster(x.G(), c)
    modifies x`trail, x.m
    ensures x.Valid() && x.m.faults >= old(x.m.faults)
    ensures Trail(x.G(), old(x.trail), x.trail, {c}, {c})
    ensures ok ==> |x.S()| == |old(x.S())| && forall k :: 0 <= k < |x.S()| ==>
              x.S()[k] == Claim(x.G(), old(x.S())[k], c)
    ensures !ok ==> x.m.faults > old(x.m.faults)
  {
    hide Layout, ViewOf, StateOf, Traced, Copies, Shaped, Cleared, Claim, Put;
    ghost var s, t := x.S(), x.trail;
    ok := x.SetCluster(c, EOC_MARK);
    ghost var s1, t1 := x.S(), x.trail;
    TrailWiden(x.G(), t, t1, {c}, {}, {c}, {c});
    if !ok {
      return;
    }
    ok := ClearCluster(x, c);
    ghost var s2, t2 := x.S(), x.trail;
    TrailMore(x.G(), t, t1, t2, {c}, {c}, {}, {c});
    if !ok {
      var undone := x.SetCluster(c, 0);
      TrailMore(x.G(), t, t2, x.trail, {c}, {c}, {c}, {});
      return;
    }
    forall k | 0 <= k < |s|
      ensures s2[k] == Claim(x.G(), s[k], c)
    {
      ClearedAll(x.G(), s[k], s1[k], s2[k], c);
    }
  }

  /** How far cluster d is ahead of the place where the search begins: the hint, or cluster 2 when that is none. */
  ghost function Ahead(count: nat, hint: nat, d: nat): int {
    var start := if hint < 2 || hint >= count + 2 then 2 else hint;
    if d >= start then d - start else d - start + count
  }

  /** c is the free cluster that comes first from the hint on, around the end. */
  ghost predicate NextFit(g: Geometry, v: View, hint: nat, c: nat)
    requires |v.fat| == g.clusterCount + 2
  {
    c in Free(g, v) && forall d :: d in Free(g, v) ==> Ahead(g.clusterCount, hint, c) <= Ahead(g.clusterCount, hint, d)
  }

  /** Search for a free cluster, starting at the hint and wrapping around once. */
  method FindFree(x: Context) returns (c: nat)
    requires x.Valid()
    modifies x.m`faults
    ensures x.Valid() && x.m.faults >= old(x.m.faults)
    ensures c != 0 ==> c in Free(x.G(), x.V())
    ensures c != 0 && x.m.faults == old(x.m.faults) ==> NextFit(x.G(), x.V(), x.nextFree, c)
    ensures c == 0 && x.m.faults == old(x.m.faults) ==> Free(x.G(), x.V()) == {}
  {
    hide Layout, ViewOf, StateOf, Traced, Shaped;
    var count := x.copies[0].clusterCount;
    var start := x.nextFree;
    if start < 2 || start >= count + 2 {
      start := 2;
    }
    c := start;
    for attempts := 0 to count
      invariant x.Valid() && x.m.faults >= old(x.m.faults)
      invariant c == if start + attempts < count + 2 then start + attempts else start + attempts - count
      invariant x.m.faults == old(x.m.faults) ==>
                  forall d :: ValidCluster(x.G(), d) && (start <= d < start + attempts
                                                         || d < start + attempts - count) ==>
                    d !in Free(x.G(), x.V())
    {
      var next := x.NextCluster(c);
      if next == 0 {
        return;
      }
      c := c + 1;
      if c >= count + 2 {
        c := 2;
      }
    }
    c := 0;
  }

  /** fat32_allocate_cluster: 0 when there is no free cluster, or when the device refused a request. */
  method AllocateCluster(x: Context) returns (c: nat)
    requires x.Valid()
    modifies x`trail, x`freeCount, x`nextFree, x.m
    ensures x.Valid() && x.m.faults >= old(x.m.faults)
    ensures c != 0 ==>
              && c in Free(x.G(), old(x.V())) && Trail(x.G(), old(x.trail), x.trail, {c}, {c})
              && (forall k :: 0 <= k < |x.copies| ==> x.S()[k] == Claim(x.G(), old(x.S())[k], c))
              && x.freeCount == if old(x.freeCount) in {0, UNKNOWN} then old(x.freeCount) else old(x.freeCount) - 1
    ensures c != 0 ==> x.nextFree == if c == x.G().clusterCount + 1 then 2 else c + 1
    ensures c != 0 && x.m.faults == old(x.m.faults) ==> NextFit(x.G(), old(x.V()), old(x.nextFree), c)
    ensures c == 0 ==> Trail(x.G(), old(x.trail), x.trail, Free(x.G(), old(x.V())), Free(x.G(), old(x.V())))
    ensures c == 0 && x.m.faults == old(x.m.faults) ==>
              && Free(x.G(), old(x.V())) == {} && x.trail == old(x.trail)
              && x.freeCount == if old(x.freeCount) == UNKNOWN then UNKNOWN else 0
  {
    hide Layout, ViewOf, StateOf, Traced, Shaped, Claim;
    ghost var t, free := x.trail, Free(x.G(), x.V());
    c := FindFree(x);
    if c != 0 {
      var claimed := ClaimCluster(x, c);
      if !claimed {
        TrailWiden(x.G(), t, x.trail, {c}, {c}, free, free);
        return 0;
      }
      if x.freeCount != UNKNOWN && x.freeCount > 0 {
        x.freeCount := x.freeCount - 1;
      }
      x.nextFree := if c + 1 >= x.copies[0].clusterCount + 2 then 2 else c + 1;
      return;
    }
    TrailStay(x.G(), t);
    TrailWiden(x.G(), t, t, {}, {}, free, free);
    if x.freeCount != UNKNOWN {
      x.freeCount := 0;
    }
  }

  // ----- freeing

  /** w is v with the entries of cl zeroed. */
  ghost predicate Freed(g: Geometry, v: View, w: View, cl: seq<nat>) {
    && Shaped(g, v) && |w.fat| == |v.fat| && w.heap == v.heap
    && forall d {:trigger w.fat[d]} :: 0 <= d < |v.fat| ==> w.fat[d] == if d in cl then Merge(v.fat[d], 0) else v.fat[d]
  }

  ghost predicate FreedState(g: Geometry, s: State, t: State, cl: seq<nat>) {
    |s| == |t| && forall k :: 0 <= k < |s| ==> Freed(g, s[k], t[k], cl)
  }

  lemma FreedNone(g: Geometry, s: State)
    requires ShapedState(g, s)
    ensures FreedState(g, s, s, [])
  {
  }

  lemma FreedMore(g: Geometry, s: State, t: State, u: State, cl: seq<nat>, c: nat)
    requires FreedState(g, s, t, cl) && ShapedState(g, t) && |u| == |t| && ValidCluster(g, c) && c !in cl
    requires forall k :: 0 <= k < |t| ==> u[k] == Put(g, t[k], c, 0)
    ensures FreedState(g, s, u, cl + [c])
  {
    forall k | 0 <= k < |s|
      ensures Freed(g, s[k], u[k], cl + [c])
    {
      assert Freed(g, s[k], t[k], cl);
      forall d | 0 <= d < |s[k].fat|
        ensures u[k].fat[d] == if d in cl + [c] then Merge(s[k].fat[d], 0) else s[k].fat[d]
      {
      }
    }
  }

  /** Freeing a chain adds its clusters to the free ones. */
  lemma FreedCount(g: Geometry, v: View, w: View, cl: seq<nat>)
    requires Chain(g, v, cl) && Freed(g, v, w, cl) && g.clusterCount + 2 <= EOC
    ensures |w.fat| == |v.fat| && Free(g, w) == Free(g, v) + Members(cl) && Free(g, v) !! Members(cl)
    ensures |Free(g, w)| == |Free(g, v)| + |cl| <= g.clusterCount
  {
    ChainClusters(g, v, cl);
    forall c | c in cl
      ensures c !in Free(g, v)
    {
      var i :| 0 <= i < |cl| && cl[i] == c;
      assert i < |cl| - 1 ==> Entry(v.fat[cl[i]]) == cl[i + 1];
    }
    assert Free(g, w) == Free(g, v) + Members(cl);
    DistinctSize(cl);
    assert Elements(cl) == Members(cl);
    FreeCount(g, w);
  }

  lemma FreeCount(g: Geometry, v: View)
    requires |v.fat| == g.clusterCount + 2
    ensures |Free(g, v)| <= g.clusterCount
  {
    RangeSize(2, g.clusterCount);
    SubsetSize(Free(g, v), Range(2, g.clusterCount));
  }

  lemma ClosedPut(g: Geometry, v: View, c: nat, span: set<nat>)
    requires Shaped(g, v) && Closed(g, v, span) && ValidCluster(g, c)
    ensures Closed(g, Put(g, v, c, 0), span)
  {
  }

  function Added(freeCount: nat, released: nat, capacity: nat): nat {
    if freeCount == UNKNOWN then UNKNOWN
    else if released > capacity - freeCount then capacity
    else freeCount + released
  }

  /** fat32_free_chain.  Whatever the device does, only entries of the chain's closed span change.
      Without device errors, a finite chain is freed as a whole, in every copy, and nothing else is. */
  method FreeChain(x: Context, first: nat, ghost span: set<nat>) returns (ok: bool)
    requires x.Valid()
    requires ValidCluster(x.G(), first) ==> first in span && Closed(x.G(), x.V(), span)
    modifies x`trail, x`freeCount, x`nextFree, x.m
    ensures x.Valid() && x.m.faults >= old(x.m.faults)
    ensures Trail(x.G(), old(x.trail), x.trail, span, {})
    ensures x.m.faults == old(x.m.faults) ==> (ok <==> exists cl :: ChainFrom(x.G(), old(x.V()), first, cl))
    ensures x.m.faults == old(x.m.faults) && !ok ==> x.trail == old(x.trail) && x.freeCount == old(x.freeCount)
    ensures x.m.faults == old(x.m.faults) ==>
              forall cl :: ChainFrom(x.G(), old(x.V()), first, cl) ==>
                && FreedState(x.G(), old(x.S()), x.S(), cl)
                && x.freeCount == Added(old(x.freeCount), |cl|, x.G().clusterCount)
  {
    hide Layout, ViewOf, StateOf, Traced, Shaped, Chain, Closed, FreedState, Step, Put;
    ghost var s, t, v := x.S(), x.trail, x.V();
    TrailStay(x.G(), t);
    TrailWiden(x.G(), t, t, {}, {}, span, {});
    ok := ChainValid(x, first);
    assert x.V() == v;
    if !ok {
      return;
    }
    ghost var cl: seq<nat>, exact := [], x.m.faults == old(x.m.faults);
    if exact {
      cl :| ChainFrom(x.G(), v, first, cl);
    }
    var released;
    ok, released := ReleaseLinks(x, first, span, cl, exact);
    if !ok {
      return;
    }
    if x.freeCount != UNKNOWN {
      var capacity := x.copies[0].clusterCount;
      x.freeCount := if released > capacity - x.freeCount then capacity else x.freeCount + released;
    }
    if first < x.nextFree {
      x.nextFree := first;
    }
    if x.m.faults == old(x.m.faults) {
      forall cl' | ChainFrom(x.G(), v, first, cl')
        ensures cl' == cl
      {
        ChainUnique(x.G(), v, cl, cl');
      }
    }
  }

  /** The entries still to be freed are as they were. */
  lemma StillLinked(g: Geometry, s: State, t: State, cl: seq<nat>, i: nat)
    requires |s| >= 1 && Chain(g, s[0], cl) && Clusters(g, cl) && g.clusterCount + 2 <= RESERVED_START
    requires i < |cl| && FreedState(g, s, t, cl[..i])
    ensures ValidCluster(g, cl[i]) && |t[0].fat| == g.clusterCount + 2 && cl[i] !in cl[..i]
    ensures Step(g, t[0].fat[cl[i]]) == Some(if i + 1 < |cl| then cl[i + 1] else EOC)
  {
    ChainSteps(g, s[0], cl, i);
    assert Freed(g, s[0], t[0], cl[..i]);
    assert t[0].fat[cl[i]] == s[0].fat[cl[i]];
  }

  /** Freeing goes on inside the span, and never frees a cluster twice. */
  lemma StillZero(g: Geometry, v: View, c: nat, next: nat, span: set<nat>, todo: set<nat>)
    requires Shaped(g, v) && Closed(g, v, span) && c in span && ValidCluster(g, c)
    requires ValidCluster(g, next) && next == Entry(v.fat[c])
    requires todo <= span && forall d :: d in span && d !in todo ==> ValidCluster(g, d) && Entry(v.fat[d]) == 0
    ensures next in span && c in todo && |todo - {c}| < |todo| && Closed(g, Put(g, v, c, 0), span)
    ensures forall d :: d in span && d !in todo - {c} ==> ValidCluster(g, d) && Entry(Put(g, v, c, 0).fat[d]) == 0
  {
    ClosedPut(g, v, c, span);
  }

  /** The loop that zeroes one entry after another. */
  method ReleaseLinks(x: Context, first: nat, ghost span: set<nat>, ghost cl: seq<nat>, ghost exact: bool)
    returns (ok: bool, released: nat)
    requires x.Valid() && ValidCluster(x.G(), first) && first in span && Closed(x.G(), x.V(), span)
    requires exact ==> ChainFrom(x.G(), x.V(), first, cl)
    modifies x`trail, x.m
    ensures x.Valid() && x.m.faults >= old(x.m.faults)
    ensures Trail(x.G(), old(x.trail), x.trail, span, {})
    ensures exact && x.m.faults == old(x.m.faults) ==>
              ok && released == |cl| && FreedState(x.G(), old(x.S()), x.S(), cl)
  {
    hide Layout, ViewOf, StateOf, Traced, Shaped, Chain, Closed, FreedState, Step, Put, Freed;
    ghost var s, t, v := x.S(), x.trail, x.V();
    TrailStay(x.G(), t);
    TrailWiden(x.G(), t, t, {}, {}, span, {});
    FreedNone(x.G(), s);
    var cluster := first;
    released := 0;
    ghost var todo := span;
    if exact {
      ChainClusters(x.G(), v, cl);
    }
    while true
      invariant x.Valid() && x.m.faults >= old(x.m.faults) && cluster in span && Closed(x.G(), x.V(), span)
      invariant todo <= span && forall c :: c in span && c !in todo ==>
                  ValidCluster(x.G(), c) && Entry(x.V().fat[c]) == 0
      invariant Trail(x.G(), t, x.trail, span, {})
      invariant exact && x.m.faults == old(x.m.faults) ==>
                  released < |cl| && cluster == cl[released] && FreedState(x.G(), s, x.S(), cl[..released])
      decreases |todo|
    {
      ghost var s1, t1, v1 := x.S(), x.trail, x.V();
      var next;
      if exact && x.m.faults == old(x.m.faults) {
        StillLinked(x.G(), s, s1, cl, released);
      }
      ok, next := ChainAdvance(x, cluster);
      if !ok {
        return;
      }
      ok := x.SetCluster(cluster, 0);
      TrailMore(x.G(), t, t1, x.trail, span, {}, {cluster}, {});
      if !ok {
        return;
      }
      if exact && x.m.faults == old(x.m.faults) {
        FreedMore(x.G(), s, s1, x.S(), cl[..released], cluster);
        assert cl[..released] + [cluster] == cl[..released + 1];
      }
      released := released + 1;
      if next >= EOC {
        assert cl[..|cl|] == cl;
        return;
      }
      StillZero(x.G(), v1, cluster, next, span, todo);
      todo := todo - {cluster};
      cluster := next;
    }
  }

  // ----- building chains

  ghost predicate InRange(g: Geometry, cl: seq<nat>) {
    g.clusterCount + 2 <= RESERVED_START && forall i :: 0 <= i < |cl| ==> ValidCluster(g, cl[i])
  }

  /** The entry of the i-th cluster of a chain. */
  ghost function LinkAfter(g: Geometry, cl: seq<nat>, i: nat): (e: nat)
    requires InRange(g, cl) && i < |cl|
    ensures 0 < e < 0x1000_0000 && (ValidCluster(g, e) ==> e in cl) && (e >= EOC <==> i + 1 == |cl|)
  {
    if i + 1 < |cl| then cl[i + 1] else EOC_MARK
  }

  /** w is v with the clusters cl cleared and linked in order. */
  ghost predicate BuiltView(g: Geometry, v: View, w: View, cl: seq<nat>) {
    && Shaped(g, v) && |w.fat| == |v.fat| && |w.heap| == |v.heap|
    && InRange(g, cl)
    && (forall d :: 0 <= d < |v.fat| && d !in cl ==> w.fat[d] == v.fat[d] && w.heap[d] == v.heap[d])
    && (forall i :: 0 <= i < |cl| ==> w.fat[cl[i]] == Merge(v.fat[cl[i]], LinkAfter(g, cl, i)))
    && (forall i :: 0 <= i < |cl| ==> w.heap[cl[i]] == Blank(g))
  }

  /** In every copy, the distinct clusters cl, free in s, form a cleared chain in t. */
  ghost predicate Built(g: Geometry, s: State, t: State, cl: seq<nat>) {
    && |t| == |s| >= 1 && Distinct(cl)
    && (forall k :: 0 <= k < |s| ==> BuiltView(g, s[k], t[k], cl))
    && (forall i :: 0 <= i < |cl| ==> cl[i] in Free(g, s[0]))
  }

  lemma BuiltNone(g: Geometry, s: State)
    requires ShapedState(g, s) && g.clusterCount + 2 <= RESERVED_START
    ensures Built(g, s, s, [])
  {
  }

  lemma BuiltIsChain(g: Geometry, s: State, t: State, cl: seq<nat>)
    requires Built(g, s, t, cl) && |cl| > 0
    ensures ChainFrom(g, t[0], cl[0], cl)
  {
    assert BuiltView(g, s[0], t[0], cl);
    forall i | 0 <= i < |cl|
      ensures Entry(t[0].fat[cl[i]]) == LinkAfter(g, cl, i)
    {
    }
  }

  lemma BuiltFree(g: Geometry, s: State, t: State, cl: seq<nat>)
    requires Built(g, s, t, cl)
    ensures |t[0].fat| == |s[0].fat| == g.clusterCount + 2
    ensures Free(g, t[0]) == Free(g, s[0]) - Members(cl) && Members(cl) <= Free(g, s[0])
    ensures |Free(g, t[0])| == |Free(g, s[0])| - |cl|
  {
    hide Merge, Entry, Blank, LinkAfter;
    assert BuiltView(g, s[0], t[0], cl);
    forall c | c in cl
      ensures c in Free(g, s[0]) && c !in Free(g, t[0])
    {
      var i :| 0 <= i < |cl| && cl[i] == c;
      assert Entry(t[0].fat[cl[i]]) == LinkAfter(g, cl, i);
    }
    assert Free(g, t[0]) == Free(g, s[0]) - Members(cl);
    DistinctSize(cl);
    assert Elements(cl) == Members(cl);
  }

  /** One more free cluster, marked, cleared and hung behind the chain. */
  lemma BuiltMoreView(g: Geometry, v: View, w: View, cl: seq<nat>, c: nat)
    requires BuiltView(g, v, w, cl) && Shaped(g, w) && ValidCluster(g, c) && c !in cl && Distinct(cl)
    ensures BuiltView(g, v, Extend(g, w, cl, c), cl + [c])
  {
    hide Merge, Entry, Blank, Extend;
    ExtendAt(g, w, cl, c);
    var r, cl' := Extend(g, w, cl, c), cl + [c];
    forall i | 0 <= i < |cl'|
      ensures r.fat[cl'[i]] == Merge(v.fat[cl'[i]], LinkAfter(g, cl', i))
    {
      if i < |cl| - 1 {
        assert cl[i] != cl[|cl| - 1] && LinkAfter(g, cl', i) == LinkAfter(g, cl, i);
        assert r.fat[cl[i]] == w.fat[cl[i]];
      } else if i == |cl| - 1 {
        MergeTwice(v.fat[cl[i]], EOC_MARK, c);
      }
    }
  }

  lemma ExtendAt(g: Geometry, w: View, cl: seq<nat>, c: nat)
    requires Shaped(g, w) && InRange(g, cl) && ValidCluster(g, c) && c !in cl
    ensures var r := Extend(g, w, cl, c);
            && |r.fat| == |w.fat| && |r.heap| == |w.heap|
            && (forall d :: 0 <= d < |w.heap| ==> r.heap[d] == if d == c then Blank(g) else w.heap[d])
            && (forall d :: 0 <= d < |w.fat| ==>
                  r.fat[d] == if d == c then Merge(w.fat[d], EOC_MARK)
                              else if |cl| > 0 && d == cl[|cl| - 1] then Merge(w.fat[d], c) else w.fat[d])
  {
    hide Merge, Blank;
  }

  /** A view with c claimed and hung behind the chain cl. */
  ghost function Extend(g: Geometry, v: View, cl: seq<nat>, c: nat): (r: View)
    requires Shaped(g, v) && InRange(g, cl) && ValidCluster(g, c)
  {
    if |cl| == 0 then Claim(g, v, c) else Put(g, Claim(g, v, c), cl[|cl| - 1], c)
  }

  lemma MergeTwice(word: nat, a: nat, b: nat)
    requires word < 0x1_0000_0000 && a < 0x1000_0000 && b < 0x1000_0000
    ensures Merge(Merge(word, a), b) == Merge(word, b)
    ensures Entry(word) == 0 ==> Merge(word, 0) == word
  {
  }

  lemma BuiltMore(g: Geometry, s: State, t: State, u: State, cl: seq<nat>, c: nat)
    requires Built(g, s, t, cl) && ShapedState(g, t) && InRange(g, cl) && |u| == |t| && c in Free(g, t[0])
    requires forall k :: 0 <= k < |t| ==> u[k] == Extend(g, t[k], cl, c)
    ensures Built(g, s, u, cl + [c])
  {
    hide BuiltView, Claim, Put, Shaped;
    BuiltFree(g, s, t, cl);
    assert c !in cl by { assert c !in Members(cl); }
    forall k | 0 <= k < |s|
      ensures BuiltView(g, s[k], u[k], cl + [c])
    {
      BuiltMoreView(g, s[k], t[k], cl, c);
    }
  }

  lemma BuiltMembers(g: Geometry, s: State, t: State, cl: seq<nat>)
    requires Built(g, s, t, cl)
    ensures InRange(g, cl)
  {
    assert BuiltView(g, s[0], t[0], cl);
  }

  /** Writes to other clusters that were free leave a new chain closed. */
  lemma BuiltClosed(g: Geometry, s: State, t: State, u: State, cl: seq<nat>)
    requires Built(g, s, t, cl) && Moved(g, t, u, Free(g, t[0]), Free(g, t[0]))
    ensures |u[0].fat| == g.clusterCount + 2 && Closed(g, u[0], Members(cl))
  {
    BuiltFree(g, s, t, cl);
    assert BuiltView(g, s[0], t[0], cl) && Within(g, t[0], u[0], Free(g, t[0]), Free(g, t[0]));
    forall c | c in cl
      ensures ValidCluster(g, c) && (ValidCluster(g, Entry(u[0].fat[c])) ==> Entry(u[0].fat[c]) in Members(cl))
    {
      var i :| 0 <= i < |cl| && cl[i] == c;
      assert c in Members(cl);
      assert u[0].fat[c] == t[0].fat[c];
      assert Entry(t[0].fat[cl[i]]) == LinkAfter(g, cl, i);
    }
  }

  /** The chain with one more cluster that may or may not have been hung behind it. */
  lemma BuiltHalfClosed(g: Geometry, s: State, t: State, u: View, cl: seq<nat>, c: nat)
    requires Built(g, s, t, cl) && |cl| > 0 && Shaped(g, t[0]) && c in Free(g, t[0])
    requires InRange(g, cl) && (u == Claim(g, t[0], c) || u == Extend(g, t[0], cl, c))
    ensures Closed(g, u, Members(cl) + {c})
  {
    hide Merge, Entry, Blank, LinkAfter;
    BuiltFree(g, s, t, cl);
    assert BuiltView(g, s[0], t[0], cl);
    forall d | d in Members(cl) + {c}
      ensures ValidCluster(g, d) && (ValidCluster(g, Entry(u.fat[d])) ==> Entry(u.fat[d]) in Members(cl) + {c})
    {
      if d != c {
        var i :| 0 <= i < |cl| && cl[i] == d;
        assert d in Members(cl);
        assert Entry(t[0].fat[cl[i]]) == LinkAfter(g, cl, i);
      }
    }
  }

  /** Freeing a chain that was just built gives back the FAT it was built in. */
  lemma BuiltUndone(g: Geometry, s: State, t: State, u: State, cl: seq<nat>)
    requires Built(g, s, t, cl) && FreedState(g, t, u, cl)
    ensures u[0].fat == s[0].fat
    ensures Mirrored(g, s) ==> forall k :: 0 <= k < |s| ==> u[k].fat == s[k].fat
  {
    hide BuiltView, Merge, Entry;
    forall k | 0 <= k < |s| && (k == 0 || Mirrored(g, s))
      ensures u[k].fat == s[k].fat
    {
      BuiltWords(g, s, t, cl, k);
      FreedWords(g, t[k], u[k], cl);
      ViewUndone(g, s[k], t[k], u[k], cl);
    }
  }

  lemma BuiltWords(g: Geometry, s: State, t: State, cl: seq<nat>, k: nat)
    requires Built(g, s, t, cl) && k < |s| && (k == 0 || Mirrored(g, s))
    ensures BuiltView(g, s[k], t[k], cl) && |t[k].fat| == |s[k].fat|
    ensures forall i :: 0 <= i < |cl| ==> cl[i] < |s[k].fat| && Entry(s[k].fat[cl[i]]) == 0
  {
    hide Merge, Entry;
    assert BuiltView(g, s[0], t[0], cl) && BuiltView(g, s[k], t[k], cl);
    forall i | 0 <= i < |cl|
      ensures cl[i] < |s[k].fat| && Entry(s[k].fat[cl[i]]) == 0
    {
      assert cl[i] in Free(g, s[0]);
    }
  }

  lemma FreedWords(g: Geometry, v: View, w: View, cl: seq<nat>)
    requires Freed(g, v, w, cl)
    ensures |w.fat| == |v.fat|
    ensures forall d :: 0 <= d < |v.fat| ==> w.fat[d] == if d in cl then Merge(v.fat[d], 0) else v.fat[d]
  {
    hide Merge;
  }

  lemma ViewUndone(g: Geometry, v: View, w: View, u: View, cl: seq<nat>)
    requires BuiltView(g, v, w, cl) && |u.fat| == |w.fat| == |v.fat|
    requires forall d :: 0 <= d < |w.fat| ==> u.fat[d] == if d in cl then Merge(w.fat[d], 0) else w.fat[d]
    requires forall i :: 0 <= i < |cl| ==> cl[i] < |v.fat| && Entry(v.fat[cl[i]]) == 0
    ensures u.fat == v.fat
  {
    hide Merge, Entry;
    forall d | 0 <= d < |v.fat|
      ensures u.fat[d] == v.fat[d]
    {
      if d in cl {
        var i :| 0 <= i < |cl| && cl[i] == d;
        MergeTwice(v.fat[d], LinkAfter(g, cl, i), 0);
      }
    }
  }

  /** What a failed allocation leaves behind without device errors: the FAT as it was. */
  ghost predicate FatsBack(g: Geometry, s: State, t: State) {
    && |t| == |s| >= 1 && t[0].fat == s[0].fat
    && (Mirrored(g, s) ==> forall k :: 0 <= k < |s| ==> t[k].fat == s[k].fat)
  }

  /** Give back the chain built so far, after the allocation of one more cluster has failed. */
  method GiveBack(x: Context, ghost s: State, ghost t: State, cl: seq<nat>)
    requires x.Valid() && Built(x.G(), s, t, cl) && Moved(x.G(), t, x.S(), Free(x.G(), t[0]), Free(x.G(), t[0]))
    modifies x`trail, x`freeCount, x`nextFree, x.m
    ensures x.Valid() && x.m.faults >= old(x.m.faults)
    ensures Trail(x.G(), old(x.trail), x.trail, Members(cl), {})
    ensures x.m.faults == old(x.m.faults) && t == old(x.S()) ==>
              && FatsBack(x.G(), s, x.S())
              && x.freeCount == if |cl| == 0 then old(x.freeCount)
                 else Added(old(x.freeCount), |cl|, x.G().clusterCount)
  {
    hide Layout, ViewOf, StateOf, Traced, Shaped, Chain, Closed, FreedState, BuiltView, Moved, Walk, Mirrored;
    if |cl| != 0 {
      BuiltClosed(x.G(), s, t, x.S(), cl);
      BuiltIsChain(x.G(), s, t, cl);
      BuiltMembers(x.G(), s, t, cl);
      assert cl[0] in Members(cl);
      ghost var u := x.S();
      var ok := FreeChain(x, cl[0], Members(cl));
      if x.m.faults == old(x.m.faults) && t == u {
        BuiltUndone(x.G(), s, t, x.S(), cl);
      }
    } else {
      TrailStay(x.G(), x.trail);
      TrailWiden(x.G(), x.trail, x.trail, {}, {}, Members(cl), {});
      BuiltNothing(x.G(), s, t);
    }
  }

  lemma BuiltNothing(g: Geometry, s: State, t: State)
    requires Built(g, s, t, [])
    ensures FatsBack(g, s, t)
  {
    forall k | 0 <= k < |s|
      ensures t[k].fat == s[k].fat
    {
      assert BuiltView(g, s[k], t[k], []);
    }
  }

  /** Allocate one more cluster and hang it behind the chain, or give the whole chain back. */
  method GrowChain(x: Context, chain: seq<nat>, ghost s: State) returns (cluster: nat)
    requires x.Valid() && Built(x.G(), s, x.S(), chain) && ShapedState(x.G(), s)
    modifies x`trail, x`freeCount, x`nextFree, x.m
    ensures x.Valid() && x.m.faults >= old(x.m.faults)
    ensures Trail(x.G(), old(x.trail), x.trail, Free(x.G(), s[0]), Free(x.G(), s[0]))
    ensures cluster != 0 ==>
              && Built(x.G(), s, x.S(), chain + [cluster])
              && x.freeCount == if old(x.freeCount) in {0, UNKNOWN} then old(x.freeCount) else old(x.freeCount) - 1
    ensures cluster == 0 && x.m.faults == old(x.m.faults) ==>
              && FatsBack(x.G(), s, x.S()) && |Free(x.G(), s[0])| == |chain|
              && x.freeCount == if old(x.freeCount) == UNKNOWN then UNKNOWN else |chain|
  {
    hide Layout, ViewOf, StateOf, Traced, Shaped, Built, Claim, Moved, Mirrored, Put, FatsBack, Trail;
    ghost var t, s1 := x.trail, x.S();
    BuiltFree(x.G(), s, s1, chain);
    ghost var free := Free(x.G(), s[0]);
    BuiltMembers(x.G(), s, s1, chain);
    FreeCount(x.G(), s[0]);
    cluster := AllocateCluster(x);
    ghost var t1 := x.trail;
    if cluster == 0 {
      TrailEnd(x.G(), t, t1, Free(x.G(), s1[0]), Free(x.G(), s1[0]));
      TrailWiden(x.G(), t, t1, Free(x.G(), s1[0]), Free(x.G(), s1[0]), free, free);
      GiveBack(x, s, s1, chain);
      TrailMore(x.G(), t, t1, x.trail, free, free, Members(chain), {});
      return;
    }
    TrailWiden(x.G(), t, t1, {cluster}, {cluster}, free, free);
    if |chain| != 0 {
      ghost var u := x.S();
      var last := chain[|chain| - 1];
      assert last in Members(chain) && chain[0] in Members(chain);
      var linked := x.SetCluster(last, cluster);
      ghost var t2 := x.trail;
      TrailMore(x.G(), t, t1, t2, free, free, {last}, {});
      if !linked {
        BuiltHalfClosed(x.G(), s, s1, x.V(), chain, cluster);
        var ok := FreeChain(x, chain[0], Members(chain) + {cluster});
        TrailMore(x.G(), t, t2, x.trail, free, free, Members(chain) + {cluster}, {});
        cluster := 0;
        return;
      }
    }
    BuiltMore(x.G(), s, s1, x.S(), chain, cluster);
  }

  /** fat32_allocate_chain.  A result other than 0 starts a chain of exactly the wanted number of
      distinct clusters that were free, in order, in every copy.  Without device errors, 0 leaves the
      FAT as it was and is the result exactly when fewer clusters were free or, by a free count that
      may be wrong, seemed to be. */
  method AllocateChain(x: Context, n: nat) returns (first: nat, ghost cl: seq<nat>)
    requires x.Valid()
    modifies x`trail, x`freeCount, x`nextFree, x.m
    ensures x.Valid() && x.m.faults >= old(x.m.faults)
    ensures Trail(x.G(), old(x.trail), x.trail, Free(x.G(), old(x.V())), Free(x.G(), old(x.V())))
    ensures first != 0 ==> |cl| == n > 0 && cl[0] == first && Built(x.G(), old(x.S()), x.S(), cl)
    ensures first == 0 && x.m.faults == old(x.m.faults) ==> FatsBack(x.G(), old(x.S()), x.S())
    ensures first != 0 ==> !old(Scarce(x, n))
    ensures first == 0 && x.m.faults == old(x.m.faults) ==> n == 0 || old(Scarce(x, n))
    ensures first == 0 && x.m.faults == old(x.m.faults) && old(Exact(x)) ==> n == 0 || |Free(x.G(), old(x.V()))| < n
    ensures old(Exact(x)) && (first != 0 || x.m.faults == old(x.m.faults)) ==> Exact(x)
  {
    hide Layout, ViewOf, StateOf, Traced, Shaped, Built, Moved, Mirrored, Trail, FatsBack, Free;
    ghost var s, t, free, exact := x.S(), x.trail, Free(x.G(), x.V()), Exact(x);
    TrailStay(x.G(), t);
    TrailWiden(x.G(), t, t, {}, {}, free, free);
    BuiltNone(x.G(), s);
    BuiltNothing(x.G(), s, s);
    FreeCount(x.G(), x.V());
    first, cl := 0, [];
    if n == 0 || (x.freeCount != UNKNOWN && n > x.freeCount) {
      return;
    }
    var chain: seq<nat> := [];
    for index := 0 to n
      invariant x.Valid() && x.m.faults >= old(x.m.faults) && |chain| == index && cl == chain
      invariant Built(x.G(), s, x.S(), chain)
      invariant Trail(x.G(), t, x.trail, free, free)
      invariant exact ==> x.freeCount == UNKNOWN || x.freeCount == |free| - |chain|
    {
      ghost var t1 := x.trail;
      BuiltFree(x.G(), s, x.S(), chain);
      var cluster := GrowChain(x, chain, s);
      TrailMore(x.G(), t, t1, x.trail, free, free, free, free);
      if cluster == 0 {
        if x.m.faults == old(x.m.faults) {
          SameFree(x.G(), s, x.S());
        }
        return;
      }
      chain := chain + [cluster];
      cl := chain;
      BuiltFree(x.G(), s, x.S(), chain);
    }
    first := chain[0];
    BuiltFree(x.G(), s, x.S(), chain);
    BuiltMembers(x.G(), s, x.S(), chain);
  }

  lemma SameFree(g: Geometry, s: State, t: State)
    requires FatsBack(g, s, t) && |s[0].fat| == g.clusterCount + 2
    ensures |t[0].fat| == g.clusterCount + 2 && Free(g, t[0]) == Free(g, s[0])
  {
  }
}
