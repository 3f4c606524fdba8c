/** Allocation bits and cluster chains of an exFAT volume. */
module ExfatClusters {
  import Arithmetic
  import Counting
  import opened Bytes
  import opened Machines
  import opened VolumeLayout
  import opened ExfatLayout
  import opened ExfatVolume

  /** cl is a complete chain: each cluster links to the next and the last one carries an end mark. */
  ghost predicate Chained(g: Geometry, v: View, cl: seq<nat>) {
    && Shaped(g, v) && Clusters(g, cl) && Linked(v, cl) && v.fat[cl[|cl| - 1]] == CHAIN_END
    && forall i :: 0 <= i < |cl| ==> HasFatEntry(g, cl[i])
  }

  method BitmapBit(v: Volume, c: nat) returns (ok: bool, taken: bool)
    requires Layout(v.g) && Fits(v.g, v.m.image) && BitmapIs(v.g, v.V(), v.bm)
    modifies v.m`faults
    ensures ok ==> ValidCluster(v.g, c) && taken == Allocated(v.g, v.V(), v.bm, c)
    ensures v.m.faults >= old(v.m.faults)
    ensures !ok ==> !ValidCluster(v.g, c) || v.m.faults > old(v.m.faults)
  {
    hide Multiples, Places;
    if !ValidCluster(v.g, c) {
      return false, false;
    }
    var value := v.ReadStream(v.g.bitmapFirst, false, v.g.bitmapLength, (c - 2) / 8, 1, v.bm);
    if |value| != 1 {
      return false, false;
    }
    return true, Bit(value[0], (c - 2) % 8);
  }

  method SetBitmapBit(v: Volume, c: nat, on: bool) returns (ok: bool)
    requires v.Open() && BitmapIs(v.g, v.V(), v.bm)
    modifies v`journal, v`full, v.m
    ensures v.Open() && v.m.faults >= old(v.m.faults)
    ensures Within(v.g, old(v.V()), v.V(), {}, Members(v.bm)) && BitmapIs(v.g, v.V(), v.bm)
    ensures ok ==> ValidCluster(v.g, c)
    ensures Live(v.g, v.V(), v.bm) ==
            if !ok then old(Live(v.g, v.V(), v.bm))
            else if on then old(Live(v.g, v.V(), v.bm)) + {c} else old(Live(v.g, v.V(), v.bm)) - {c}
    ensures !ok ==> v.m.image == old(v.m.image) && (!ValidCluster(v.g, c) || v.Hindered(old(v.m.faults)))
  {
    hide Multiples, Places, Undoable, Overlaid;
    if !ValidCluster(v.g, c) {
      return false;
    }
    assert (c - 2) / 8 + 1 <= v.g.bitmapLength <= v.g.capacity[|v.bm|];
    var value := v.ReadStream(v.g.bitmapFirst, false, v.g.bitmapLength, (c - 2) / 8, 1, v.bm);
    if |value| != 1 {
      return false;
    }
    Pow2Of8();
    var byte := WithBit(value[0], (c - 2) % 8, on, 8);
    ghost var was := v.V();
    var done;
    ok, done := v.WriteStream(v.g.bitmapFirst, false, (c - 2) / 8, [byte], v.bm);
    if ok {
      assert [byte][..done] == [byte];
      BitmapPutLive(v.g, was, v.V(), v.bm, c, on);
    }
  }

  /** No cluster that is free and lower than one of these is left out. */
  ghost predicate Lowest(live: set<nat>, clusters: seq<nat>) {
    forall i, c :: 0 <= i < |clusters| && 2 <= c < clusters[i] && c !in live ==> c in clusters
  }

  /** The first half of allocate_clusters: the lowest count clusters whose bit is clear. */
  method FindFreeClusters(v: Volume, count: nat) returns (ok: bool, clusters: seq<nat>)
    requires Layout(v.g) && Fits(v.g, v.m.image) && BitmapIs(v.g, v.V(), v.bm)
    modifies v.m`faults
    ensures v.m.faults >= old(v.m.faults)
    ensures |clusters| <= v.g.clusterCount
    ensures forall i :: 0 <= i < |clusters| ==> ValidCluster(v.g, clusters[i]) && clusters[i] !in Live(v.g, v.V(), v.bm)
    ensures forall i, k :: 0 <= i < k < |clusters| ==> clusters[i] < clusters[k]
    ensures Lowest(Live(v.g, v.V(), v.bm), clusters)
    ensures ok ==> |clusters| == count
    ensures !ok && v.m.faults == old(v.m.faults) ==>
              |clusters| < count && forall c :: ValidCluster(v.g, c) && c !in Live(v.g, v.V(), v.bm) ==> c in clusters
  {
    hide Multiples, Places, Allocated, Shaped;
    ok, clusters := true, [];
    var c := 2;
    while c - 2 < v.g.clusterCount && |clusters| < count
      invariant 2 <= c <= v.g.clusterCount + 2 && |clusters| <= count && |clusters| <= c - 2
      invariant forall i :: 0 <= i < |clusters| ==> 2 <= clusters[i] < c && clusters[i] !in Live(v.g, v.V(), v.bm)
      invariant forall i, k :: 0 <= i < k < |clusters| ==> clusters[i] < clusters[k]
      invariant forall d :: 2 <= d < c && d !in Live(v.g, v.V(), v.bm) ==> d in clusters
      invariant v.m.faults >= old(v.m.faults)
    {
      var taken;
      ok, taken := BitmapBit(v, c);
      if !ok {
        return;
      }
      if !taken {
        clusters := clusters + [c];
      }
      c := c + 1;
    }
    ok := |clusters| == count;
  }

  /** Set the allocation bit of one cluster, then its FAT entry. */
  method MarkCluster(v: Volume, c: nat, on: bool, value: nat) returns (ok: bool)
    requires v.Open() && Sound(v.g, v.V(), v.bm) && c !in v.bm && value < 0x1_0000_0000
    modifies v`journal, v`full, v.m
    ensures v.Open() && v.m.faults >= old(v.m.faults) && Sound(v.g, v.V(), v.bm)
    ensures Within(v.g, old(v.V()), v.V(), {c}, Members(v.bm))
    ensures ok ==> HasFatEntry(v.g, c) && v.V().fat[c] == value
    ensures Live(v.g, v.V(), v.bm) == old(Live(v.g, v.V(), v.bm))
         || Live(v.g, v.V(), v.bm) == if on then old(Live(v.g, v.V(), v.bm)) + {c}
            else old(Live(v.g, v.V(), v.bm)) - {c}
    ensures ok ==> (on <==> c in Live(v.g, v.V(), v.bm))
    ensures !ok ==> !HasFatEntry(v.g, c) || v.Hindered(old(v.m.faults))
  {
    hide Multiples, Places, Undoable, Allocated, ViewOf, StreamIs;
    ok := SetBitmapBit(v, c, on);
    if !ok {
      return;
    }
    ghost var w := v.V();
    ok := v.WriteFat(c, value);
    if ok {
      assert Within(v.g, w, v.V(), {c}, {});
      BitmapKept(v.g, w, v.V(), {c}, {}, v.bm);
    }
  }

  /** The second half: mark the clusters as allocated and link them in order. */
  method ClaimClusters(v: Volume, clusters: seq<nat>) returns (ok: bool)
    requires v.Open() && Sound(v.g, v.V(), v.bm)
    requires Clusters(v.g, clusters) && Members(clusters) !! Live(v.g, v.V(), v.bm)
    modifies v`journal, v`full, v.m
    ensures v.Open() && v.m.faults >= old(v.m.faults) && Sound(v.g, v.V(), v.bm)
    ensures Within(v.g, old(v.V()), v.V(), Members(clusters), Members(v.bm))
    ensures old(Live(v.g, v.V(), v.bm)) <= Live(v.g, v.V(), v.bm) <= old(Live(v.g, v.V(), v.bm)) + Members(clusters)
    ensures ok ==> Members(clusters) <= Live(v.g, v.V(), v.bm) && Chained(v.g, v.V(), clusters)
    ensures !ok ==> !Reaches(v.g) || v.Hindered(old(v.m.faults))
  {
    hide Multiples, Places, Undoable, Allocated, ViewOf, StreamIs, Claimed, Within, Live;
    ghost var v0 := v.V();
    ghost var live := Live(v.g, v0, v.bm);
    ClaimedNone(v.g, v0, clusters, v.bm, live);
    for i := 0 to |clusters|
      invariant v.Open() && v.m.faults >= old(v.m.faults) && Sound(v.g, v.V(), v.bm)
      invariant Claimed(v.g, v0, v.V(), clusters, i, v.bm, live, Live(v.g, v.V(), v.bm))
    {
      NotOfBitmap(v.g, v0, clusters, i, v.bm);
      ghost var w := v.V();
      ok := MarkCluster(v, clusters[i], true, Successor(clusters, i));
      ClaimedMore(v.g, v0, w, v.V(), clusters, i, v.bm, live, Live(v.g, w, v.bm), Live(v.g, v.V(), v.bm), ok);
      if !ok {
        return;
      }
    }
    ok := true;
    ClaimedAll(v.g, v0, v.V(), clusters, v.bm, live, Live(v.g, v.V(), v.bm));
  }

  /** How far claiming has come: the first n clusters are allocated and linked onwards.  The allocated
      clusters were was and are now. */
  ghost predicate Claimed(g: Geometry, v: View, w: View, cl: seq<nat>, n: nat, bm: seq<nat>, was: set<nat>,
                          now: set<nat>)
  {
    && Shaped(g, v) && Shaped(g, w) && Clusters(g, cl) && n <= |cl|
    && Within(g, v, w, Members(cl), Members(bm))
    && was <= now <= was + Members(cl)
    && (forall k :: 0 <= k < n ==> cl[k] in now && HasFatEntry(g, cl[k]))
    && (forall k :: 0 <= k < n ==> w.fat[cl[k]] == Successor(cl, k))
  }

  lemma ClaimedNone(g: Geometry, v: View, cl: seq<nat>, bm: seq<nat>, live: set<nat>)
    requires Shaped(g, v) && Clusters(g, cl)
    ensures Claimed(g, v, v, cl, 0, bm, live, live)
  {
  }

  lemma NotOfBitmap(g: Geometry, v: View, cl: seq<nat>, i: nat, bm: seq<nat>)
    requires Layout(g) && Sound(g, v, bm) && Clusters(g, cl) && Members(cl) !! Live(g, v, bm) && i < |cl|
    ensures cl[i] !in bm && Successor(cl, i) < 0x1_0000_0000
  {
    assert cl[i] in Members(cl);
  }

  lemma ClaimedMore(g: Geometry, v: View, u: View, w: View, cl: seq<nat>, i: nat, bm: seq<nat>,
                    was: set<nat>, mid: set<nat>, now: set<nat>, ok: bool)
    requires i < |cl| && Claimed(g, v, u, cl, i, bm, was, mid) && Shaped(g, w)
    requires Within(g, u, w, {cl[i]}, Members(bm)) && (now == mid || now == mid + {cl[i]})
    requires ok ==> HasFatEntry(g, cl[i]) && w.fat[cl[i]] == Successor(cl, i) && cl[i] in now
    ensures Claimed(g, v, w, cl, if ok then i + 1 else i, bm, was, now)
    ensures Within(g, v, w, Members(cl), Members(bm)) && was <= now <= was + Members(cl)
  {
    hide Within, Shaped;
    assert Within(g, v, w, Members(cl), Members(bm)) by {
      WithinTrans(g, v, u, w, Members(cl), Members(bm), {cl[i]}, Members(bm));
      assert Members(cl) + {cl[i]} == Members(cl) && Members(bm) + Members(bm) == Members(bm);
    }
    ClaimedLinks(g, u, w, cl, i, bm);
    assert cl[i] in Members(cl);
  }

  lemma ClaimedLinks(g: Geometry, u: View, w: View, cl: seq<nat>, i: nat, bm: seq<nat>)
    requires Shaped(g, u) && Shaped(g, w) && Clusters(g, cl) && i < |cl| && Within(g, u, w, {cl[i]}, Members(bm))
    requires forall k :: 0 <= k < i ==> u.fat[cl[k]] == Successor(cl, k)
    ensures forall k :: 0 <= k < i ==> w.fat[cl[k]] == Successor(cl, k)
  {
    hide Successor;
    forall k | 0 <= k < i
      ensures w.fat[cl[k]] == Successor(cl, k)
    {
      assert cl[k] != cl[i] && u.fat[cl[k]] == Successor(cl, k);
    }
  }

  lemma ClaimedAll(g: Geometry, v: View, w: View, cl: seq<nat>, bm: seq<nat>, was: set<nat>, now: set<nat>)
    requires Claimed(g, v, w, cl, |cl|, bm, was, now)
    ensures Within(g, v, w, Members(cl), Members(bm)) && was <= now <= was + Members(cl)
    ensures Members(cl) <= now && Chained(g, w, cl)
  {
    ChainedNow(g, w, cl);
  }

  lemma ChainedNow(g: Geometry, v: View, cl: seq<nat>)
    requires Shaped(g, v) && Clusters(g, cl) && forall i :: 0 <= i < |cl| ==> HasFatEntry(g, cl[i])
    requires forall k :: 0 <= k < |cl| ==> v.fat[cl[k]] == Successor(cl, k)
    ensures Chained(g, v, cl)
  {
    var last := |cl| - 1;
    assert v.fat[cl[last]] == Successor(cl, last);
  }

  /** What the FAT entry of the k-th cluster of a chain holds. */
  function Successor(cl: seq<nat>, k: nat): (w: nat)
    requires k < |cl|
  {
    if k + 1 < |cl| then cl[k + 1] else CHAIN_END
  }

  /** Every cluster has a FAT entry. */
  predicate Reaches(g: Geometry) {
    g.clusterCount + 2 <= g.fatReach
  }

  /** The clusters that are not in live. */
  ghost function Unused(g: Geometry, live: set<nat>): set<nat> {
    Counting.Range(2, g.clusterCount) - live
  }

  /** How many clusters are not allocated. */
  ghost function FreeCount(g: Geometry, v: View, bm: seq<nat>): nat
    requires Layout(g) && BitmapIs(g, v, bm)
  {
    |Unused(g, Live(g, v, bm))|
  }

  /** Fewer than count clusters are free, or the FAT has no entries for some clusters. */
  ghost predicate NoRoom(g: Geometry, v: View, bm: seq<nat>, count: nat)
    requires Layout(g) && BitmapIs(g, v, bm)
  {
    FreeCount(g, v, bm) < count || !Reaches(g)
  }

  lemma FewUnused(g: Geometry, live: set<nat>, clusters: seq<nat>)
    requires forall c :: ValidCluster(g, c) && c !in live ==> c in clusters
    ensures |Unused(g, live)| <= |clusters|
  {
    assert Unused(g, live) <= Members(clusters);
    SubsetSize(Unused(g, live), Members(clusters));
    MembersSize(clusters);
  }

  lemma {:induction false} SubsetSize(a: set<nat>, b: set<nat>)
    requires a <= b
    ensures |a| <= |b|
  {
    if a != {} {
      var x :| x in a;
      SubsetSize(a - {x}, b - {x});
    }
  }

  lemma {:induction false} MembersSize(cl: seq<nat>)
    ensures |Members(cl)| <= |cl|
  {
    if |cl| > 0 {
      var rest := cl[..|cl| - 1];
      MembersSize(rest);
      assert Members(cl) == Members(rest) + {cl[|cl| - 1]};
    }
  }

  /** Taking clusters out of use leaves the others. */
  lemma UnusedLess(g: Geometry, live: set<nat>, live': set<nat>, clusters: seq<nat>)
    requires live' <= live + Members(clusters)
    ensures |Unused(g, live')| >= |Unused(g, live)| - |clusters|
  {
    var a, b := Unused(g, live), Members(clusters);
    SubsetSize(a - b, Unused(g, live'));
    SubsetSize(a, (a - b) + b);
    MembersSize(clusters);
    assert |(a - b) + b| <= |a - b| + |b|;
  }

  /** Take the lowest count free clusters and chain them in order. */
  method AllocateClusters(v: Volume, count: nat) returns (ok: bool, clusters: seq<nat>)
    requires v.Open() && Sound(v.g, v.V(), v.bm)
    modifies v`journal, v`full, v.m
    ensures v.Open() && v.m.faults >= old(v.m.faults) && Sound(v.g, v.V(), v.bm)
    ensures Members(clusters) !! old(Live(v.g, v.V(), v.bm))
    ensures forall i :: 0 <= i < |clusters| ==> ValidCluster(v.g, clusters[i])
    ensures Within(v.g, old(v.V()), v.V(), Members(clusters), Members(v.bm))
    ensures old(Live(v.g, v.V(), v.bm)) <= Live(v.g, v.V(), v.bm) <= old(Live(v.g, v.V(), v.bm)) + Members(clusters)
    ensures ok ==> |clusters| == count && Members(clusters) <= Live(v.g, v.V(), v.bm)
    ensures Lowest(old(Live(v.g, v.V(), v.bm)), clusters)
    ensures ok && count > 0 ==> Chained(v.g, v.V(), clusters)
    ensures !ok ==> NoRoom(v.g, old(v.V()), v.bm, count) || v.Hindered(old(v.m.faults))
  {
    hide Multiples, Places, Undoable, Allocated;
    if count == 0 {
      return true, [];
    }
    ok, clusters := FindFreeClusters(v, count);
    if ok {
      ok := ClaimClusters(v, clusters);
    } else if v.m.faults == old(v.m.faults) {
      FewUnused(v.g, Live(v.g, v.V(), v.bm), clusters);
    }
  }

  /** Clear the bits and FAT entries of the given clusters. */
  method FreeClusters(v: Volume, clusters: seq<nat>) returns (ok: bool)
    requires v.Open() && Sound(v.g, v.V(), v.bm) && Members(clusters) !! Members(v.bm)
    modifies v`journal, v`full, v.m
    ensures v.Open() && v.m.faults >= old(v.m.faults) && Sound(v.g, v.V(), v.bm)
    ensures Within(v.g, old(v.V()), v.V(), Members(clusters), Members(v.bm))
    ensures old(Live(v.g, v.V(), v.bm)) - Members(clusters) <= Live(v.g, v.V(), v.bm) <= old(Live(v.g, v.V(), v.bm))
    ensures ok ==> Members(clusters) !! Live(v.g, v.V(), v.bm)
    ensures ok ==> forall i :: 0 <= i < |clusters| ==> HasFatEntry(v.g, clusters[i]) && v.V().fat[clusters[i]] == 0
    ensures !ok ==> || v.Hindered(old(v.m.faults)) || !Reaches(v.g)
                    || exists i :: 0 <= i < |clusters| && !ValidCluster(v.g, clusters[i])
  {
    hide Multiples, Places, Undoable, Allocated, ViewOf, StreamIs;
    ok := true;
    ghost var v0 := v.V();
    ghost var live := Live(v.g, v0, v.bm);
    for i := 0 to |clusters|
      invariant v.Open() && v.m.faults >= old(v.m.faults) && Sound(v.g, v.V(), v.bm)
      invariant Within(v.g, v0, v.V(), Members(clusters), Members(v.bm))
      invariant live - Members(clusters) <= Live(v.g, v.V(), v.bm) <= live
      invariant forall k :: 0 <= k < i ==> clusters[k] !in Live(v.g, v.V(), v.bm)
      invariant forall k :: 0 <= k < i ==> HasFatEntry(v.g, clusters[k]) && v.V().fat[clusters[k]] == 0
    {
      assert clusters[i] in Members(clusters);
      ok := MarkCluster(v, clusters[i], false, 0);
      if !ok {
        return;
      }
    }
    ok := true;
  }

  /** Number of clusters of a chain of unrecorded length; a refused read ends the count early. */
  method CountChain(v: Volume, first: nat, ghost cl: seq<nat>) returns (count: nat)
    requires Layout(v.g) && Fits(v.g, v.m.image)
    requires ValidCluster(v.g, first) ==> StreamIs(v.g, v.V(), first, false, cl) && Ended(v.g, v.V(), cl)
    modifies v.m`faults
    ensures v.m.faults >= old(v.m.faults)
    ensures !ValidCluster(v.g, first) ==> count == 0
    ensures ValidCluster(v.g, first) ==> 0 < count <= |cl|
    ensures ValidCluster(v.g, first) && v.m.faults == old(v.m.faults) ==> count == |cl|
  {
    hide Multiples, Places, ViewOf, Shaped;
    var current := first;
    count := 0;
    while count < v.g.clusterCount && ValidCluster(v.g, current)
      invariant ValidCluster(v.g, first) ==> count < |cl| && current == cl[count]
      invariant !ValidCluster(v.g, first) ==> count == 0 && current == first
      invariant v.m.faults == old(v.m.faults)
    {
      assert count + 1 < |cl| && ValidCluster(v.g, first) ==> v.V().fat[cl[count]] == cl[count + 1];
      count := count + 1;
      var read, next := v.ReadFat(current);
      if !read || next >= EOC {
        break;
      }
      assert count < |cl|;
      current := next;
    }
  }

  /** The clusters of a file or directory.  An unrecorded length (as the root directory has) is found
      by following the chain. */
  method CollectClusters(v: Volume, first: nat, contiguous: bool, length: nat, ghost cl: seq<nat>)
    returns (ok: bool, clusters: seq<nat>)
    requires Layout(v.g) && Fits(v.g, v.m.image)
    requires ValidCluster(v.g, first) ==> StreamIs(v.g, v.V(), first, contiguous, cl)
    requires ValidCluster(v.g, first) && length > 0 ==> |cl| == ClustersFor(v.g, length)
    requires ValidCluster(v.g, first) && length == 0 ==> !contiguous && Ended(v.g, v.V(), cl)
    modifies v.m`faults
    ensures v.m.faults >= old(v.m.faults)
    ensures ok ==> ValidCluster(v.g, first) && 0 < |clusters| && clusters <= cl
    ensures ok && (length > 0 || v.m.faults == old(v.m.faults)) ==> clusters == cl
    ensures !ok ==> !ValidCluster(v.g, first) || v.m.faults > old(v.m.faults)
  {
    hide Multiples, Places, ViewOf, Shaped, ClustersFor, StreamCluster, Ended;
    ok, clusters := false, [];
    var count;
    if length == 0 {
      count := CountChain(v, first, cl);
    } else {
      count := ClustersFor(v.g, length);
    }
    if count == 0 {
      return;
    }
    var granted := v.m.Allocate();
    if !granted {
      return;
    }
    for index := 0 to count
      invariant |clusters| == index && v.m.faults >= old(v.m.faults)
      invariant index > 0 ==> ValidCluster(v.g, first)
      invariant ValidCluster(v.g, first) ==> count <= |cl| && clusters == cl[..index]
      invariant v.m.faults == old(v.m.faults) && ValidCluster(v.g, first) ==> count == |cl|
    {
      if ValidCluster(v.g, first) {
        StreamClusterIs(v.g, v.V(), first, contiguous, cl, index);
      } else {
        StreamClusterNone(v.g, v.V(), first, contiguous, index);
      }
      var found, c := v.FindCluster(first, contiguous, index);
      if !found {
        return;
      }
      clusters := clusters + [c];
    }
    ok := true;
  }

  lemma StreamClusterNone(g: Geometry, v: View, first: nat, contiguous: bool, index: nat)
    requires Shaped(g, v) && !ValidCluster(g, first)
    ensures StreamCluster(g, v, first, contiguous, index) == None
  {
  }

  /** The chain cl ends with its last cluster. */
  ghost predicate Ended(g: Geometry, v: View, cl: seq<nat>)
    requires Shaped(g, v)
  {
    |cl| > 0 && (Link(g, v, cl[|cl| - 1]) == None || Link(g, v, cl[|cl| - 1]).value >= EOC)
  }

  /** Unjournaled write of the whole sector that starts at offset at of the new clusters. */
  method WriteNewSector(v: Volume, clusters: seq<nat>, q: nat, j: nat, sector: Sector,
                        ghost v0: View, ghost at: nat, ghost content: seq<Byte>) returns (ok: bool)
    requires v.Open() && Clusters(v.g, clusters) && q < |clusters| && |sector| == v.g.sectorSize
    requires Members(clusters) !! Live(v.g, ViewOf(v.g, v.base), v.bm)
    requires at < |v.g.place| && v.g.place[at] == Place(q, j, 0) && |content| == v.g.capacity[|clusters|]
    requires at + |sector| <= |content| && sector == content[at..at + |sector|]
    requires Shaped(v.g, v0) && Within(v.g, v0, v.V(), {}, Members(clusters))
    requires Overlaid(v.g, v0, v.V(), clusters, 0, content[..at])
    modifies v.m
    ensures v.Open() && v.m.faults >= old(v.m.faults) && Within(v.g, v0, v.V(), {}, Members(clusters))
    ensures ok ==> Overlaid(v.g, v0, v.V(), clusters, 0, content[..at + |sector|])
    ensures !ok ==> v.m.faults > old(v.m.faults)
  {
    hide Multiples, Places, ByteAt, Overlaid, Undoable, PutChunk, Allocated, ViewOf, BitmapIs;
    ghost var w := v.V();
    PutChunkIs(v.g, w, clusters, at, sector);
    OverlayMore(v.g, v0, w, clusters, 0, content[..at], sector);
    PlaceInside(v.g, |clusters|, at);
    assert content[..at] + sector == content[..at + |sector|];
    assert clusters[q] in Members(clusters);
    ok := v.WriteSpare(clusters[q], j, sector);
    if ok {
      assert Splice(w.heap[clusters[q]][j], 0, sector) == sector;
      WithinTrans(v.g, v0, w, v.V(), {}, Members(clusters), {}, Members(clusters));
    }
  }

  /** Fill one of the new clusters, sector by sector; written counts the bytes of buf used up. */
  method WriteNewCluster(v: Volume, clusters: seq<nat>, q: nat, buf: seq<Byte>, written0: nat, ghost v0: View,
                         ghost content: seq<Byte>)
    returns (ok: bool, written: nat)
    requires v.Open() && Clusters(v.g, clusters) && q < |clusters| && |buf| <= v.g.capacity[|clusters|]
    requires Members(clusters) !! Live(v.g, ViewOf(v.g, v.base), v.bm)
    requires content == buf + Zeros(v.g.capacity[|clusters|] - |buf|)
    requires v.g.capacity[q] <= |content| && written0 == Min(v.g.capacity[q], |buf|)
    requires Shaped(v.g, v0) && Within(v.g, v0, v.V(), {}, Members(clusters))
    requires Overlaid(v.g, v0, v.V(), clusters, 0, content[..v.g.capacity[q]])
    modifies v.m
    ensures v.Open() && v.m.faults >= old(v.m.faults) && Within(v.g, v0, v.V(), {}, Members(clusters))
    ensures ok ==> v.g.capacity[q + 1] <= |content| && written == Min(v.g.capacity[q + 1], |buf|)
                   && Overlaid(v.g, v0, v.V(), clusters, 0, content[..v.g.capacity[q + 1]])
    ensures !ok ==> v.m.faults > old(v.m.faults)
  {
    hide Multiples, Places, Addresses, ByteAt, Overlaid, Undoable, Shaped, Allocated, ViewOf, BitmapIs, Within, Live;
    ghost var at: nat := v.g.capacity[q];
    ok, written := true, written0;
    ClusterStart(v.g, |clusters|, q);
    for j := 0 to v.g.sectorsPerCluster
      invariant v.Open() && v.m.faults >= old(v.m.faults) && Within(v.g, v0, v.V(), {}, Members(clusters))
      invariant j < v.g.sectorsPerCluster ==> at < |v.g.place| && v.g.place[at] == Place(q, j, 0)
      invariant j == v.g.sectorsPerCluster ==> at == v.g.capacity[q + 1]
      invariant at <= |content| && written == Min(at, |buf|)
      invariant Overlaid(v.g, v0, v.V(), clusters, 0, content[..at])
    {
      NextSector(v.g, q, j, at);
      var sector := Zeros(v.g.sectorSize);
      ghost var before := written;
      if written < |buf| {
        var copy := Min(v.g.sectorSize, |buf| - written);
        sector := buf[written..written + copy] + Zeros(v.g.sectorSize - copy);
        written := written + copy;
      }
      SectorContent(buf, content, at, before, sector);
      ok := WriteNewSector(v, clusters, q, j, sector, v0, at, content);
      if !ok {
        return;
      }
      at := at + v.g.sectorSize;
    }
    ok := true;
  }

  /** Fill freshly allocated clusters, without journaling: they were free when the transaction began. */
  method WriteNewClusters(v: Volume, clusters: seq<nat>, buf: seq<Byte>) returns (ok: bool)
    requires v.Open() && Clusters(v.g, clusters) && |buf| <= v.g.capacity[|clusters|]
    requires Members(clusters) !! Live(v.g, ViewOf(v.g, v.base), v.bm)
    modifies v.m
    ensures v.Open() && v.m.faults >= old(v.m.faults) && Within(v.g, old(v.V()), v.V(), {}, Members(clusters))
    ensures ok ==> Holds(v.g, v.V(), clusters, buf)
    ensures !ok ==> v.m.faults > old(v.m.faults)
  {
    hide Multiples, Places, Addresses, ByteAt, Overlaid, Undoable, Shaped, Allocated, ViewOf, BitmapIs, Within, Live;
    ghost var v0 := v.V();
    ghost var content := buf + Zeros(v.g.capacity[|clusters|] - |buf|);
    ClusterStart(v.g, |clusters|, 0);
    OverlaidNothing(v.g, v0, clusters, 0);
    WithinSelf(v.g, v0, Members(clusters));
    var written := 0;
    for q := 0 to |clusters|
      invariant v.Open() && v.m.faults >= old(v.m.faults) && Within(v.g, v0, v.V(), {}, Members(clusters))
      invariant v.g.capacity[q] <= |content| && written == Min(v.g.capacity[q], |buf|)
      invariant Overlaid(v.g, v0, v.V(), clusters, 0, content[..v.g.capacity[q]])
    {
      ok, written := WriteNewCluster(v, clusters, q, buf, written, v0, content);
      if !ok {
        return;
      }
    }
    HoldsAll(v.g, v0, v.V(), clusters, buf, content);
    ok := v.m.Flush();
  }

  /** Percentage of clusters in use, written to both boot regions. */
  method UpdatePercentInUse(v: Volume) returns (ok: bool)
    requires v.Open() && BitmapIs(v.g, v.V(), v.bm)
    modifies v`journal, v`full, v.m
    ensures v.Open() && v.V() == old(v.V()) && v.m.faults >= old(v.m.faults)
    ensures ok ==> |Live(v.g, v.V(), v.bm)| <= v.g.clusterCount
                   && Counted(old(v.m.image), v.m.image, Percent(|Live(v.g, v.V(), v.bm)|, v.g.clusterCount))
    ensures !ok ==> v.Hindered(old(v.m.faults))
  {
    hide Multiples, Places, Undoable, Allocated, Shaped;
    var inUse := 0;
    ghost var live, seen := Live(v.g, v.V(), v.bm), {};
    ok := true;
    for c := 2 to v.g.clusterCount + 2
      invariant v.Open() && v.m.image == old(v.m.image) && inUse <= c - 2 && v.m.faults >= old(v.m.faults)
      invariant inUse == |seen| && seen == set d | d in live && d < c
    {
      var taken;
      ok, taken := BitmapBit(v, c);
      if !ok {
        return;
      }
      if taken {
        inUse := inUse + 1;
        seen := seen + {c};
      }
    }
    assert seen == live;
    var percent: Byte := Percent(inUse, v.g.clusterCount);
    for copy := 0 to 2
      invariant v.Open() && v.V() == old(v.V()) && v.m.faults >= old(v.m.faults) && |v.m.image| == |old(v.m.image)|
      invariant copy > 0 ==> v.m.image[0] == WithPercent(old(v.m.image[0]), Some(percent))
      invariant copy > 1 ==> v.m.image[12] == WithPercent(old(v.m.image[12]), Some(percent))
      invariant forall x :: 0 <= x < |v.m.image| && !(x == 0 && copy > 0) && !(x == 12 && copy > 1) ==>
                  v.m.image[x] == old(v.m.image)[x]
    {
      var lba := if copy == 0 then 0 else 12;
      var sector;
      ok, sector := v.ReadSector(lba);
      if !ok {
        return;
      }
      SetBootView(v.g, v.m.image, lba, sector[112 := percent]);
      ok := v.WriteSector(lba, sector[112 := percent]);
      if !ok {
        return;
      }
    }
  }

  /** From a to b both boot sectors have received the percentage. */
  ghost predicate Counted(a: Image, b: Image, percent: Byte) {
    && |a| == |b| && |a| > 12 && b[0] == WithPercent(a[0], Some(percent)) && b[12] == WithPercent(a[12], Some(percent))
    && forall lba :: 0 <= lba < |a| && lba != 0 && lba != 12 ==> b[lba] == a[lba]
  }

  lemma CountedStamped(a: Image, b: Image, c: Image, percent: Byte)
    requires Counted(a, b, percent) && Stamped(b, c, None, false)
    ensures Stamped(a, c, Some(percent), false)
  {
    hide FlagIs;
  }

  /** Percentage rounded up. */
  function Percent(inUse: nat, total: nat): (p: nat)
    requires 0 < total && inUse <= total
    ensures p <= 100 && 100 * inUse <= total * p < 100 * inUse + total
  {
    var x := inUse * 100 + total - 1;
    Arithmetic.DivLess(x, total, 101);
    assert x == total * (x / total) + x % total;
    x / total
  }

  /** What a committed volume says about itself in both boot sectors: not dirty, and how full it is. */
  ghost predicate Clean(g: Geometry, bm: seq<nat>, img: Image) {
    && Layout(g) && Fits(g, img) && BitmapIs(g, ViewOf(g, img), bm) && |img| > 12
    && |Live(g, ViewOf(g, img), bm)| <= g.clusterCount
    && forall lba :: lba == 0 || lba == 12 ==>
         |img[lba]| >= 512 && img[lba][106] / 2 % 2 == 0
         && img[lba][112] == Percent(|Live(g, ViewOf(g, img), bm)|, g.clusterCount)
  }

  lemma StampedClean(g: Geometry, bm: seq<nat>, a: Image, b: Image)
    requires Layout(g) && Fits(g, b) && BitmapIs(g, ViewOf(g, b), bm) && |Live(g, ViewOf(g, b), bm)| <= g.clusterCount
    requires Stamped(a, b, Some(Percent(|Live(g, ViewOf(g, b), bm)|, g.clusterCount)), false)
    ensures Clean(g, bm, b)
  {
    hide Multiples, Places, Addresses, Live, BitmapIs, ViewOf, Percent;
  }

  method Commit(v: Volume) returns (ok: bool, restored: bool)
    requires v.Open() && BitmapIs(v.g, v.V(), v.bm)
    modifies v`journal, v`full, v`active, v`dirty, v.m
    ensures v.Closed() && v.m.faults >= old(v.m.faults)
    ensures ok ==> v.V() == old(v.V()) && |Live(v.g, v.V(), v.bm)| <= v.g.clusterCount
    ensures ok ==> Stamped(old(v.m.image), v.m.image, Some(Percent(|Live(v.g, v.V(), v.bm)|, v.g.clusterCount)), false)
    ensures ok ==> Clean(v.g, v.bm, v.m.image)
    ensures !ok ==> v.Hindered(old(v.m.faults))
    ensures !ok && restored ==> Restored(v.g, v.bm, v.base, v.m.image)
  {
    hide Multiples, Places, Undoable, Allocated, Shaped, ViewOf, Counted, Stamped, Percent, Clean;
    restored := false;
    ok := v.m.Flush();
    if ok {
      ok := UpdatePercentInUse(v);
    }
    if ok {
      ghost var before, percent := v.m.image, Percent(|Live(v.g, v.V(), v.bm)|, v.g.clusterCount);
      ok := v.SetVolumeDirty(false);
      if ok {
        CountedStamped(old(v.m.image), before, v.m.image, percent);
        StampedClean(v.g, v.bm, old(v.m.image), v.m.image);
      }
    }
    if ok {
      ok := v.m.Flush();
    }
    if ok {
      v.Release();
    } else {
      restored := v.Rollback();
    }
  }
}
