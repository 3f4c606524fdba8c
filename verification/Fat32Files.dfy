/** File contents on a FAT32 volume: writing a new chain, swapping it in, and reading back. */
module Fat32Files {
  import Arithmetic
  import opened Bytes
  import opened VolumeLayout
  import opened Fat32Volume
  import opened Fat32Chains
  import opened Fat32Allocator

  // ----- chains under changes elsewhere

  /** A chain has no free cluster. */
  lemma ChainNotFree(g: Geometry, v: View, cl: seq<nat>)
    requires Chain(g, v, cl)
    ensures Members(cl) !! Free(g, v)
  {
    forall c | c in cl
      ensures c !in Free(g, v)
    {
      var i :| 0 <= i < |cl| && cl[i] == c;
      assert i < |cl| - 1 ==> Entry(v.fat[cl[i]]) == cl[i + 1];
    }
  }

  /** Changes outside a chain leave the chain alone. */
  lemma ChainKept(g: Geometry, v: View, w: View, f: set<nat>, h: set<nat>, cl: seq<nat>)
    requires Chain(g, v, cl) && Within(g, v, w, f, h) && f !! Members(cl)
    ensures Chain(g, w, cl)
  {
    forall i | 0 <= i < |cl|
      ensures w.fat[cl[i]] == v.fat[cl[i]]
    {
      assert cl[i] in Members(cl);
    }
  }

  lemma ContentKept(g: Geometry, v: View, w: View, f: set<nat>, h: set<nat>, cl: seq<nat>, n: nat)
    requires Layout(g) && Shaped(g, v) && Shaped(g, w) && Clusters(g, cl) && n <= g.capacity[|cl|]
    requires Within(g, v, w, f, h) && h !! Members(cl)
    ensures BytesAt(g, w, cl, 0, n) == BytesAt(g, v, cl, 0, n)
  {
    hide Multiples, Places, Addresses, Capacities, ByteAt, Within, Shaped;
    forall o | 0 <= o < n
      ensures BytesAt(g, w, cl, 0, n)[o] == BytesAt(g, v, cl, 0, n)[o]
    {
      BytesKept(g, v, w, f, h, cl, 0 + o);
    }
  }

  // ----- writing a chain

  /** How far writing has come: the chain holds the first at bytes of content. */
  ghost predicate Filled(g: Geometry, v: View, w: View, cl: seq<nat>, content: seq<Byte>, at: nat) {
    && Layout(g) && Shaped(g, v) && Shaped(g, w) && Clusters(g, cl)
    && at <= |content| == g.capacity[|cl|] && w.fat == v.fat
    && Overlaid(g, v, w, cl, 0, content[..at])
  }

  lemma FilledNone(g: Geometry, v: View, cl: seq<nat>, content: seq<Byte>)
    requires Layout(g) && Shaped(g, v) && Clusters(g, cl) && |content| == g.capacity[|cl|]
    ensures Filled(g, v, v, cl, content, 0)
  {
  }

  lemma FilledMore(g: Geometry, v: View, w: View, cl: seq<nat>, content: seq<Byte>, at: nat, q: nat, j: nat,
                   sector: Sector)
    requires Filled(g, v, w, cl, content, at) && q < |cl| && |sector| == g.sectorSize
    requires at < |g.place| && g.place[at] == Place(q, j, 0) && j < g.sectorsPerCluster
    requires at + |sector| <= |content| && sector == content[at..at + |sector|]
    ensures Filled(g, v, PutSector(g, w, cl[q], j, sector), cl, content, at + |sector|)
  {
    hide Multiples, Places, ByteAt, Overlaid, PutChunk;
    PutChunkIs(g, w, cl, at, sector);
    OverlayMore(g, v, w, cl, 0, content[..at], sector);
    assert content[..at] + sector == content[..at + |sector|];
    assert Splice(w.heap[cl[q]][j], 0, sector) == sector;
  }

  lemma SectorFits(g: Geometry, v: View, w: View, cl: seq<nat>, content: seq<Byte>, at: nat, q: nat, j: nat)
    requires Filled(g, v, w, cl, content, at) && q < |cl| && at < |g.place| && g.place[at] == Place(q, j, 0)
    ensures at + g.sectorSize <= |content| && ValidCluster(g, cl[q])
  {
    hide Multiples, Places, Addresses;
    NextSector(g, q, j, at);
    assert g.capacity[q + 1] <= g.capacity[|cl|];
  }

  /** The clusters cl hold only zeros. */
  ghost predicate Zeroed(g: Geometry, v: View, cl: seq<nat>)
    requires Layout(g) && Shaped(g, v) && Clusters(g, cl)
  {
    forall o {:trigger ByteAt(g, v, cl, o)} :: 0 <= o < g.capacity[|cl|] ==> ByteAt(g, v, cl, o) == 0
  }

  lemma FilledHolds(g: Geometry, v: View, w: View, cl: seq<nat>, data: seq<Byte>, content: seq<Byte>, at: nat)
    requires Filled(g, v, w, cl, content, at) && |data| <= at && Zeroed(g, v, cl)
    requires content == data + Zeros(|content| - |data|)
    ensures Holds(g, w, cl, data)
  {
    hide Multiples, Places, ByteAt, Shaped;
    assert content[..at] == data + Zeros(at - |data|);
  }

  /** One sector of write_cluster_chain. */
  method WriteDataSector(x: Context, c: nat, j: nat, data: seq<Byte>, written: nat,
                         ghost v: View, ghost cl: seq<nat>, ghost content: seq<Byte>, ghost at: nat, ghost q: nat)
    returns (ok: bool, written': nat)
    requires x.Valid() && Filled(x.G(), v, x.V(), cl, content, at) && q < |cl| && c == cl[q]
    requires at < |x.G().place| && x.G().place[at] == Place(q, j, 0) && j < x.G().sectorsPerCluster
    requires |data| <= |content| && content == data + Zeros(|content| - |data|) && written == Min(at, |data|) < |data|
    modifies x`trail, x.m
    ensures x.Valid() && x.m.faults >= old(x.m.faults)
    ensures Trail(x.G(), old(x.trail), x.trail, {}, {c})
    ensures ok ==> && at + x.G().sectorSize <= |content| && written' == Min(at + x.G().sectorSize, |data|)
                   && Filled(x.G(), v, x.V(), cl, content, at + x.G().sectorSize)
    ensures !ok ==> x.m.faults > old(x.m.faults)
  {
    hide Multiples, Places, Addresses, Capacities, ByteAt, Overlaid, ViewOf, StateOf, Traced, Shaped, Filled, Splice;
    var size := x.copies[0].sectorSize;
    SectorFits(x.G(), v, x.V(), cl, content, at, q, j);
    var copy := Min(|data| - written, size);
    var sector: Sector := data[written..written + copy] + Zeros(size - copy);
    SectorContent(data, content, at, written, sector);
    FilledMore(x.G(), v, x.V(), cl, content, at, q, j, sector);
    ok := x.WriteCluster(c, j, sector);
    written' := written + copy;
  }

  /** write_cluster_chain: data, padded with zeros to a whole sector, into the clusters of a chain. */
  method WriteClusterChain(x: Context, first: nat, data: seq<Byte>, ghost cl: seq<nat>) returns (ok: bool)
    requires x.Valid() && ChainFrom(x.G(), x.V(), first, cl) && Clusters(x.G(), cl) && |data| <= x.G().capacity[|cl|]
    modifies x`trail, x.m
    ensures x.Valid() && x.m.faults >= old(x.m.faults)
    ensures Trail(x.G(), old(x.trail), x.trail, {}, Members(cl)) && x.V().fat == old(x.V().fat)
    ensures ok && Zeroed(x.G(), old(x.V()), cl) ==> Holds(x.G(), x.V(), cl, data)
    ensures !ok ==> x.m.faults > old(x.m.faults)
  {
    hide Multiples, Places, Addresses, Capacities, ByteAt, Overlaid, ViewOf, StateOf, Traced, Shaped, Filled, Step,
         Walk, Holds, Zeroed;
    ghost var v, t := x.V(), x.trail;
    CapacityShape(x.G(), |cl|);
    ghost var content := data + Zeros(x.G().capacity[|cl|] - |data|);
    FilledNone(x.G(), v, cl, content);
    TrailStay(x.G(), t);
    TrailWiden(x.G(), t, t, {}, {}, {}, Members(cl));
    var cluster, written, hops := first, 0, 0;
    ghost var at: nat := 0;
    ClusterStart(x.G(), |cl|, 0);
    while ValidCluster(x.copies[0], cluster) && written < |data| && hops < x.copies[0].clusterCount
      invariant x.Valid() && x.m.faults >= old(x.m.faults)
      invariant Trail(x.G(), t, x.trail, {}, Members(cl))
      invariant Filled(x.G(), v, x.V(), cl, content, at) && written == Min(at, |data|) && at <= |content|
      invariant hops <= |cl| && x.V().fat == v.fat
      invariant ValidCluster(x.G(), cluster) && written < |data| ==>
                  hops < |cl| && cluster == cl[hops] && at == x.G().capacity[hops]
      invariant !ValidCluster(x.G(), cluster) ==> written == |data| || x.m.faults > old(x.m.faults)
      decreases |cl| - hops
    {
      ClusterStart(x.G(), |cl|, hops);
      ghost var q := hops;
      assert cluster in Members(cl);
      hops := hops + 1;
      var j := 0;
      while j < x.copies[0].sectorsPerCluster && written < |data|
        invariant x.Valid() && x.m.faults >= old(x.m.faults)
        invariant 0 <= j <= x.G().sectorsPerCluster
        invariant Trail(x.G(), t, x.trail, {}, Members(cl))
        invariant Filled(x.G(), v, x.V(), cl, content, at) && written == Min(at, |data|) && at <= |content|
        invariant j < x.G().sectorsPerCluster ==> at < |x.G().place| && x.G().place[at] == Place(q, j, 0)
        invariant j == x.G().sectorsPerCluster ==> at == x.G().capacity[q + 1]
        invariant x.V().fat == v.fat
      {
        ghost var t1 := x.trail;
        NextSector(x.G(), q, j, at);
        ok, written := WriteDataSector(x, cluster, j, data, written, v, cl, content, at, q);
        TrailMore(x.G(), t, t1, x.trail, {}, Members(cl), {}, {cluster});
        TrailFat(x.G(), t, x.trail, Members(cl));
        if !ok {
          return;
        }
        at := at + x.G().sectorSize;
        j := j + 1;
      }
      ghost var faults := x.m.faults;
      ChainStep(x.G(), v, x.V(), cl, q);
      ok, cluster := ChainAdvance(x, cluster);
      if !ok {
        return;
      }
    }
    ok := written == |data|;
    if ok && Zeroed(x.G(), v, cl) {
      FilledHolds(x.G(), v, x.V(), cl, data, content, at);
    }
  }

  lemma CapacityShape(g: Geometry, n: nat)
    requires Layout(g) && 1 <= n <= g.clusterCount
    ensures |g.capacity| == g.clusterCount + 1 && 0 < g.capacity[n] <= |g.place|
  {
    hide Places, Addresses, Multiples;
    assert g.capacity[0] + g.clusterSize <= g.capacity[n];
  }

  lemma ChainStep(g: Geometry, v: View, w: View, cl: seq<nat>, q: nat)
    requires Chain(g, v, cl) && q < |cl| && w.fat == v.fat && g.clusterCount + 2 <= RESERVED_START
    ensures ValidCluster(g, cl[q]) && Step(g, w.fat[cl[q]]) == Some(if q + 1 < |cl| then cl[q + 1] else EOC)
    ensures q + 1 < |cl| ==> ValidCluster(g, cl[q + 1])
  {
    ChainSteps(g, v, cl, q);
  }

  lemma TrailFat(g: Geometry, t0: seq<State>, t1: seq<State>, h: set<nat>)
    requires Trail(g, t0, t1, {}, h) && |t0[|t0| - 1]| >= 1
    ensures |t1| > 0 && |t1[|t1| - 1]| >= 1 && t1[|t1| - 1][0].fat == t0[|t0| - 1][0].fat
  {
    TrailEnd(g, t0, t1, {}, h);
    assert Within(g, t0[|t0| - 1][0], t1[|t1| - 1][0], {}, h);
  }

  // ----- storing the data of a file

  /** s became t by storing data in the clusters cl, all free before: they form a chain from first that
      holds data and then zeros.  No data needs no clusters. */
  ghost predicate Stored(g: Geometry, s: State, t: State, first: nat, cl: seq<nat>, data: seq<Byte>) {
    && Layout(g) && ShapedState(g, s) && ShapedState(g, t) && |t| == |s| && Members(cl) <= Free(g, s[0])
    && Free(g, t[0]) == Free(g, s[0]) - Members(cl) && |Free(g, t[0])| == |Free(g, s[0])| - |cl|
    && |cl| == ClustersFor(g, |data|)
    && (forall c :: 0 <= c < |s[0].fat| && c !in cl ==> t[0].fat[c] == s[0].fat[c])
    && (data == [] ==> first == 0 && cl == [])
    && (data != [] ==>
          && ChainFrom(g, t[0], first, cl) && Clusters(g, cl) && Holds(g, t[0], cl, data)
          && |data| <= g.capacity[|cl|])
  }

  lemma BlankBytes(g: Geometry, s: State, t: State, cl: seq<nat>)
    requires Layout(g) && ShapedState(g, t) && Built(g, s, t, cl) && Clusters(g, cl)
    ensures Zeroed(g, t[0], cl)
  {
    hide Multiples, Addresses, SectorOrder, Merge;
    assert BuiltView(g, s[0], t[0], cl);
  }

  lemma BuiltStored(g: Geometry, s: State, t: State, u: State, cl: seq<nat>, data: seq<Byte>)
    requires Layout(g) && ShapedState(g, s) && ShapedState(g, t) && ShapedState(g, u) && |u| == |s|
    requires Built(g, s, t, cl) && data != [] && |cl| == ClustersFor(g, |data|) > 0 && u[0].fat == t[0].fat
    requires Clusters(g, cl) && Holds(g, u[0], cl, data) && |data| <= g.capacity[|cl|]
    ensures Stored(g, s, u, cl[0], cl, data)
  {
    hide Multiples, Addresses, Places, Holds, Built, Free, Walk, Members;
    BuiltFree(g, s, t, cl);
    BuiltIsChain(g, s, t, cl);
    BuiltOthers(g, s, t, cl);
    SameFatFree(g, t[0], u[0]);
    SameFatChain(g, t[0], u[0], cl);
  }

  lemma BuiltOthers(g: Geometry, s: State, t: State, cl: seq<nat>)
    requires Built(g, s, t, cl)
    ensures |t[0].fat| == |s[0].fat| && forall c :: 0 <= c < |s[0].fat| && c !in cl ==> t[0].fat[c] == s[0].fat[c]
  {
    assert BuiltView(g, s[0], t[0], cl);
  }

  lemma SameFatChain(g: Geometry, v: View, w: View, cl: seq<nat>)
    requires Chain(g, v, cl) && w.fat == v.fat
    ensures Chain(g, w, cl)
  {
  }

  /** The part of fat32_context_write_file that stores the data in new clusters. */
  method StoreData(x: Context, data: seq<Byte>) returns (ok: bool, first: nat, ghost cl: seq<nat>)
    requires x.Valid()
    modifies x`trail, x`freeCount, x`nextFree, x.m
    ensures x.Valid() && x.m.faults >= old(x.m.faults)
    ensures Trail(x.G(), old(x.trail), x.trail, Free(x.G(), old(x.V())), Free(x.G(), old(x.V())))
    ensures ok ==> Stored(x.G(), old(x.S()), x.S(), first, cl, data)
    ensures old(Exact(x)) && (ok || x.m.faults == old(x.m.faults)) ==> Exact(x)
    ensures ok ==> !old(Scarce(x, ClustersFor(x.G(), |data|)))
    ensures !ok && first != 0 ==> x.m.faults > old(x.m.faults)
    ensures !ok && x.m.faults == old(x.m.faults) + (if first != 0 then 1 else 0) ==> x.V().fat == old(x.V().fat)
    ensures !ok && x.m.faults == old(x.m.faults) ==> old(Scarce(x, ClustersFor(x.G(), |data|)))
    ensures !ok && x.m.faults == old(x.m.faults) && old(Exact(x)) ==>
              |Free(x.G(), old(x.V()))| < ClustersFor(x.G(), |data|)
  {
    hide Multiples, Places, Addresses, Capacities, ViewOf, StateOf, Traced, Shaped, Built, Trail, Holds, Zeroed, Free,
         Chain, Members, Mirrored;
    ghost var s, t, free := x.S(), x.trail, Free(x.G(), x.V());
    first, cl := 0, [];
    var count := ClustersFor(x.copies[0], |data|);
    ClustersForNone(x.G(), |data|);
    if count == 0 {
      TrailStay(x.G(), t);
      TrailWiden(x.G(), t, t, {}, {}, free, free);
      NothingStored(x.G(), s);
      return true, first, cl;
    }
    first, cl := AllocateChain(x, count);
    if first == 0 {
      return false, first, cl;
    }
    ghost var s1, t1 := x.S(), x.trail;
    BuiltIsChain(x.G(), s, s1, cl);
    ChainClusters(x.G(), s1[0], cl);
    BuiltFree(x.G(), s, s1, cl);
    BlankBytes(x.G(), s, s1, cl);
    ClustersForFits(x.G(), |data|);
    ok := WriteClusterChain(x, first, data, cl);
    ghost var t2 := x.trail;
    TrailMore(x.G(), t, t1, t2, free, free, {}, Members(cl));
    if !ok {
      TakeBack(x, first, s, s1, cl);
      TrailMore(x.G(), t, t2, x.trail, free, free, Members(cl), {});
      return;
    }
    BuiltStored(x.G(), s, s1, x.S(), cl, data);
    SameFatFree(x.G(), s1[0], x.V());
  }

  /** Giving back the chain after some of the data has been written restores the FAT. */
  lemma StoreUndone(g: Geometry, s: State, t: State, u: State, w: State, cl: seq<nat>)
    requires Built(g, s, t, cl) && |u| >= 1 && u[0].fat == t[0].fat && FreedState(g, u, w, cl)
    ensures |s| >= 1 && |w| >= 1 && w[0].fat == s[0].fat
  {
    hide BuiltView, Merge, Entry;
    BuiltWords(g, s, t, cl, 0);
    FreedWords(g, u[0], w[0], cl);
    ViewUndone(g, s[0], t[0], w[0], cl);
  }

  /** Give the chain cl back after some of the data has been written to it. */
  method TakeBack(x: Context, first: nat, ghost s: State, ghost t: State, ghost cl: seq<nat>)
    requires x.Valid() && Built(x.G(), s, t, cl) && x.V().fat == t[0].fat && ChainFrom(x.G(), t[0], first, cl)
    modifies x`trail, x`freeCount, x`nextFree, x.m
    ensures x.Valid() && x.m.faults >= old(x.m.faults)
    ensures Trail(x.G(), old(x.trail), x.trail, Members(cl), {})
    ensures x.m.faults == old(x.m.faults) ==> x.V().fat == s[0].fat
  {
    hide ViewOf, StateOf, Traced, Shaped, BuiltView, Trail, Chain, FreedState, Layout, Walk, Closed, Members;
    ghost var g, u := x.G(), x.S();
    ChainSpan(g, t[0], x.V(), cl);
    SameFatChain(g, t[0], x.V(), cl);
    assert ChainFrom(g, x.V(), first, cl);
    var freed := FreeChain(x, first, Members(cl));
    if x.m.faults == old(x.m.faults) {
      StoreUndone(g, s, t, u, x.S(), cl);
    }
  }

  lemma SameFatFree(g: Geometry, v: View, w: View)
    requires |v.fat| == g.clusterCount + 2 && w.fat == v.fat
    ensures Free(g, w) == Free(g, v)
  {
  }

  lemma ClustersForNone(g: Geometry, length: nat)
    requires Layout(g)
    ensures ClustersFor(g, length) == 0 <==> length == 0
  {
    hide Addresses, Places, Capacities;
    Arithmetic.DivLess(length + g.clusterSize - 1, g.clusterSize, 1);
  }

  lemma NothingStored(g: Geometry, s: State)
    requires Layout(g) && ShapedState(g, s)
    ensures |s[0].fat| == g.clusterCount + 2 && Stored(g, s, s, 0, [], [])
  {
    assert Shaped(g, s[0]);
    assert Free(g, s[0]) == Free(g, s[0]) - Members([]);
    ClustersForNone(g, 0);
  }

  /** The clusters of a chain are closed under its links. */
  lemma ChainSpan(g: Geometry, v: View, w: View, cl: seq<nat>)
    requires Chain(g, v, cl) && w.fat == v.fat && g.clusterCount + 2 <= EOC
    ensures |cl| > 0 && Closed(g, w, Members(cl)) && cl[0] in Members(cl)
  {
    forall c | c in cl
      ensures ValidCluster(g, c) && (ValidCluster(g, Entry(w.fat[c])) ==> Entry(w.fat[c]) in Members(cl))
    {
      var i :| 0 <= i < |cl| && cl[i] == c;
      assert i < |cl| - 1 ==> Entry(v.fat[cl[i]]) == cl[i + 1];
    }
  }

  // ----- reading

  /** How far reading has come. */
  ghost predicate ReadSoFar(g: Geometry, v: View, cl: seq<nat>, out: seq<Byte>) {
    && Layout(g) && Shaped(g, v) && Clusters(g, cl) && |out| <= g.capacity[|cl|] && out == BytesAt(g, v, cl, 0, |out|)
  }

  lemma ReadMore(g: Geometry, v: View, cl: seq<nat>, out: seq<Byte>, q: nat, j: nat, chunk: nat)
    requires ReadSoFar(g, v, cl, out) && q < |cl| && j < g.sectorsPerCluster && 0 < chunk <= g.sectorSize
    requires |out| < |g.place| && g.place[|out|] == Place(q, j, 0)
    ensures |v.heap[cl[q]][j]| == g.sectorSize && ReadSoFar(g, v, cl, out + v.heap[cl[q]][j][..chunk])
  {
    hide Multiples, Places, Addresses, ByteAt;
    NextSector(g, q, j, |out|);
    assert g.capacity[q + 1] <= g.capacity[|cl|];
    SectorBytes(g, v, cl, |out|, chunk);
    var more := out + v.heap[cl[q]][j][..chunk];
    forall o | 0 <= o < |more|
      ensures more[o] == BytesAt(g, v, cl, 0, |more|)[o]
    {
      if o < |out| {
        assert out[o] == BytesAt(g, v, cl, 0, |out|)[o];
      } else {
        assert v.heap[cl[q]][j][0 + (o - |out|)] == ByteAt(g, v, cl, o);
      }
    }
  }

  /** The sectors of one cluster, as far as bytes are wanted. */
  method ReadSectors(x: Context, cluster: nat, want: nat, out0: seq<Byte>, ghost cl: seq<nat>, ghost q: nat,
                     ghost sound: bool)
    returns (ok: bool, out: seq<Byte>)
    requires x.Valid() && ValidCluster(x.G(), cluster) && |out0| < want
    requires sound ==> ReadSoFar(x.G(), x.V(), cl, out0) && q < |cl| && cluster == cl[q] && |out0| == x.G().capacity[q]
    modifies x.m`faults
    ensures x.Valid() && x.m.faults >= old(x.m.faults) && |out| <= want
    ensures sound ==> ReadSoFar(x.G(), x.V(), cl, out)
    ensures sound && ok ==> |out| == want || |out| == x.G().capacity[q + 1]
    ensures !ok ==> x.m.faults > old(x.m.faults)
  {
    hide Multiples, Places, Addresses, ByteAt, ViewOf, StateOf, Traced, Shaped, ReadSoFar, SectorOrder;
    ghost var v, g := x.V(), x.G();
    out := out0;
    if sound {
      ReadShape(g, v, cl, out);
      ClusterStart(g, |cl|, q);
    }
    var j := 0;
    ok := true;
    while j < x.copies[0].sectorsPerCluster && |out| < want
      invariant x.Valid() && x.m.faults >= old(x.m.faults) && x.V() == v && 0 <= j <= g.sectorsPerCluster
                && |out| <= want
      invariant sound ==> ReadSoFar(g, v, cl, out)
      invariant sound && |out| < want && j < g.sectorsPerCluster ==>
                  |out| < |g.place| && g.place[|out|] == Place(q, j, 0)
      invariant sound && |out| < want && j == g.sectorsPerCluster ==> |out| == g.capacity[q + 1]
    {
      var sec;
      ok, sec := x.ReadCluster(cluster, j);
      if !ok {
        return;
      }
      var chunk := Min(want - |out|, x.copies[0].sectorSize);
      if sound {
        NextSector(g, q, j, |out|);
        ReadMore(g, v, cl, out, q, j, chunk);
      }
      out := out + sec[..chunk];
      j := j + 1;
    }
  }

  lemma ReadShape(g: Geometry, v: View, cl: seq<nat>, out: seq<Byte>)
    requires ReadSoFar(g, v, cl, out)
    ensures Layout(g) && Clusters(g, cl) && |cl| < |g.capacity| && |out| <= g.capacity[|cl|]
  {
  }

  /** fat32_context_read_file behind the lookup of the entry: at most capacity bytes of a file of the
      given size.  A device error cuts the result short and never changes a byte of it. */
  method ReadFile(x: Context, first: nat, size: nat, capacity: nat, ghost cl: seq<nat>) returns (out: seq<Byte>)
    requires x.Valid()
    modifies x.m`faults
    ensures x.Valid() && x.m.faults >= old(x.m.faults)
    ensures !ValidCluster(x.G(), first) ==> out == []
    ensures |out| <= Min(size, capacity) && (ChainFrom(x.G(), x.V(), first, cl) ==> ReadSoFar(x.G(), x.V(), cl, out))
    ensures ChainFrom(x.G(), x.V(), first, cl) && x.m.faults == old(x.m.faults) ==>
              |out| == Min(Min(size, capacity), x.G().capacity[|cl|])
  {
    hide Multiples, Places, Addresses, ByteAt, ViewOf, StateOf, Traced, Shaped, ReadSoFar, Step, Walk, Clusters;
    ghost var v, g := x.V(), x.G();
    var want := Min(size, capacity);
    var cluster, hops := first, 0;
    out := [];
    ghost var sound := ChainFrom(g, v, first, cl);
    if sound {
      ChainClusters(g, v, cl);
      ReadNone(g, v, cl);
      ClusterStart(g, |cl|, 0);
    }
    while ValidCluster(x.copies[0], cluster) && |out| < want && hops < x.copies[0].clusterCount
      invariant x.Valid() && x.m.faults >= old(x.m.faults) && x.V() == v
      invariant (!ValidCluster(g, first) ==> cluster == first && out == []) && |out| <= want && hops <= g.clusterCount
      invariant sound ==> ReadSoFar(g, v, cl, out) && |out| <= g.capacity[|cl|] && hops <= |cl|
      invariant sound && ValidCluster(g, cluster) && |out| < want ==>
                  hops < |cl| && cluster == cl[hops] && |out| == g.capacity[hops]
      invariant sound && !ValidCluster(g, cluster) ==>
                  |out| == Min(want, g.capacity[|cl|]) || x.m.faults > old(x.m.faults)
      decreases g.clusterCount - hops
    {
      if sound {
        ClusterStart(g, |cl|, hops);
      }
      ghost var q := hops;
      hops := hops + 1;
      var ok;
      ok, out := ReadSectors(x, cluster, want, out, cl, q, sound);
      if !ok {
        return;
      }
      if sound {
        ReadShape(g, v, cl, out);
        ClusterStart(g, |cl|, q);
        ChainStep(g, v, v, cl, q);
      }
      ok, cluster := ChainAdvance(x, cluster);
      if !ok {
        return;
      }
    }
  }

  lemma ReadNone(g: Geometry, v: View, cl: seq<nat>)
    requires Layout(g) && Shaped(g, v) && Clusters(g, cl)
    ensures ReadSoFar(g, v, cl, [])
  {
  }

  // ----- directory entries

  /** Where a directory entry lies: a sector of a cluster and a byte in it. */
  datatype Position = Position(cluster: nat, sector: nat, offset: nat)

  ghost predicate ValidPosition(g: Geometry, p: Position) {
    ValidCluster(g, p.cluster) && p.sector < g.sectorsPerCluster && p.offset + 32 <= g.sectorSize
  }

  /** Position p is slot k of the directory made of the clusters cl. */
  ghost predicate SlotAt(g: Geometry, cl: seq<nat>, k: nat, p: Position)
    requires Layout(g) && Clusters(g, cl)
  {
    && k < g.capacity[|cl|] / 32 && 32 * k + 32 <= g.capacity[|cl|] && p.offset + 32 <= g.sectorSize
    && var q := g.place[32 * k].q; q < |cl| && p.cluster == cl[q] && g.place[32 * k] == Place(q, p.sector, p.offset)
  }

  function First(e: Slot): (c: nat)
    ensures c < 0x1_0000_0000
  {
    0x1_0000 * U16(e, 20) + U16(e, 26)
  }

  function Size(e: Slot): nat {
    U32(e, 28)
  }

  const READ_ONLY: nat := 0
  const DIRECTORY: nat := 4
  const ARCHIVE: Byte := 0x20

  /** A write time and date; the clock that they come from is not part of the model. */
  datatype Stamp = Stamp(time: nat, date: nat)

  /** The entry that replaces e0 when the file gets new contents. */
  function NewEntry(e0: Slot, first: nat, size: nat, stamp: Stamp): (e: Slot)
    requires first < 0x1_0000_0000 && size < 0x1_0000_0000
    ensures First(e) == first && Size(e) == size && e[..11] == e0[..11] && e[11] == ARCHIVE && e[13..18] == e0[13..18]
    ensures e[12] == 0 && U16(e, 22) == stamp.time % 0x1_0000
    ensures U16(e, 18) == stamp.date % 0x1_0000 && U16(e, 24) == stamp.date % 0x1_0000
  {
    hide Le16, Le32;
    var e := e0[..11] + [ARCHIVE, 0] + e0[13..18] + Le16(stamp.date) + Le16(first / 0x1_0000) + Le16(stamp.time)
             + Le16(stamp.date) + Le16(first % 0x1_0000) + Le32(size);
    assert e[20..22] == Le16(first / 0x1_0000) && e[26..28] == Le16(first % 0x1_0000) && e[28..32] == Le32(size);
    assert e[18..20] == Le16(stamp.date) && e[22..24] == Le16(stamp.time) && e[24..26] == Le16(stamp.date);
    assert U16(e, 18) == U16(e[18..20], 0) && U16(e, 22) == U16(e[22..24], 0) && U16(e, 24) == U16(e[24..26], 0);
    assert U16(e, 20) == U16(e[20..22], 0) && U16(e, 26) == U16(e[26..28], 0) && U32(e, 28) == U32(e[28..32], 0);
    e
  }

  /** fat32_position_write: one sector write that replaces one slot of the directory. */
  method PositionWrite(x: Context, p: Position, entry: Slot, ghost cl: seq<nat>, ghost k: nat) returns (ok: bool)
    requires x.Valid() && ValidPosition(x.G(), p)
    modifies x`trail, x.m
    ensures x.Valid() && x.m.faults >= old(x.m.faults)
    ensures ok ==> && x.trail == old(x.trail) + [x.S()] && x.V().fat == old(x.V().fat)
                   && Moved(x.G(), old(x.S()), x.S(), {}, {p.cluster})
    ensures ok && Clusters(x.G(), cl) && SlotAt(x.G(), cl, k, p) ==>
              DirSlots(x.G(), x.V(), cl) == DirSlots(x.G(), old(x.V()), cl)[k := entry]
    ensures !ok ==> x.trail == old(x.trail) && x.m.faults > old(x.m.faults)
  {
    hide Multiples, Places, Addresses, ByteAt, ViewOf, StateOf, Traced, Capacities, SlotAt, Clusters, DirSlots;
    var sector;
    ok, sector := x.ReadCluster(p.cluster, p.sector);
    if !ok {
      return;
    }
    ghost var v, s := x.V(), x.S();
    if Clusters(x.G(), cl) && SlotAt(x.G(), cl, k, p) {
      SlotReplaced(x.G(), v, cl, k, p, entry);
    }
    ok := x.WriteCluster(p.cluster, p.sector, Splice(sector, p.offset, entry));
    if ok {
      MovedSector(x.G(), s, x.S(), p.cluster, p.sector, Splice(sector, p.offset, entry));
    }
  }

  lemma SlotPlace(g: Geometry, cl: seq<nat>, k: nat, p: Position)
    requires Layout(g) && Clusters(g, cl) && SlotAt(g, cl, k, p)
    ensures ValidPosition(g, p) && p.cluster in cl
    ensures |cl| < |g.capacity| && k < g.capacity[|cl|] / 32
  {
    PlaceInside(g, |cl|, 32 * k);
  }

  lemma SlotReplaced(g: Geometry, v: View, cl: seq<nat>, k: nat, p: Position, entry: Slot)
    requires Layout(g) && Shaped(g, v) && Clusters(g, cl) && SlotAt(g, cl, k, p)
    ensures ValidCluster(g, p.cluster) && p.sector < g.sectorsPerCluster && k < |DirSlots(g, v, cl)|
    ensures var w := PutSector(g, v, p.cluster, p.sector, Splice(v.heap[p.cluster][p.sector], p.offset, entry));
            DirSlots(g, w, cl) == DirSlots(g, v, cl)[k := entry]
  {
    hide Multiples, Places, Addresses, ByteAt, PutChunk;
    SlotPlace(g, cl, k, p);
    PutChunkIs(g, v, cl, 32 * k, entry);
    var w := PutChunk(g, v, cl, 32 * k, entry);
    forall i | 0 <= i < g.capacity[|cl|] / 32
      ensures DirSlots(g, w, cl)[i] == DirSlots(g, v, cl)[k := entry][i]
    {
      SlotAfterPut(g, v, cl, k, entry, i);
    }
  }

  lemma SlotAfterPut(g: Geometry, v: View, cl: seq<nat>, k: nat, entry: Slot, i: nat)
    requires Layout(g) && Shaped(g, v) && Clusters(g, cl) && i < g.capacity[|cl|] / 32 && k < g.capacity[|cl|] / 32
    requires 32 * k + 32 <= g.capacity[|cl|] && g.place[32 * k].r + 32 <= g.sectorSize
    ensures SlotOf(g, PutChunk(g, v, cl, 32 * k, entry), cl, i) == if i == k then entry else SlotOf(g, v, cl, i)
  {
    hide Multiples, Places, Addresses, ByteAt, PutChunk;
    var w := PutChunk(g, v, cl, 32 * k, entry);
    var a, b := SlotOf(g, w, cl, i), SlotOf(g, v, cl, i);
    forall r | 0 <= r < 32
      ensures a[r] == if i == k then entry[r] else b[r]
    {
      PutChunkByte(g, v, cl, 32 * k, entry, 32 * i + r);
      assert a[r] == ByteAt(g, w, cl, 32 * i + r) && b[r] == ByteAt(g, v, cl, 32 * i + r);
    }
  }
}
