/** FAT links, cluster streams and the allocation bitmap of exFAT (sections 4.1 and 7.1 of the exFAT
    specification). */
module ExfatLayout {
  import opened Bytes
  import opened VolumeLayout

  const EOC: nat := 0xFFFF_FFF8
  const BAD_CLUSTER: nat := 0xFFFF_FFF7
  const CHAIN_END: nat := 0xFFFF_FFFF

  // ----- FAT links and cluster streams

  /** What read_fat answers: a bad, free or out-of-range link is an error. */
  function Link(g: Geometry, v: View, c: nat): (next: Option<nat>)
    requires Shaped(g, v)
  {
    if !HasFatEntry(g, c) then None
    else if v.fat[c] == BAD_CLUSTER || (v.fat[c] < EOC && !ValidCluster(g, v.fat[c])) then None
    else Some(v.fat[c])
  }

  function Walk(g: Geometry, v: View, c: nat, steps: nat): Option<nat>
    requires Shaped(g, v)
    decreases steps
  {
    if steps == 0 then Some(c)
    else
      var next := Link(g, v, c);
      if next.None? || next.value >= EOC then None else Walk(g, v, next.value, steps - 1)
  }

  /** The cluster that holds part number index of a stream. */
  function StreamCluster(g: Geometry, v: View, first: nat, contiguous: bool, index: nat): Option<nat>
    requires Shaped(g, v)
  {
    if !ValidCluster(g, first) || index >= g.clusterCount then None
    else if contiguous then
      if first - 2 > g.clusterCount - 1 - index then None else Some(first + index)
    else Walk(g, v, first, index)
  }

  /** The stream starting at first consists (at least) of the clusters cl, in this order. */
  ghost predicate StreamIs(g: Geometry, v: View, first: nat, contiguous: bool, cl: seq<nat>) {
    && Shaped(g, v) && Clusters(g, cl) && cl[0] == first
    && (contiguous ==> forall i :: 0 <= i < |cl| ==> cl[i] == first + i)
    && (!contiguous ==> Linked(v, cl) && forall i :: 0 <= i < |cl| - 1 ==> HasFatEntry(g, cl[i]))
  }

  lemma {:induction false} WalkLinked(g: Geometry, v: View, cl: seq<nat>, i: nat, n: nat)
    requires Layout(g) && Shaped(g, v) && Clusters(g, cl) && Linked(v, cl)
    requires forall i :: 0 <= i < |cl| - 1 ==> HasFatEntry(g, cl[i])
    requires i + n < |cl|
    ensures Walk(g, v, cl[i], n) == Some(cl[i + n])
    decreases n
  {
    if n > 0 {
      WalkLinked(g, v, cl, i + 1, n - 1);
    }
  }

  /** stream_cluster visits exactly the clusters of the stream, in order. */
  lemma StreamClusterIs(g: Geometry, v: View, first: nat, contiguous: bool, cl: seq<nat>, i: nat)
    requires Layout(g) && StreamIs(g, v, first, contiguous, cl) && i < |cl|
    ensures StreamCluster(g, v, first, contiguous, i) == Some(cl[i])
  {
    if !contiguous {
      WalkLinked(g, v, cl, 0, i);
    }
  }

  lemma ChunkWithin(g: Geometry, v: View, w: View, first: nat, contiguous: bool, cl: seq<nat>, off: nat, b: seq<Byte>)
    requires Layout(g) && Shaped(g, v) && StreamIs(g, w, first, contiguous, cl) && off < g.capacity[|cl|]
    requires g.place[off].r + |b| <= g.sectorSize && Within(g, v, w, {}, Members(cl))
    ensures Within(g, v, PutChunk(g, w, cl, off, b), {}, Members(cl))
    ensures StreamIs(g, PutChunk(g, w, cl, off, b), first, contiguous, cl)
  {
    assert cl[g.place[off].q] in Members(cl);
  }

  /** The first done bytes of buf have been laid over the stream, and nothing else has happened. */
  ghost predicate Written(g: Geometry, v: View, w: View, first: nat, contiguous: bool, cl: seq<nat>,
                          off: nat, buf: seq<Byte>, done: nat)
  {
    && Layout(g) && Shaped(g, v) && StreamIs(g, w, first, contiguous, cl)
    && done <= |buf| && off + |buf| <= g.capacity[|cl|] <= |g.place|
    && Within(g, v, w, {}, Members(cl)) && Overlaid(g, v, w, cl, off, buf[..done])
  }

  lemma WrittenPlace(g: Geometry, v: View, w: View, first: nat, contiguous: bool, cl: seq<nat>,
                     off: nat, buf: seq<Byte>, done: nat)
    requires Written(g, v, w, first, contiguous, cl, off, buf, done) && done < |buf|
    ensures StreamIs(g, w, first, contiguous, cl) && off + done < g.capacity[|cl|] <= |g.place|
    ensures g.place[off + done].r < g.sectorSize
  {
  }

  lemma WrittenMeans(g: Geometry, v: View, w: View, first: nat, contiguous: bool, cl: seq<nat>,
                     off: nat, buf: seq<Byte>, done: nat)
    requires Written(g, v, w, first, contiguous, cl, off, buf, done)
    ensures Layout(g) && Shaped(g, v) && Shaped(g, w) && Clusters(g, cl) && done <= |buf|
    ensures Within(g, v, w, {}, Members(cl)) && Overlaid(g, v, w, cl, off, buf[..done])
  {
  }

  lemma WrittenNothing(g: Geometry, v: View, first: nat, contiguous: bool, cl: seq<nat>, off: nat, buf: seq<Byte>)
    requires Layout(g) && StreamIs(g, v, first, contiguous, cl) && off + |buf| <= g.capacity[|cl|]
    ensures Written(g, v, v, first, contiguous, cl, off, buf, 0)
  {
    hide Multiples, Places, Addresses, Shaped, ByteAt;
    OverlaidNothing(g, v, cl, off);
    WithinSelf(g, v, Members(cl));
    assert buf[..0] == [];
  }

  lemma WrittenMore(g: Geometry, v: View, w: View, first: nat, contiguous: bool, cl: seq<nat>,
                    off: nat, buf: seq<Byte>, done: nat, copy: nat)
    requires Written(g, v, w, first, contiguous, cl, off, buf, done) && 0 < copy && done + copy <= |buf|
    requires g.place[off + done].r + copy <= g.sectorSize
    ensures Written(g, v, PutChunk(g, w, cl, off + done, buf[done..done + copy]), first, contiguous, cl, off, buf,
                    done + copy)
  {
    hide Multiples, Addresses, Places, ByteAt, Overlaid, PutChunk, Shaped, Within;
    ChunkWithin(g, v, w, first, contiguous, cl, off + done, buf[done..done + copy]);
    OverlayMore(g, v, w, cl, off, buf[..done], buf[done..done + copy]);
    assert buf[..done] + buf[done..done + copy] == buf[..done + copy];
  }

  /** A stream whose FAT entries were not touched is still the same stream. */
  lemma StreamKept(g: Geometry, v: View, w: View, f: set<nat>, h: set<nat>, first: nat, contiguous: bool, cl: seq<nat>)
    requires StreamIs(g, v, first, contiguous, cl) && Within(g, v, w, f, h) && Shaped(g, w)
    requires contiguous || f !! Members(cl)
    ensures StreamIs(g, w, first, contiguous, cl)
  {
    if !contiguous {
      forall i | 0 <= i < |cl| - 1
        ensures w.fat[cl[i]] == cl[i + 1]
      {
        assert cl[i] in Members(cl);
      }
    }
  }

  // ----- the allocation bitmap

  ghost predicate BitmapIs(g: Geometry, v: View, bm: seq<nat>)
    requires Layout(g)
  {
    && StreamIs(g, v, g.bitmapFirst, false, bm)
    && g.clusterCount <= 8 * g.bitmapLength && g.bitmapLength <= g.capacity[|bm|]
  }

  /** Bit of cluster c in the allocation bitmap stored in the clusters bm. */
  predicate Allocated(g: Geometry, v: View, bm: seq<nat>, c: nat)
    requires Layout(g) && Shaped(g, v) && Clusters(g, bm) && ValidCluster(g, c)
    requires g.clusterCount <= 8 * g.bitmapLength && g.bitmapLength <= g.capacity[|bm|]
  {
    Bit(ByteAt(g, v, bm, (c - 2) / 8), (c - 2) % 8)
  }

  /** Sector lba belongs to cluster c. */
  predicate InCluster(g: Geometry, lba: nat, c: nat)
    requires Layout(g)
  {
    ValidCluster(g, c) && g.clusterLba[c] <= lba < g.clusterLba[c] + g.sectorsPerCluster
  }

  /** The clusters whose allocation bit is set. */
  ghost function Live(g: Geometry, v: View, bm: seq<nat>): set<nat>
    requires Layout(g) && BitmapIs(g, v, bm)
  {
    set c | 2 <= c < g.clusterCount + 2 && Allocated(g, v, bm, c)
  }

  /** Every cluster that was allocated in v, except those in x, has kept its FAT entry and contents. */
  ghost predicate Kept(g: Geometry, bm: seq<nat>, v: View, w: View, x: set<nat>) {
    && Layout(g) && BitmapIs(g, v, bm) && Shaped(g, w)
    && forall c {:trigger w.fat[c]} {:trigger w.heap[c]} :: c in Live(g, v, bm) && c !in x ==>
         w.fat[c] == v.fat[c] && w.heap[c] == v.heap[c]
  }

  /** Later changes that avoid the clusters allocated in u, except those in x, change nothing about that. */
  lemma KeptOn(g: Geometry, bm: seq<nat>, u: View, v: View, w: View, f: set<nat>, h: set<nat>, x: set<nat>)
    requires Kept(g, bm, u, v, x) && Within(g, v, w, f, h) && Shaped(g, w)
    requires (f + h) * Live(g, u, bm) <= x
    ensures Kept(g, bm, u, w, x)
  {
    hide Multiples, Places, Addresses, Allocated;
    forall c | c in Live(g, u, bm) && c !in x
      ensures w.fat[c] == u.fat[c] && w.heap[c] == u.heap[c]
    {
      assert c !in f + h && v.fat[c] == u.fat[c];
    }
  }

  lemma KeptSelf(g: Geometry, bm: seq<nat>, v: View, x: set<nat>)
    requires Layout(g) && BitmapIs(g, v, bm)
    ensures Kept(g, bm, v, v, x)
  {
    hide Multiples, Places, Addresses;
  }

  /** The bitmap is in place and marks its own clusters as allocated. */
  ghost predicate Sound(g: Geometry, v: View, bm: seq<nat>)
    requires Layout(g)
  {
    BitmapIs(g, v, bm) && Members(bm) <= Live(g, v, bm)
  }

  /** Changes outside the bitmap's own clusters leave the bitmap and all bits in place. */
  lemma BitmapKept(g: Geometry, v: View, w: View, f: set<nat>, h: set<nat>, bm: seq<nat>)
    requires Layout(g) && BitmapIs(g, v, bm) && Within(g, v, w, f, h) && Shaped(g, w)
    requires f !! Members(bm) && h !! Members(bm)
    ensures BitmapIs(g, w, bm) && Live(g, w, bm) == Live(g, v, bm)
  {
    StreamKept(g, v, w, f, h, g.bitmapFirst, false, bm);
    forall c | 2 <= c < g.clusterCount + 2
      ensures Allocated(g, v, bm, c) == Allocated(g, w, bm, c)
    {
      BytesKept(g, v, w, f, h, bm, (c - 2) / 8);
    }
  }

  /** Writing the bitmap byte of cluster c changes the allocation state of c and of nothing else. */
  lemma BitmapPutLive(g: Geometry, v: View, w: View, bm: seq<nat>, c: nat, on: bool)
    requires Layout(g) && BitmapIs(g, v, bm) && ValidCluster(g, c) && Shaped(g, w)
    requires Within(g, v, w, {}, Members(bm)) && Pow2(8) == 256
    requires Overlaid(g, v, w, bm, (c - 2) / 8, [WithBit(ByteAt(g, v, bm, (c - 2) / 8), (c - 2) % 8, on, 8)])
    ensures BitmapIs(g, w, bm)
    ensures Live(g, w, bm) == if on then Live(g, v, bm) + {c} else Live(g, v, bm) - {c}
  {
    hide Multiples, Addresses, Places, ByteAt;
    StreamKept(g, v, w, {}, Members(bm), g.bitmapFirst, false, bm);
    forall d | 2 <= d < g.clusterCount + 2
      ensures Allocated(g, w, bm, d) == if d == c then on else Allocated(g, v, bm, d)
    {
      WithBitOnly(ByteAt(g, v, bm, (c - 2) / 8), (c - 2) % 8, on, 8, (d - 2) % 8);
    }
  }

  lemma Pow2Of8()
    ensures Pow2(8) == 256
  {
    assert Pow2(2) == 4;
    assert Pow2(4) == 16;
    assert Pow2(6) == 64;
  }
}
