/** Directories of an exFAT volume: reading and writing their bytes, growing them, finding room for
    an entry set, and changing or retiring a set in place. */
module ExfatDirectory {
  import opened Bytes
  import opened VolumeLayout
  import opened ExfatLayout
  import opened ExfatVolume
  import opened ExfatClusters
  import opened ExfatEntries
  import Counting

  /** First cluster, chaining and recorded length of a stream; length 0 means unrecorded. */
  datatype Handle = Handle(first: nat, contiguous: bool, length: nat)

  /** A file or directory with the place of its entry set in its parent; the root has no entries. */
  datatype FileNode = FileNode(stream: Handle, parent: Handle, offset: nat, count: nat)

  /** The directory h consists exactly of the clusters cl. */
  ghost predicate DirIs(g: Geometry, v: View, h: Handle, cl: seq<nat>)
    requires Layout(g)
  {
    && StreamIs(g, v, h.first, h.contiguous, cl)
    && (h.length != 0 ==> h.length == g.capacity[|cl|])
    && (h.length == 0 ==> !h.contiguous && Ended(g, v, cl))
  }

  /** A directory whose clusters are allocated and do not belong to the bitmap. */
  ghost predicate LiveDir(g: Geometry, v: View, bm: seq<nat>, h: Handle, cl: seq<nat>)
    requires Layout(g)
  {
    DirIs(g, v, h, cl) && BitmapIs(g, v, bm) && Members(cl) <= Live(g, v, bm) && Members(cl) !! Members(bm)
  }

  lemma LiveDirKept(g: Geometry, v: View, w: View, f: set<nat>, hs: set<nat>, bm: seq<nat>, h: Handle, cl: seq<nat>)
    requires Layout(g) && LiveDir(g, v, bm, h, cl) && Within(g, v, w, f, hs) && Shaped(g, w)
    requires BitmapIs(g, w, bm) && f !! Members(cl) && Members(cl) <= Live(g, w, bm)
    ensures LiveDir(g, w, bm, h, cl)
  {
    hide Multiples, Places, Addresses;
    StreamKept(g, v, w, f, hs, h.first, h.contiguous, cl);
    assert cl[|cl| - 1] in Members(cl);
  }

  /** The length as recorded, or that of the chain; a refused read cuts the chain short. */
  method DirectoryLength(v: Volume, h: Handle, ghost cl: seq<nat>) returns (length: nat, ghost m: nat)
    requires Layout(v.g) && Fits(v.g, v.m.image) && DirIs(v.g, v.V(), h, cl)
    modifies v.m`faults
    ensures v.m.faults >= old(v.m.faults)
    ensures 0 < m <= |cl| && length == v.g.capacity[m] <= v.g.capacity[|cl|]
    ensures h.length != 0 || v.m.faults == old(v.m.faults) ==> m == |cl|
  {
    hide Multiples, Places, Addresses, ViewOf, Shaped;
    m := |cl|;
    if h.length != 0 {
      return h.length, m;
    }
    var count := CountChain(v, h.first, cl);
    length, m := v.g.capacity[count], count;
  }

  method ReadDirectoryBytes(v: Volume, h: Handle, offset: nat, size: nat, ghost cl: seq<nat>)
    returns (ok: bool, data: seq<Byte>)
    requires Layout(v.g) && Fits(v.g, v.m.image) && DirIs(v.g, v.V(), h, cl) && size > 0
    modifies v.m`faults
    ensures v.m.faults >= old(v.m.faults)
    ensures ok ==> offset + size <= v.g.capacity[|cl|] && data == BytesAt(v.g, v.V(), cl, offset, size)
    ensures !ok ==> offset + size > v.g.capacity[|cl|] || v.m.faults > old(v.m.faults)
  {
    hide Multiples, Places, Addresses, ViewOf, Shaped, ByteAt;
    var length, m := DirectoryLength(v, h, cl);
    data := v.ReadStream(h.first, h.contiguous, length, offset, size, cl);
    ok := |data| == size;
  }

  method WriteDirectoryBytes(v: Volume, h: Handle, offset: nat, data: seq<Byte>, ghost cl: seq<nat>) returns (ok: bool)
    requires v.Open() && DirIs(v.g, v.V(), h, cl)
    modifies v`journal, v`full, v.m
    ensures v.Open() && v.m.faults >= old(v.m.faults)
    ensures Within(v.g, old(v.V()), v.V(), {}, Members(cl))
    ensures ok ==> offset + |data| <= v.g.capacity[|cl|] && Overlaid(v.g, old(v.V()), v.V(), cl, offset, data)
    ensures !ok ==> offset + |data| > v.g.capacity[|cl|] || v.Hindered(old(v.m.faults))
  {
    hide Multiples, Places, Addresses, ViewOf, Shaped, Overlaid, Undoable;
    ghost var v0 := v.V();
    WithinSelf(v.g, v0, Members(cl));
    ok := false;
    var length, m := DirectoryLength(v, h, cl);
    if offset + |data| <= length {
      var done;
      ok, done := v.WriteStream(h.first, h.contiguous, offset, data, cl);
      if ok {
        assert data[..done] == data;
      }
    }
  }

  /** The entry set of the node lies in a directory with the clusters cl and has a size the driver takes. */
  predicate SetInside(g: Geometry, cl: seq<nat>, node: FileNode)
    requires Layout(g) && Clusters(g, cl)
  {
    3 <= node.count <= 19 && node.offset + 32 * node.count <= g.capacity[|cl|]
  }

  /** Its second entry is a stream entry. */
  predicate SetThere(g: Geometry, v: View, cl: seq<nat>, node: FileNode)
    requires Layout(g) && Shaped(g, v) && Clusters(g, cl)
  {
    SetInside(g, cl, node) && ByteAt(g, v, cl, node.offset + 32) == ENTRY_STREAM
  }

  /** Rewrite the entry set of a node: read it, change it, write it back. */
  method ReadNodeSet(v: Volume, node: FileNode, ghost cl: seq<nat>) returns (ok: bool, es: seq<Byte>)
    requires Layout(v.g) && Fits(v.g, v.m.image) && DirIs(v.g, v.V(), node.parent, cl)
    modifies v.m`faults
    ensures v.m.faults >= old(v.m.faults)
    ensures ok ==> 3 <= node.count <= 19 && node.offset + 32 * node.count <= v.g.capacity[|cl|]
                   && es == BytesAt(v.g, v.V(), cl, node.offset, 32 * node.count)
    ensures !ok ==> !SetInside(v.g, cl, node) || v.m.faults > old(v.m.faults)
  {
    ok, es := false, [];
    if 3 <= node.count <= 19 {
      ok, es := ReadDirectoryBytes(v, node.parent, node.offset, 32 * node.count, cl);
    }
  }

  /** The parent directory cl, with the set of the node replaced by es. */
  ghost predicate SetReplaced(g: Geometry, v: View, w: View, cl: seq<nat>, node: FileNode, es: seq<Byte>)
    requires Layout(g) && Shaped(g, v) && Shaped(g, w) && Clusters(g, cl)
  {
    && |es| == 32 * node.count && 3 <= node.count <= 19 && node.offset + |es| <= g.capacity[|cl|]
    && Overlaid(g, v, w, cl, node.offset, es)
  }

  /** The set of the node in the directory pcl of v. */
  ghost predicate HasSet(g: Geometry, v: View, pcl: seq<nat>, node: FileNode, es: seq<Byte>) {
    && Layout(g) && Shaped(g, v) && Clusters(g, pcl) && 3 <= node.count <= 19
    && node.offset + 32 * node.count <= g.capacity[|pcl|] && es == BytesAt(g, v, pcl, node.offset, 32 * node.count)
  }

  /** From v to w the directory pcl differs by es' standing where the node's set was. */
  ghost predicate SetNow(g: Geometry, v: View, w: View, pcl: seq<nat>, node: FileNode, es': seq<Byte>) {
    Layout(g) && Shaped(g, v) && Shaped(g, w) && Clusters(g, pcl) && SetReplaced(g, v, w, pcl, node, es')
  }

  /** Changes elsewhere before and after do not disturb that. */
  lemma SetNowAround(g: Geometry, u: View, v: View, w: View, x: View, pcl: seq<nat>, node: FileNode, es': seq<Byte>,
                     f: set<nat>, h: set<nat>, f': set<nat>, h': set<nat>)
    requires SetNow(g, v, w, pcl, node, es') && Shaped(g, u) && Shaped(g, x)
    requires Within(g, u, v, f, h) && Within(g, w, x, f', h') && h !! Members(pcl) && h' !! Members(pcl)
    ensures SetNow(g, u, x, pcl, node, es')
  {
    hide Multiples, Places, Addresses, Shaped, Within;
    forall o | 0 <= o < g.capacity[|pcl|]
      ensures ByteAt(g, x, pcl, o) ==
              if node.offset <= o < node.offset + |es'| then es'[o - node.offset] else ByteAt(g, u, pcl, o)
    {
      BytesKept(g, u, v, f, h, pcl, o);
      BytesKept(g, w, x, f', h', pcl, o);
    }
  }

  lemma HasSetKept(g: Geometry, u: View, v: View, pcl: seq<nat>, node: FileNode, f: set<nat>, h: set<nat>,
                   es: seq<Byte>)
    requires HasSet(g, v, pcl, node, es) && Shaped(g, u) && Within(g, u, v, f, h) && h !! Members(pcl)
    ensures HasSet(g, u, pcl, node, es)
  {
    hide Multiples, Places, Addresses, Shaped, Within;
    forall i | 0 <= i < 32 * node.count
      ensures BytesAt(g, v, pcl, node.offset, 32 * node.count)[i] == BytesAt(g, u, pcl, node.offset, 32 * node.count)[i]
    {
      BytesKept(g, u, v, f, h, pcl, node.offset + i);
    }
  }

  lemma SetThereIs(g: Geometry, v: View, cl: seq<nat>, node: FileNode, es: seq<Byte>)
    requires Layout(g) && Shaped(g, v) && Clusters(g, cl) && SetInside(g, cl, node)
    requires es == BytesAt(g, v, cl, node.offset, 32 * node.count)
    ensures SetThere(g, v, cl, node) <==> es[32] == ENTRY_STREAM
  {
    hide Multiples, Places, Addresses, Shaped, ByteAt;
  }

  method UpdateNodeStream(v: Volume, node: FileNode, first: nat, length: nat, validLength: nat, contiguous: bool,
                          ghost cl: seq<nat>) returns (ok: bool)
    requires v.Open() && DirIs(v.g, v.V(), node.parent, cl)
    modifies v`journal, v`full, v.m
    ensures v.Open() && Within(v.g, old(v.V()), v.V(), {}, Members(cl))
    ensures ok ==> 3 <= node.count <= 19 && node.offset + 32 * node.count <= v.g.capacity[|cl|]
    ensures ok ==> SetReplaced(v.g, old(v.V()), v.V(), cl, node,
                     UpdateStream(BytesAt(v.g, old(v.V()), cl, node.offset, 32 * node.count), node.count,
                                  first, length, validLength, contiguous))
    ensures v.m.faults >= old(v.m.faults)
    ensures !ok ==> !SetThere(v.g, old(v.V()), cl, node) || v.Hindered(old(v.m.faults))
  {
    hide Multiples, Places, Addresses, ViewOf, Overlaid, Undoable, BytesAt, UpdateStream;
    WithinSelf(v.g, v.V(), Members(cl));
    var es;
    ok, es := ReadNodeSet(v, node, cl);
    if !ok {
      return;
    }
    SetThereIs(v.g, v.V(), cl, node, es);
    if es[32] != ENTRY_STREAM {
      return false;
    }
    var es' := UpdateStream(es, node.count, first, length, validLength, contiguous);
    ok := WriteDirectoryBytes(v, node.parent, node.offset, es', cl);
  }

  method RetireEntry(v: Volume, node: FileNode, ghost cl: seq<nat>) returns (ok: bool)
    requires v.Open() && DirIs(v.g, v.V(), node.parent, cl)
    modifies v`journal, v`full, v.m
    ensures v.Open() && Within(v.g, old(v.V()), v.V(), {}, Members(cl)) && v.m.faults >= old(v.m.faults)
    ensures ok ==> 3 <= node.count <= 19 && node.offset + 32 * node.count <= v.g.capacity[|cl|]
    ensures ok ==> SetReplaced(v.g, old(v.V()), v.V(), cl, node,
                     Retire(BytesAt(v.g, old(v.V()), cl, node.offset, 32 * node.count), node.count))
    ensures !ok ==> !SetInside(v.g, cl, node) || v.Hindered(old(v.m.faults))
  {
    hide Multiples, Places, Addresses, ViewOf, Overlaid, Undoable, BytesAt;
    WithinSelf(v.g, v.V(), Members(cl));
    var es;
    ok, es := ReadNodeSet(v, node, cl);
    if !ok {
      return;
    }
    ghost var was := es;
    for index := 0 to node.count
      invariant |es| == |was|
      invariant forall i :: 0 <= i < |was| ==>
                  es[i] == if i % 32 == 0 && i < 32 * index && was[i] >= 0x80 then was[i] - 0x80 else was[i]
    {
      es := es[32 * index := if es[32 * index] >= 0x80 then es[32 * index] - 0x80 else es[32 * index]];
    }
    assert es == Retire(was, node.count);
    ok := WriteDirectoryBytes(v, node.parent, node.offset, es, cl);
  }

  // ----- what a directory's parent says about it

  /** From v to w the set of dir in pcl has been changed to say h. */
  ghost predicate Recorded(g: Geometry, v: View, w: View, pcl: seq<nat>, dir: FileNode, h: Handle, es: seq<Byte>) {
    HasSet(g, v, pcl, dir, es) && SetNow(g, v, w, pcl, dir,
                                         UpdateStream(es, dir.count, h.first, h.length, h.length, h.contiguous))
  }

  /** From v to w nothing about the directory pcl has changed, or only what it says about dir, which now is h. */
  ghost predicate ParentSays(g: Geometry, v: View, w: View, pcl: seq<nat>, dir: FileNode, h: Handle) {
    || (h == dir.stream && SameDir(g, v, w, pcl))
    || exists es :: Recorded(g, v, w, pcl, dir, h, es)
  }

  ghost predicate SameDir(g: Geometry, v: View, w: View, cl: seq<nat>) {
    && Layout(g) && Shaped(g, v) && Shaped(g, w) && Clusters(g, cl)
    && forall o :: 0 <= o < g.capacity[|cl|] ==> ByteAt(g, w, cl, o) == ByteAt(g, v, cl, o)
  }

  lemma SameDirKept(g: Geometry, v: View, w: View, f: set<nat>, h: set<nat>, cl: seq<nat>)
    requires Layout(g) && Shaped(g, v) && Shaped(g, w) && Clusters(g, cl) && Within(g, v, w, f, h) && h !! Members(cl)
    ensures SameDir(g, v, w, cl)
  {
    hide Multiples, Places, Addresses, Shaped, ByteAt, Within;
    forall o | 0 <= o < g.capacity[|cl|]
      ensures ByteAt(g, w, cl, o) == ByteAt(g, v, cl, o)
    {
      BytesKept(g, v, w, f, h, cl, o);
    }
  }

  /** Changes elsewhere, before and after, do not disturb that. */
  lemma ParentSaysAround(g: Geometry, u: View, v: View, w: View, x: View, pcl: seq<nat>, dir: FileNode, h: Handle)
    requires ParentSays(g, v, w, pcl, dir, h) && SameDir(g, u, v, pcl) && SameDir(g, w, x, pcl)
    ensures ParentSays(g, u, x, pcl, dir, h)
  {
    hide Multiples, Places, Addresses, Shaped, ByteAt, UpdateStream;
    if h == dir.stream && SameDir(g, v, w, pcl) {
      assert SameDir(g, u, x, pcl);
    } else {
      var es :| Recorded(g, v, w, pcl, dir, h, es);
      RecordedAround(g, u, v, w, x, pcl, dir, h, es);
    }
  }

  lemma RecordedAround(g: Geometry, u: View, v: View, w: View, x: View, pcl: seq<nat>, dir: FileNode, h: Handle,
                       es: seq<Byte>)
    requires Recorded(g, v, w, pcl, dir, h, es) && SameDir(g, u, v, pcl) && SameDir(g, w, x, pcl)
    ensures Recorded(g, u, x, pcl, dir, h, es)
  {
    hide Multiples, Places, Addresses, Shaped, ByteAt, UpdateStream;
    assert BytesAt(g, u, pcl, dir.offset, 32 * dir.count) == BytesAt(g, v, pcl, dir.offset, 32 * dir.count);
  }

  /** A second change leaves nothing of the first. */
  lemma ParentSaysAgain(g: Geometry, u: View, v: View, w: View, pcl: seq<nat>, dir: FileNode, h: Handle, h': Handle,
                        es: seq<Byte>)
    requires ParentSays(g, u, v, pcl, dir, h) && Recorded(g, v, w, pcl, dir, h', es)
    ensures ParentSays(g, u, w, pcl, dir, h')
  {
    hide Multiples, Places, Addresses, Shaped, ByteAt, UpdateStream;
    if h == dir.stream && SameDir(g, u, v, pcl) {
      SameDirSelf(g, v, w, pcl);
      RecordedAround(g, u, v, w, w, pcl, dir, h', es);
    } else {
      var es0 :| Recorded(g, u, v, pcl, dir, h, es0);
      RecordedTwice(g, u, v, w, pcl, dir, h, h', es0, es);
    }
  }

  lemma SameDirSelf(g: Geometry, v: View, w: View, cl: seq<nat>)
    requires Layout(g) && Shaped(g, v) && Shaped(g, w) && Clusters(g, cl)
    ensures SameDir(g, v, v, cl) && SameDir(g, w, w, cl)
  {
    hide Multiples, Places, Addresses, Shaped, ByteAt;
  }

  lemma RecordedTwice(g: Geometry, u: View, v: View, w: View, pcl: seq<nat>, dir: FileNode, h: Handle, h': Handle,
                      es0: seq<Byte>, es: seq<Byte>)
    requires Recorded(g, u, v, pcl, dir, h, es0) && Recorded(g, v, w, pcl, dir, h', es)
    ensures Recorded(g, u, w, pcl, dir, h', es0)
  {
    hide Multiples, Places, Addresses, Shaped, ByteAt, UpdateStream;
    var es1 := UpdateStream(es0, dir.count, h.first, h.length, h.length, h.contiguous);
    forall i | 0 <= i < |es|
      ensures es[i] == es1[i]
    {
      assert es[i] == ByteAt(g, v, pcl, dir.offset + i);
    }
    assert es == es1;
    UpdateTwice(es0, dir.count, h.first, h.length, h.length, h.contiguous, h'.first, h'.length, h'.length,
                h'.contiguous);
  }

  // ----- growing a directory

  /** Unjournaled zeroing of a cluster that was free when the transaction began. */
  method ZeroCluster(v: Volume, c: nat) returns (ok: bool)
    requires v.Open() && ValidCluster(v.g, c) && c !in Live(v.g, ViewOf(v.g, v.base), v.bm)
    modifies v.m
    ensures v.Open() && v.m.faults >= old(v.m.faults) && Within(v.g, old(v.V()), v.V(), {}, {c})
    ensures ok ==> forall j :: 0 <= j < v.g.sectorsPerCluster ==> v.V().heap[c][j] == Zeros(v.g.sectorSize)
    ensures !ok ==> v.m.faults > old(v.m.faults)
  {
    hide Multiples, Places, Addresses, ViewOf, Undoable, Allocated, BitmapIs;
    ghost var v0 := v.V();
    ok := true;
    for sector := 0 to v.g.sectorsPerCluster
      invariant v.Open() && v.m.faults >= old(v.m.faults) && Within(v.g, v0, v.V(), {}, {c})
      invariant forall j :: 0 <= j < sector ==> v.V().heap[c][j] == Zeros(v.g.sectorSize)
    {
      ok := v.WriteSpare(c, sector, Zeros(v.g.sectorSize));
      if !ok {
        return;
      }
    }
    ok := true;
  }

  /** Write one FAT entry of a cluster outside the bitmap. */
  method Relink(v: Volume, c: nat, value: nat) returns (ok: bool)
    requires v.Open() && Sound(v.g, v.V(), v.bm) && c !in v.bm && value < 0x1_0000_0000
    modifies v`journal, v`full, v.m
    ensures v.Open() && v.m.faults >= old(v.m.faults) && Sound(v.g, v.V(), v.bm)
    ensures Live(v.g, v.V(), v.bm) == old(Live(v.g, v.V(), v.bm))
    ensures Within(v.g, old(v.V()), v.V(), {c}, {})
    ensures ok ==> HasFatEntry(v.g, c) && v.V().fat[c] == value
    ensures !ok ==> !HasFatEntry(v.g, c) || v.Hindered(old(v.m.faults))
  {
    hide Multiples, Places, Addresses, ViewOf, Undoable, Allocated, StreamIs;
    ghost var w := v.V();
    ok := v.WriteFat(c, value);
    if ok {
      assert Within(v.g, w, v.V(), {c}, {});
      BitmapKept(v.g, w, v.V(), {c}, {}, v.bm);
    }
  }

  /** Chain the clusters of a directory explicitly and put one more behind them. */
  method AppendCluster(v: Volume, clusters: seq<nat>, c: nat) returns (ok: bool)
    requires v.Open() && Sound(v.g, v.V(), v.bm) && Clusters(v.g, clusters + [c])
    requires 0 < |clusters| && Members(clusters + [c]) !! Members(v.bm)
    modifies v`journal, v`full, v.m
    ensures v.Open() && v.m.faults >= old(v.m.faults) && Sound(v.g, v.V(), v.bm)
    ensures Live(v.g, v.V(), v.bm) == old(Live(v.g, v.V(), v.bm))
    ensures Within(v.g, old(v.V()), v.V(), Members(clusters + [c]), {})
    ensures ok ==> Chained(v.g, v.V(), clusters + [c])
    ensures !ok ==> !Reaches(v.g) || v.Hindered(old(v.m.faults))
  {
    hide Multiples, Places, Addresses, ViewOf, Undoable, Allocated, BitmapIs;
    ghost var v0 := v.V();
    ghost var cl := clusters + [c];
    ghost var live := Live(v.g, v0, v.bm);
    ok := true;
    for i := 0 to |clusters| + 1
      invariant v.Open() && v.m.faults >= old(v.m.faults) && Sound(v.g, v.V(), v.bm) && Live(v.g, v.V(), v.bm) == live
      invariant Within(v.g, v0, v.V(), Members(cl), {})
      invariant forall k :: 0 <= k < i ==>
                  HasFatEntry(v.g, cl[k]) && v.V().fat[cl[k]] == if k < |clusters| then cl[k + 1] else CHAIN_END
    {
      assert cl[i] in Members(cl) && (i < |clusters| ==> ValidCluster(v.g, cl[i + 1]));
      var value := if i + 1 < |clusters| then clusters[i + 1] else if i < |clusters| then c else CHAIN_END;
      ok := Relink(v, if i < |clusters| then clusters[i] else c, value);
      if !ok {
        return;
      }
    }
    ok := true;
  }

  /** A cluster that the list does not contain can be added to it: there is room for it. */
  lemma OneMoreCluster(g: Geometry, cl: seq<nat>, c: nat)
    requires Clusters(g, cl) && ValidCluster(g, c) && c !in cl
    ensures Clusters(g, cl + [c])
  {
    Counting.Pigeonhole(cl + [c], 2, g.clusterCount);
  }

  /** From v to w the directory cl has become cl': its clusters (or, after a refused read, the first
      of them), then one zeroed cluster that was free; besides these only hs changed. */
  ghost predicate Grown(g: Geometry, bm: seq<nat>, v: View, w: View, cl: seq<nat>, cl': seq<nat>, hs: set<nat>) {
    && Layout(g) && BitmapIs(g, v, bm) && Sound(g, w, bm) && Clusters(g, cl')
    && 2 <= |cl'| <= |cl| + 1 && cl'[..|cl'| - 1] <= cl
    && (var c := cl'[|cl'| - 1];
        && c !in Live(g, v, bm) && Live(g, w, bm) == Live(g, v, bm) + {c}
        && (forall j :: 0 <= j < g.sectorsPerCluster ==> w.heap[c][j] == Zeros(g.sectorSize))
        && Within(g, v, w, Members(cl'), Members(bm) + {c} + hs))
  }

  /** Allocate a cluster, zero it and append it to the directory's chain. */
  method GrowChain(v: Volume, h: Handle, ghost cl: seq<nat>) returns (ok: bool, count: nat, ghost cl': seq<nat>)
    requires v.Open() && Sound(v.g, v.V(), v.bm) && LiveDir(v.g, v.V(), v.bm, h, cl)
    requires Live(v.g, ViewOf(v.g, v.base), v.bm) <= Live(v.g, v.V(), v.bm)
    requires h.length > 0 ==> |cl| == ClustersFor(v.g, h.length)
    modifies v`journal, v`full, v.m
    ensures v.Open() && v.m.faults >= old(v.m.faults) && Sound(v.g, v.V(), v.bm)
    ensures old(Live(v.g, v.V(), v.bm)) <= Live(v.g, v.V(), v.bm)
    ensures ok ==> count == |cl'| && Grown(v.g, v.bm, old(v.V()), v.V(), cl, cl', {}) && Chained(v.g, v.V(), cl')
    ensures ok && (h.length > 0 || v.m.faults == old(v.m.faults)) ==> cl'[..|cl'| - 1] == cl
    ensures !ok ==> NoRoom(v.g, old(v.V()), v.bm, 1) || v.Hindered(old(v.m.faults))
  {
    hide Multiples, Places, Addresses, Capacities, ViewOf, Undoable, Allocated, BitmapIs, Overlaid, ClustersFor,
         Shaped, StreamIs, Within, LiveDir, Zeroed, Live, Grown, Chained, Clusters;
    LiveDirMeans(v.g, v.V(), v.bm, h, cl);
    cl', count := cl, 0;
    ghost var v0 := v.V();
    var clusters;
    ok, clusters := CollectClusters(v, h.first, h.contiguous, h.length, cl);
    if !ok {
      return;
    }
    var c;
    ok, c := TakeZeroed(v);
    if !ok {
      return;
    }
    ghost var v1 := v.V();
    DirClusters(v.g, v0, v.bm, h, cl, clusters, c);
    cl', count := clusters + [c], |clusters| + 1;
    ok := AppendCluster(v, clusters, c);
    if ok {
      assert cl'[..|cl'| - 1] == clusters;
      GrownNow(v.g, v.bm, v0, v1, v.V(), cl, clusters, c);
    }
  }

  lemma GrownNow(g: Geometry, bm: seq<nat>, u: View, v: View, w: View, cl: seq<nat>, clusters: seq<nat>, c: nat)
    requires Layout(g) && BitmapIs(g, u, bm) && BitmapIs(g, v, bm) && Sound(g, w, bm)
    requires clusters <= cl && 0 < |clusters| && Clusters(g, clusters + [c]) && c !in Live(g, u, bm)
    requires Zeroed(g, bm, u, v, c) && Live(g, w, bm) == Live(g, v, bm)
    requires Within(g, v, w, Members(clusters + [c]), {}) && Chained(g, w, clusters + [c])
    ensures Grown(g, bm, u, w, cl, clusters + [c], {})
  {
    hide Multiples, Places, Addresses, Allocated, BitmapIs, Shaped;
    var cl' := clusters + [c];
    assert cl'[..|cl'| - 1] == clusters && c in Members(cl');
    WithinTrans(g, u, v, w, {c}, Members(bm) + {c}, Members(cl'), {});
    assert {c} + Members(cl') == Members(cl');
    assert Members(bm) + {c} + {} == Members(bm) + {c};
  }

  /** From u to v the free cluster c has been allocated and zeroed. */
  ghost predicate Zeroed(g: Geometry, bm: seq<nat>, u: View, v: View, c: nat) {
    && Layout(g) && BitmapIs(g, u, bm) && BitmapIs(g, v, bm) && ValidCluster(g, c)
    && Live(g, v, bm) == Live(g, u, bm) + {c} && Within(g, u, v, {c}, Members(bm) + {c})
    && forall j :: 0 <= j < g.sectorsPerCluster ==> v.heap[c][j] == Zeros(g.sectorSize)
  }

  /** Allocate one cluster and zero it. */
  method TakeZeroed(v: Volume) returns (ok: bool, c: nat)
    requires v.Open() && Sound(v.g, v.V(), v.bm)
    requires Live(v.g, ViewOf(v.g, v.base), v.bm) <= Live(v.g, v.V(), v.bm)
    modifies v`journal, v`full, v.m
    ensures v.Open() && v.m.faults >= old(v.m.faults) && Sound(v.g, v.V(), v.bm)
    ensures old(Live(v.g, v.V(), v.bm)) <= Live(v.g, v.V(), v.bm)
    ensures ok ==> ValidCluster(v.g, c) && c !in old(Live(v.g, v.V(), v.bm))
    ensures ok ==> Zeroed(v.g, v.bm, old(v.V()), v.V(), c)
    ensures !ok ==> NoRoom(v.g, old(v.V()), v.bm, 1) || v.Hindered(old(v.m.faults))
  {
    hide Multiples, Places, Addresses, ViewOf, Undoable, Allocated, BitmapIs, Shaped;
    c := 0;
    ghost var v0 := v.V();
    var taken;
    ok, taken := AllocateClusters(v, 1);
    if !ok {
      return;
    }
    c := taken[0];
    assert taken == [c];
    ghost var v1 := v.V();
    ok := ZeroCluster(v, c);
    BitmapKept(v.g, v1, v.V(), {}, {c}, v.bm);
    WithinTrans(v.g, v0, v1, v.V(), {c}, Members(v.bm), {}, {c});
  }

  lemma DirClusters(g: Geometry, v: View, bm: seq<nat>, h: Handle, cl: seq<nat>, clusters: seq<nat>, c: nat)
    requires Layout(g) && LiveDir(g, v, bm, h, cl) && Sound(g, v, bm) && clusters <= cl && 0 < |clusters|
    requires ValidCluster(g, c) && c !in Live(g, v, bm)
    ensures Clusters(g, clusters + [c]) && Members(clusters + [c]) !! Members(bm)
    ensures Clusters(g, cl) && Members(clusters) <= Members(cl)
  {
    assert c !in cl by { assert c in cl ==> c in Members(cl); }
    PrefixClusters(g, cl, clusters, c);
  }

  lemma PrefixClusters(g: Geometry, cl: seq<nat>, clusters: seq<nat>, c: nat)
    requires Clusters(g, cl) && clusters <= cl && 0 < |clusters| && ValidCluster(g, c) && c !in cl
    ensures Clusters(g, clusters + [c])
  {
    OneMoreCluster(g, clusters, c);
  }

  /** A directory that can be searched and extended: it and its parent are live and apart. */
  ghost predicate Usable(g: Geometry, v: View, bm: seq<nat>, dir: FileNode, cl: seq<nat>, pcl: seq<nat>)
    requires Layout(g)
  {
    && Sound(g, v, bm) && LiveDir(g, v, bm, dir.stream, cl)
    && (dir.stream.length > 0 ==> |cl| == ClustersFor(g, dir.stream.length))
    && (dir.count != 0 ==> LiveDir(g, v, bm, dir.parent, pcl) && Members(cl) !! Members(pcl))
  }

  /** The same inside a transaction in which nothing has been freed so far. */
  ghost predicate Ready(v: Volume, dir: FileNode, cl: seq<nat>, pcl: seq<nat>)
    reads v, v.m
  {
    && v.Open() && Usable(v.g, v.V(), v.bm, dir, cl, pcl)
    && Live(v.g, ViewOf(v.g, v.base), v.bm) <= Live(v.g, v.V(), v.bm)
  }

  /** The clusters that growing or changing a directory may alter, besides newly allocated ones. */
  ghost function DirSpace(bm: seq<nat>, dir: FileNode, cl: seq<nat>, pcl: seq<nat>): set<nat> {
    Members(bm) + Members(cl) + if dir.count != 0 then Members(pcl) else {}
  }

  /** The directory's own entry set is not to be found in its parent, so its length cannot be recorded. */
  ghost predicate ParentLacks(g: Geometry, v: View, pcl: seq<nat>, dir: FileNode) {
    dir.count != 0 && !(Layout(g) && Shaped(g, v) && Clusters(g, pcl) && SetThere(g, v, pcl, dir))
  }

  lemma StillThere(g: Geometry, bm: seq<nat>, v: View, w: View, cl: seq<nat>, cl': seq<nat>, pcl: seq<nat>,
                   dir: FileNode)
    requires Grown(g, bm, v, w, cl, cl', {}) && Shaped(g, v) && Shaped(g, w) && Clusters(g, pcl)
    requires Members(bm) + {cl'[|cl'| - 1]} !! Members(pcl)
    ensures SetThere(g, v, pcl, dir) ==> SetThere(g, w, pcl, dir)
  {
    hide Multiples, Places, Addresses, Shaped, ByteAt, Within, Live, BitmapIs;
    assert Members(bm) + {cl'[|cl'| - 1]} + {} == Members(bm) + {cl'[|cl'| - 1]};
    SameDirKept(g, v, w, Members(cl'), Members(bm) + {cl'[|cl'| - 1]} + {}, pcl);
  }

  /** What is said about a directory does not take its set away. */
  lemma SaysThere(g: Geometry, v: View, w: View, pcl: seq<nat>, dir: FileNode, h: Handle)
    requires (dir.count != 0 ==> ParentSays(g, v, w, pcl, dir, h)) && !ParentLacks(g, v, pcl, dir)
    ensures !ParentLacks(g, w, pcl, dir.(stream := h))
  {
    hide Multiples, Places, Addresses, Shaped, ByteAt;
    if dir.count != 0 && !(h == dir.stream && SameDir(g, v, w, pcl)) {
      var es :| Recorded(g, v, w, pcl, dir, h, es);
      RecordedThere(g, v, w, pcl, dir, h, es);
    }
  }

  lemma RecordedThere(g: Geometry, v: View, w: View, pcl: seq<nat>, dir: FileNode, h: Handle, es: seq<Byte>)
    requires Recorded(g, v, w, pcl, dir, h, es) && SetThere(g, v, pcl, dir)
    ensures SetThere(g, w, pcl, dir)
  {
    hide Multiples, Places, Addresses, Capacities, Shaped, ByteAt, UpdateStream;
    UpdateKeepsType(es, dir.count, h.first, h.length, h.length, h.contiguous);
    RecordedBytes(g, v, w, pcl, dir, h, es);
  }

  lemma RecordedBytes(g: Geometry, v: View, w: View, pcl: seq<nat>, dir: FileNode, h: Handle, es: seq<Byte>)
    requires Recorded(g, v, w, pcl, dir, h, es)
    ensures Layout(g) && Shaped(g, v) && Shaped(g, w) && Clusters(g, pcl) && SetInside(g, pcl, dir)
    ensures |es| == 32 * dir.count && es[32] == ByteAt(g, v, pcl, dir.offset + 32)
    ensures ByteAt(g, w, pcl, dir.offset + 32) ==
            UpdateStream(es, dir.count, h.first, h.length, h.length, h.contiguous)[32]
  {
    hide Multiples, Places, Addresses, Shaped, ByteAt, UpdateStream;
  }

  lemma UpdateKeepsType(es: seq<Byte>, count: nat, first: nat, length: nat, validLength: nat, contiguous: bool)
    requires |es| == 32 * count && 3 <= count <= 19
    ensures UpdateStream(es, count, first, length, validLength, contiguous)[32] == es[32]
  {
    hide Checksum, Le16, Le32, Le64;
  }

  lemma GrownCount(g: Geometry, bm: seq<nat>, v: View, w: View, cl: seq<nat>, cl': seq<nat>, hs: set<nat>)
    requires Grown(g, bm, v, w, cl, cl', hs)
    ensures FreeCount(g, w, bm) >= FreeCount(g, v, bm) - 1
  {
    hide Multiples, Places, Addresses, Within, Live, BitmapIs, Shaped;
    var c := [cl'[|cl'| - 1]];
    assert Members(c) == {cl'[|cl'| - 1]};
    UnusedLess(g, Live(g, v, bm), Live(g, w, bm), c);
  }

  /** Add a zeroed cluster to a directory and record the new length in its own entry set.  It is put behind
      the last cluster; after a refused read of an unrecorded length, as the root's is, it may be put behind
      an earlier one.  The clusters before it keep their bytes. */
  method ExtendDirectory(v: Volume, dir: FileNode, ghost cl: seq<nat>, ghost pcl: seq<nat>)
    returns (ok: bool, dir': FileNode, ghost cl': seq<nat>)
    requires Ready(v, dir, cl, pcl)
    modifies v`journal, v`full, v.m
    ensures v.Open() && v.m.faults >= old(v.m.faults) && Sound(v.g, v.V(), v.bm)
    ensures old(Live(v.g, v.V(), v.bm)) <= Live(v.g, v.V(), v.bm)
    ensures ok ==> Ready(v, dir', cl', pcl)
                   && Grown(v.g, v.bm, old(v.V()), v.V(), cl, cl', if dir.count != 0 then Members(pcl) else {})
    ensures ok ==>
              dir' == dir.(stream := Handle(dir.stream.first, false, v.g.capacity[|cl'|])) && Ended(v.g, v.V(), cl')
    ensures ok && dir.count != 0 ==> exists es :: Recorded(v.g, old(v.V()), v.V(), pcl, dir, dir'.stream, es)
    ensures ok ==> Gained(v.g, old(v.V()), v.V(), cl[..|cl'| - 1], cl')
    ensures ok && (dir.stream.length > 0 || v.m.faults == old(v.m.faults)) ==> cl'[..|cl'| - 1] == cl
    ensures !ok ==> || NoRoom(v.g, old(v.V()), v.bm, 1) || ParentLacks(v.g, old(v.V()), pcl, dir)
                    || v.Hindered(old(v.m.faults))
  {
    hide Multiples, Places, Addresses, ViewOf, Undoable, Allocated, BitmapIs, Overlaid, ClustersFor, Shaped, StreamIs,
         LiveDir, Gained, Recorded, Ended, Grown, UpdateStream, BytesAt, Within;
    ghost var v0 := v.V();
    dir' := dir;
    var count;
    ok, count, cl' := GrowChain(v, dir.stream, cl);
    if !ok {
      return;
    }
    ghost var v1 := v.V();
    dir' := dir.(stream := Handle(dir.stream.first, false, v.g.capacity[count]));
    GrownDir(v.g, v.bm, v0, v1, dir.stream, cl, cl');
    if dir.count == 0 {
      GainedOne(v.g, v.bm, v0, v1, dir.stream, dir'.stream, cl, cl', {});
    } else {
      GrownApart(v.g, v.bm, v0, v1, dir, cl, cl', pcl);
      LiveDirMeans(v.g, v1, v.bm, dir'.stream, cl');
      LiveDirMeans(v.g, v1, v.bm, dir.parent, pcl);
      var length := dir'.stream.length;
      DirStands(v.g, v1, dir.parent, pcl);
      StillThere(v.g, v.bm, v0, v1, cl, cl', pcl, dir);
      ok := UpdateNodeStream(v, dir, dir.stream.first, length, length, false, pcl);
      ghost var v2 := v.V();
      BitmapKept(v.g, v1, v2, {}, Members(pcl), v.bm);
      if ok {
        LiveDirKept(v.g, v1, v2, {}, Members(pcl), v.bm, dir'.stream, cl');
        LiveDirKept(v.g, v1, v2, {}, Members(pcl), v.bm, dir.parent, pcl);
        GrownMore(v.g, v.bm, v0, v1, v2, cl, cl', Members(pcl));
        EndedKept(v.g, v1, v2, Members(pcl), cl');
        GainedOne(v.g, v.bm, v0, v2, dir.stream, dir'.stream, cl, cl', Members(pcl));
        NowRecorded(v.g, v.bm, v0, v1, v2, cl, cl', pcl, dir, dir'.stream);
      }
    }
  }

  lemma LiveDirMeans(g: Geometry, v: View, bm: seq<nat>, h: Handle, cl: seq<nat>)
    requires Layout(g) && LiveDir(g, v, bm, h, cl)
    ensures DirIs(g, v, h, cl) && BitmapIs(g, v, bm) && Members(cl) <= Live(g, v, bm) && Members(cl) !! Members(bm)
    ensures ValidCluster(g, h.first)
  {
  }

  /** The grown chain is the directory with its new length. */
  lemma GrownDir(g: Geometry, bm: seq<nat>, v: View, w: View, h: Handle, cl: seq<nat>, cl': seq<nat>)
    requires Layout(g) && LiveDir(g, v, bm, h, cl) && Sound(g, v, bm)
    requires Grown(g, bm, v, w, cl, cl', {}) && Chained(g, w, cl')
    ensures LiveDir(g, w, bm, Handle(h.first, false, g.capacity[|cl'|]), cl') && Ended(g, w, cl')
    ensures g.capacity[|cl'|] > 0 && |cl'| == ClustersFor(g, g.capacity[|cl'|])
  {
    hide Multiples, Places, Addresses, Live, BitmapIs, Within, ClustersFor;
    assert cl'[0] == cl[0] by { assert cl'[..|cl'| - 1][0] == cl'[0]; }
    GrownMembers(g, bm, v, w, h, cl, cl');
    ClustersForCapacity(g, |cl'|);
  }

  lemma GrownMembers(g: Geometry, bm: seq<nat>, v: View, w: View, h: Handle, cl: seq<nat>, cl': seq<nat>)
    requires Layout(g) && LiveDir(g, v, bm, h, cl) && Sound(g, v, bm) && Grown(g, bm, v, w, cl, cl', {})
    ensures Members(cl') <= Live(g, w, bm) && Members(cl') !! Members(bm)
  {
    hide Multiples, Places, Addresses, Allocated, BitmapIs, Within;
    forall c | c in cl'
      ensures c in Live(g, w, bm) && c !in bm
    {
      var i :| 0 <= i < |cl'| && cl'[i] == c;
      if i < |cl'| - 1 {
        assert cl'[..|cl'| - 1][i] == cl[i];
        assert c in Members(cl);
      }
    }
  }

  lemma GrownApart(g: Geometry, bm: seq<nat>, v: View, w: View, dir: FileNode, cl: seq<nat>, cl': seq<nat>,
                   pcl: seq<nat>)
    requires Layout(g) && LiveDir(g, v, bm, dir.parent, pcl) && Members(cl) !! Members(pcl)
    requires Grown(g, bm, v, w, cl, cl', {})
    ensures Members(cl') !! Members(pcl) && LiveDir(g, w, bm, dir.parent, pcl) && cl'[|cl'| - 1] !in Members(pcl)
  {
    hide Multiples, Places, Addresses, Allocated, Shaped, Ended, Within;
    forall i | 0 <= i < |cl'|
      ensures cl'[i] !in Members(pcl)
    {
      if i < |cl'| - 1 {
        assert cl'[..|cl'| - 1][i] == cl[i] && cl[i] in Members(cl);
      }
    }
    LiveDirKept(g, v, w, Members(cl'), Members(bm) + {cl'[|cl'| - 1]} + {}, bm, dir.parent, pcl);
  }

  lemma EndedKept(g: Geometry, v: View, w: View, h: set<nat>, cl: seq<nat>)
    requires Layout(g) && Shaped(g, v) && Shaped(g, w) && Within(g, v, w, {}, h) && Ended(g, v, cl)
    ensures Ended(g, w, cl)
  {
    hide Multiples, Places, Addresses;
  }

  lemma DirStands(g: Geometry, v: View, h: Handle, cl: seq<nat>)
    requires Layout(g) && Shaped(g, v) && DirIs(g, v, h, cl)
    ensures Clusters(g, cl) && |cl| < |g.capacity|
  {
  }

  /** After the extension the parent says the new length. */
  lemma NowRecorded(g: Geometry, bm: seq<nat>, u: View, v: View, w: View, cl: seq<nat>, cl': seq<nat>, pcl: seq<nat>,
                    dir: FileNode, h: Handle)
    requires Grown(g, bm, u, v, cl, cl', {}) && Shaped(g, u) && Shaped(g, v) && Shaped(g, w) && Clusters(g, pcl)
    requires Members(cl') !! Members(pcl) && Members(bm) !! Members(pcl)
    requires 3 <= dir.count <= 19 && dir.offset + 32 * dir.count <= g.capacity[|pcl|]
    requires SetReplaced(g, v, w, pcl, dir, UpdateStream(BytesAt(g, v, pcl, dir.offset, 32 * dir.count), dir.count,
                                                         h.first, h.length, h.length, h.contiguous))
    ensures exists es :: Recorded(g, u, w, pcl, dir, h, es)
  {
    hide Multiples, Places, Addresses, ByteAt, UpdateStream, Shaped, Within, Live, BitmapIs, Overlaid;
    assert cl'[|cl'| - 1] in Members(cl');
    SameDirKept(g, u, v, Members(cl'), Members(bm) + {cl'[|cl'| - 1]} + {}, pcl);
    SameDirSelf(g, v, w, pcl);
    var es := BytesAt(g, v, pcl, dir.offset, 32 * dir.count);
    assert Recorded(g, v, w, pcl, dir, h, es);
    RecordedAround(g, u, v, w, w, pcl, dir, h, es);
  }

  lemma GrownMore(g: Geometry, bm: seq<nat>, u: View, v: View, w: View, cl: seq<nat>, cl': seq<nat>, hs: set<nat>)
    requires Grown(g, bm, u, v, cl, cl', {}) && Within(g, v, w, {}, hs) && Sound(g, w, bm)
    requires Live(g, w, bm) == Live(g, v, bm) && cl'[|cl'| - 1] !in hs
    ensures Grown(g, bm, u, w, cl, cl', hs)
  {
    hide Multiples, Places, Addresses, Allocated, Shaped, BitmapIs, Clusters;
    var c := cl'[|cl'| - 1];
    WithinTrans(g, u, v, w, Members(cl'), Members(bm) + {c} + {}, {}, hs);
    assert Members(cl') + {} == Members(cl');
  }

  // ----- finding room for an entry set

  /** Slot i of the directory does not hold an entry in use. */
  predicate FreeSlot(g: Geometry, v: View, cl: seq<nat>, i: nat)
    requires Layout(g) && Shaped(g, v) && Clusters(g, cl) && 32 * i < g.capacity[|cl|]
  {
    ByteAt(g, v, cl, 32 * i) < 0x80
  }

  /** The slots from lo up to hi that lie in the directory are free. */
  ghost predicate FreeRun(g: Geometry, v: View, cl: seq<nat>, lo: nat, hi: nat)
    requires Layout(g) && Shaped(g, v) && Clusters(g, cl)
  {
    forall i {:trigger FreeSlot(g, v, cl, i)} :: lo <= i < hi && 32 * i < g.capacity[|cl|] ==> FreeSlot(g, v, cl, i)
  }

  /** The run is exactly the free slots just before slot i. */
  ghost predicate Trailing(g: Geometry, v: View, cl: seq<nat>, i: nat, start: nat, run: nat)
    requires Layout(g) && Shaped(g, v) && Clusters(g, cl) && 32 * i <= g.capacity[|cl|]
  {
    && run <= i && (run > 0 ==> start == i - run) && FreeRun(g, v, cl, i - run, i)
    && (run < i ==> !FreeSlot(g, v, cl, i - run - 1))
  }

  /** A free run begins at slot s: it is the first slot or behind an entry in use. */
  ghost predicate Begins(g: Geometry, v: View, cl: seq<nat>, s: nat)
    requires Layout(g) && Shaped(g, v) && Clusters(g, cl)
  {
    s > 0 ==> 32 * (s - 1) < g.capacity[|cl|] && !FreeSlot(g, v, cl, s - 1)
  }

  /** How the run counter relates to the directory after the first i slots have been looked at.
      Either the run ends at slot i, or it was carried over an extension: it began at the end of the
      directory as it was, everything from there on is free, and so are the slots seen since. */
  ghost predicate Counted(g: Geometry, v: View, cl: seq<nat>, i: nat, start: nat, run: nat)
    requires Layout(g) && Shaped(g, v) && Clusters(g, cl)
  {
    || (32 * i <= g.capacity[|cl|] && Trailing(g, v, cl, i, start, run))
    || (&& |cl| >= 2 && run > i && 32 * (start + (run - i)) == g.capacity[|cl| - 1]
        && FreeRun(g, v, cl, start, |g.place|) && Begins(g, v, cl, start))
  }

  lemma CountFree(g: Geometry, v: View, cl: seq<nat>, i: nat, start: nat, run: nat)
    requires Layout(g) && Shaped(g, v) && Clusters(g, cl) && 32 * i < g.capacity[|cl|]
             && Counted(g, v, cl, i, start, run)
    requires FreeSlot(g, v, cl, i)
    ensures Counted(g, v, cl, i + 1, if run == 0 then i else start, run + 1)
  {
    hide Multiples, Places, Addresses, FreeSlot, Shaped, Trailing, FreeRun, Begins;
    if 32 * i <= g.capacity[|cl|] && Trailing(g, v, cl, i, start, run) {
      TrailingFree(g, v, cl, i, start, run);
    }
  }

  lemma TrailingFree(g: Geometry, v: View, cl: seq<nat>, i: nat, start: nat, run: nat)
    requires Layout(g) && Shaped(g, v) && Clusters(g, cl) && 32 * i < g.capacity[|cl|]
             && Trailing(g, v, cl, i, start, run)
    requires FreeSlot(g, v, cl, i)
    ensures 32 * (i + 1) <= g.capacity[|cl|] && Trailing(g, v, cl, i + 1, if run == 0 then i else start, run + 1)
  {
    hide Multiples, Places, Addresses, FreeSlot, Shaped;
    CapacitySlots(g, |cl|);
  }

  lemma CountUsed(g: Geometry, v: View, cl: seq<nat>, i: nat, start: nat)
    requires Layout(g) && Shaped(g, v) && Clusters(g, cl) && 32 * i < g.capacity[|cl|] && !FreeSlot(g, v, cl, i)
    ensures Counted(g, v, cl, i + 1, start, 0)
  {
    hide Multiples, Places, Addresses, FreeSlot, Shaped;
    CapacitySlots(g, |cl|);
    assert 32 * (i + 1) <= g.capacity[|cl|];
  }

  /** The run lies inside the directory; that is said only of runs that one cluster surely has room for. */
  predicate Inside(g: Geometry, cl: seq<nat>, start: nat, run: nat)
    requires Layout(g) && Clusters(g, cl)
  {
    run <= 17 || 1024 <= g.clusterSize ==> 32 * (start + run) <= g.capacity[|cl|]
  }

  /** A counter that has reached needed has found its run. */
  lemma CountFound(g: Geometry, v: View, cl: seq<nat>, i: nat, start: nat, run: nat)
    requires Layout(g) && Shaped(g, v) && Clusters(g, cl) && Counted(g, v, cl, i, start, run) && 0 < run <= 19
    ensures FreeRun(g, v, cl, start, start + run) && Begins(g, v, cl, start) && Inside(g, cl, start, run)
  {
    hide Multiples, Places, Addresses, FreeSlot, Shaped;
  }

  /** A counter that reaches the end of a directory below needed stands for the free slots there. */
  lemma CountEnd(g: Geometry, v: View, cl: seq<nat>, i: nat, start: nat, run: nat)
    requires Layout(g) && Shaped(g, v) && Clusters(g, cl) && Counted(g, v, cl, i, start, run)
    requires 32 * i == g.capacity[|cl|] && run < 19
    ensures Trailing(g, v, cl, i, start, run)
  {
    hide Multiples, Places, Addresses, Capacities, FreeRun, Shaped, FreeSlot, Begins;
    if |cl| >= 2 {
      CapacityAtLeast(g, |cl|);
    }
  }

  /** Slots that were free up to the end of the directory are free up to its new end. */
  lemma GrownFree(g: Geometry, bm: seq<nat>, v: View, w: View, cl: seq<nat>, cl': seq<nat>, hs: set<nat>, lo: nat)
    requires Grown(g, bm, v, w, cl, cl', hs) && cl'[..|cl'| - 1] == cl && Clusters(g, cl) && Shaped(g, v)
             && Shaped(g, w)
    requires Members(cl) !! Members(bm) + hs && cl'[|cl'| - 1] !in hs
    requires FreeRun(g, v, cl, lo, |g.place|)
    ensures FreeRun(g, w, cl', lo, |g.place|)
  {
    hide Multiples, Places, Addresses, Shaped, ByteAt, Within, Live, BitmapIs;
    forall i | lo <= i < |g.place| && 32 * i < g.capacity[|cl'|]
      ensures FreeSlot(g, w, cl', i)
    {
      GrownByte(g, bm, v, w, cl, cl', hs, 32 * i);
      assert 32 * i < g.capacity[|cl|] ==> FreeSlot(g, v, cl, i);
    }
  }

  /** Slots of the directory as it was are as free as before. */
  lemma GrownSlot(g: Geometry, bm: seq<nat>, v: View, w: View, cl: seq<nat>, cl': seq<nat>, hs: set<nat>, i: nat)
    requires Grown(g, bm, v, w, cl, cl', hs) && cl'[..|cl'| - 1] == cl && Clusters(g, cl) && Shaped(g, v)
             && Shaped(g, w)
    requires Members(cl) !! Members(bm) + hs && cl'[|cl'| - 1] !in hs && 32 * i < g.capacity[|cl|]
    ensures 32 * i < g.capacity[|cl'|] && (FreeSlot(g, w, cl', i) <==> FreeSlot(g, v, cl, i))
  {
    hide Multiples, Places, Addresses, Shaped, ByteAt, Within, Live, BitmapIs;
    assert |cl| < |cl'|;
    GrownByte(g, bm, v, w, cl, cl', hs, 32 * i);
  }

  /** After an extension the free slots at the old end continue into the new cluster. */
  lemma CountCarried(g: Geometry, bm: seq<nat>, v: View, w: View, cl: seq<nat>, cl': seq<nat>, hs: set<nat>,
                     start: nat, run: nat)
    requires Grown(g, bm, v, w, cl, cl', hs) && cl'[..|cl'| - 1] == cl && Clusters(g, cl) && Shaped(g, v)
             && Shaped(g, w)
    requires Members(cl) !! Members(bm) + hs && cl'[|cl'| - 1] !in hs
    requires Trailing(g, v, cl, g.capacity[|cl|] / 32, start, run)
    ensures Counted(g, w, cl', 0, start, run)
  {
    hide Multiples, Places, Addresses, Shaped, FreeSlot, Within, Live, BitmapIs;
    CapacitySlots(g, |cl|);
    if run > 0 {
      GrownFree(g, bm, v, w, cl, cl', hs, start);
      if start > 0 {
        GrownSlot(g, bm, v, w, cl, cl', hs, start - 1);
      }
    }
  }

  /** A grown directory has its old bytes, then zeros. */
  lemma GrownByte(g: Geometry, bm: seq<nat>, v: View, w: View, cl: seq<nat>, cl': seq<nat>, hs: set<nat>, o: nat)
    requires Grown(g, bm, v, w, cl, cl', hs) && cl'[..|cl'| - 1] == cl && Clusters(g, cl) && Shaped(g, v)
             && Shaped(g, w)
    requires Members(cl) !! Members(bm) + hs && cl'[|cl'| - 1] !in hs && o < g.capacity[|cl'|]
    ensures ByteAt(g, w, cl', o) == if o < g.capacity[|cl|] then ByteAt(g, v, cl, o) else 0
  {
    hide Multiples, Addresses, Allocated, BitmapIs;
    var p := g.place[o];
    if o < g.capacity[|cl|] {
      assert cl'[p.q] == cl[p.q] && cl[p.q] in Members(cl);
      assert cl[p.q] != cl'[|cl'| - 1];
    } else {
      assert p.q == |cl|;
    }
  }

  lemma CapacitySlots(g: Geometry, n: nat)
    requires Layout(g) && n <= g.clusterCount
    ensures g.capacity[n] % 32 == 0
  {
    hide Multiples, Places, Addresses;
    SlotCount(g, n);
  }

  /** What one pass of the search makes of its counter, from slot i up to slot n: it counts free slots
      in a row, remembers where they began, and ends when there are enough of them. */
  function Pass(g: Geometry, v: View, cl: seq<nat>, i: nat, n: nat, needed: nat, start: nat, run: nat): (r: (nat, nat))
    requires Layout(g) && Shaped(g, v) && Clusters(g, cl) && i <= n && 32 * n <= g.capacity[|cl|]
    decreases n - i
  {
    if i == n || run == needed then (start, run)
    else if FreeSlot(g, v, cl, i) then Pass(g, v, cl, i + 1, n, needed, if run == 0 then i else start, run + 1)
    else Pass(g, v, cl, i + 1, n, needed, start, 0)
  }

  /** A pass over the whole directory has found needed free slots at s, or r of them at the end. */
  ghost predicate Searched(g: Geometry, v: View, cl: seq<nat>, needed: nat, s: nat, r: nat)
    requires Layout(g) && Shaped(g, v) && Clusters(g, cl)
  {
    if r == needed then FreeRun(g, v, cl, s, s + needed) && Begins(g, v, cl, s) && Inside(g, cl, s, needed)
    else Trailing(g, v, cl, g.capacity[|cl|] / 32, s, r)
  }

  lemma SearchedIs(g: Geometry, v: View, cl: seq<nat>, needed: nat, s: nat, r: nat)
    requires Layout(g) && Shaped(g, v) && Clusters(g, cl) && r <= needed
    ensures Searched(g, v, cl, needed, s, r) <==>
            if r == needed then FreeRun(g, v, cl, s, s + needed) && Begins(g, v, cl, s) && Inside(g, cl, s, needed)
            else 32 * (g.capacity[|cl|] / 32) <= g.capacity[|cl|] && Trailing(g, v, cl, g.capacity[|cl|] / 32, s, r)
  {
    hide Multiples, Places, Addresses, Shaped, FreeRun, Trailing, Begins;
  }

  lemma SearchedAll(g: Geometry, u: View, v: View, cl0: seq<nat>, cl: seq<nat>, needed: nat, start: nat, run: nat,
                    m: nat)
    requires Carrying(g, u, v, cl0, cl, start, run) && InDir(g, cl, m) && m == |cl| && run < needed <= 19
    ensures Gained(g, u, v, cl0, cl) && |cl| <= |cl0| + 2
    ensures var (s, r) := Pass(g, v, cl, 0, g.capacity[m] / 32, needed, start, run);
            r <= needed && Searched(g, v, cl, needed, s, r) && (r < needed ==> |cl| <= |cl0| + 1)
  {
    hide Multiples, Places, Addresses, Capacities, Shaped, Counted, Searched, Pass;
    PassFinds(g, v, cl, 0, needed, start, run);
    assert |cl| < |g.capacity| by { Stretch(g, cl); }
    var (s, r) := Pass(g, v, cl, 0, g.capacity[m] / 32, needed, start, run);
    if r < needed {
      SearchedEnd(g, u, v, cl0, cl, needed, s, r);
    }
  }

  lemma Stretch(g: Geometry, cl: seq<nat>)
    requires Layout(g) && Clusters(g, cl)
    ensures |cl| < |g.capacity|
  {
    hide Multiples, Places, Addresses;
  }

  lemma SearchedEnd(g: Geometry, u: View, v: View, cl0: seq<nat>, cl: seq<nat>, needed: nat, s: nat, r: nat)
    requires Gained(g, u, v, cl0, cl) && Searched(g, v, cl, needed, s, r) && r < needed <= 19
    ensures |cl| <= |cl0| + 1
  {
    hide Multiples, Places, Addresses, Shaped, ByteAt, FreeRun, Trailing;
    SearchedIs(g, v, cl, needed, s, r);
    GainedEnough(g, u, v, cl0, cl, s, r);
  }

  /** A pass over the whole directory finds a free run, or tells how many slots are free at its end. */
  lemma {:induction false} PassFinds(g: Geometry, v: View, cl: seq<nat>, i: nat, needed: nat, start: nat, run: nat)
    requires Layout(g) && Shaped(g, v) && Clusters(g, cl) && 32 * i <= g.capacity[|cl|]
    requires Counted(g, v, cl, i, start, run) && run <= needed <= 19 && 0 < needed
    ensures var n := g.capacity[|cl|] / 32;
            var (s, r) := (assert i <= n && 32 * n <= g.capacity[|cl|]; Pass(g, v, cl, i, n, needed, start, run));
            r <= needed && Searched(g, v, cl, needed, s, r)
    decreases g.capacity[|cl|] - 32 * i
  {
    hide Multiples, Places, Addresses, Shaped, Counted, FreeRun, Trailing, FreeSlot, Begins, Searched;
    CapacitySlots(g, |cl|);
    if run == needed {
      CountFound(g, v, cl, i, start, run);
      SearchedIs(g, v, cl, needed, start, run);
    } else if 32 * i == g.capacity[|cl|] {
      CountEnd(g, v, cl, i, start, run);
      SearchedIs(g, v, cl, needed, start, run);
    } else if FreeSlot(g, v, cl, i) {
      CountFree(g, v, cl, i, start, run);
      PassFinds(g, v, cl, i + 1, needed, if run == 0 then i else start, run + 1);
    } else {
      CountUsed(g, v, cl, i, start);
      PassFinds(g, v, cl, i + 1, needed, start, 0);
    }
  }

  /** One pass over the directory, or over its first m clusters after a refused read of an unrecorded
      length; stops when the run is long enough. */
  method CountRun(v: Volume, h: Handle, needed: nat, start0: nat, run0: nat, ghost cl: seq<nat>)
    returns (ok: bool, start: nat, run: nat, ghost m: nat)
    requires Layout(v.g) && Fits(v.g, v.m.image) && DirIs(v.g, v.V(), h, cl) && run0 < needed <= 19
    modifies v.m`faults
    ensures v.m.faults >= old(v.m.faults) && run <= needed
    ensures 0 < m <= |cl| && (h.length != 0 || v.m.faults == old(v.m.faults) ==> m == |cl|)
    ensures !ok ==> v.m.faults > old(v.m.faults)
    ensures ok ==>
              InDir(v.g, cl, m) && (start, run) == Pass(v.g, v.V(), cl, 0, v.g.capacity[m] / 32, needed, start0, run0)
  {
    hide Multiples, Places, Addresses, Capacities, ViewOf, Shaped, ByteAt;
    SlotCount(v.g, |cl|);
    start, run := start0, run0;
    var length;
    length, m := DirectoryLength(v, h, cl);
    InDirIs(v.g, cl, m);
    ghost var n := v.g.capacity[m] / 32;
    var slot := 0;
    while 32 * slot + 32 <= length
      invariant run < needed && slot <= n && v.m.faults >= old(v.m.faults)
      invariant h.length != 0 || v.m.faults == old(v.m.faults) ==> m == |cl|
      invariant Pass(v.g, v.V(), cl, 0, n, needed, start0, run0) == Pass(v.g, v.V(), cl, slot, n, needed, start, run)
    {
      var entry;
      ok, entry := ReadDirectoryBytes(v, h, 32 * slot, 32, cl);
      if !ok {
        return;
      }
      assert entry[0] == ByteAt(v.g, v.V(), cl, 32 * slot);
      if entry[0] < 0x80 {
        if run == 0 {
          start := slot;
        }
        run := run + 1;
        if run == needed {
          return;
        }
      } else {
        run := 0;
      }
      slot := slot + 1;
    }
    ok := true;
  }

  /** The slots of the first m clusters are slots of the directory. */
  ghost predicate InDir(g: Geometry, cl: seq<nat>, m: nat)
    requires Layout(g)
  {
    && m <= |cl| <= g.clusterCount && g.capacity[m] % 32 == 0 && g.capacity[m] <= g.capacity[|cl|] <= |g.place|
    && (0 < m ==> 512 <= g.capacity[m])
  }

  lemma InDirIs(g: Geometry, cl: seq<nat>, m: nat)
    requires Layout(g) && Clusters(g, cl) && m <= |cl|
    ensures InDir(g, cl, m)
  {
    hide Multiples, Places, Addresses;
    CapacitySlots(g, m);
  }

  /** The directory cl of w is the directory cl0 of v followed by zeros. */
  ghost predicate Gained(g: Geometry, v: View, w: View, cl0: seq<nat>, cl: seq<nat>) {
    && Layout(g) && Shaped(g, v) && Shaped(g, w) && Clusters(g, cl0) && Clusters(g, cl) && cl0 <= cl
    && g.capacity[|cl0|] <= g.capacity[|cl|]
    && forall o :: 0 <= o < g.capacity[|cl|] ==>
         ByteAt(g, w, cl, o) == if o < g.capacity[|cl0|] then ByteAt(g, v, cl0, o) else 0
  }

  lemma GainedNothing(g: Geometry, v: View, cl: seq<nat>)
    requires Layout(g) && Shaped(g, v) && Clusters(g, cl)
    ensures Counted(g, v, cl, 0, 0, 0) && Gained(g, v, v, cl, cl)
  {
    hide Multiples, Addresses, Places, FreeSlot, Shaped, ByteAt;
  }

  lemma ReadyMeans(v: Volume, dir: FileNode, cl: seq<nat>, pcl: seq<nat>)
    requires Ready(v, dir, cl, pcl)
    ensures DirIs(v.g, v.V(), dir.stream, cl) && Clusters(v.g, cl)
    ensures LiveDir(v.g, v.V(), v.bm, dir.stream, cl)
  {
  }

  /** The clusters of a grown directory stay apart from everything else that the growth changed. */
  lemma GrownDisjoint(g: Geometry, w: View, bm: seq<nat>, h: Handle, cl: seq<nat>, cl': seq<nat>, hs: set<nat>)
    requires Layout(g) && LiveDir(g, w, bm, h, cl') && Members(cl') !! hs && cl'[..|cl'| - 1] == cl
    ensures Members(cl) !! Members(bm) + hs && cl'[|cl'| - 1] !in hs && Clusters(g, cl')
  {
    assert forall c :: c in cl ==> c in Members(cl');
    assert cl'[|cl'| - 1] in Members(cl');
  }

  lemma GrownLive(g: Geometry, bm: seq<nat>, v: View, w: View, cl: seq<nat>, cl': seq<nat>, hs: set<nat>)
    requires Grown(g, bm, v, w, cl, cl', hs)
    ensures Layout(g) && BitmapIs(g, v, bm) && BitmapIs(g, w, bm)
    ensures Live(g, v, bm) <= Live(g, w, bm)
    ensures Counting.Range(2, g.clusterCount) - Live(g, w, bm) < Counting.Range(2, g.clusterCount) - Live(g, v, bm)
  {
    var c := cl'[|cl'| - 1];
    assert ValidCluster(g, c);
    assert c in Counting.Range(2, g.clusterCount) - Live(g, v, bm);
  }

  lemma GrownKept(g: Geometry, bm: seq<nat>, u: View, v: View, w: View, cl0: seq<nat>, cl: seq<nat>, cl': seq<nat>,
                  hs: set<nat>, space: set<nat>)
    requires Kept(g, bm, u, v, space) && Grown(g, bm, v, w, cl, cl', hs)
    requires Live(g, u, bm) <= Live(g, v, bm) && Members(cl) * Live(g, u, bm) <= Members(cl0)
    requires Members(bm) + Members(cl0) + hs <= space
    ensures Kept(g, bm, u, w, space) && Members(cl') * Live(g, u, bm) <= Members(cl0)
  {
    hide Multiples, Places, Addresses, Allocated, Within, Shaped;
    var c, live := cl'[|cl'| - 1], Live(g, u, bm);
    forall x | x in Members(cl') * live
      ensures x in Members(cl0)
    {
      var i :| 0 <= i < |cl'| && cl'[i] == x;
      if i < |cl'| - 1 {
        assert cl'[..|cl'| - 1][i] == cl[i] && x in Members(cl);
      }
    }
    assert (Members(cl') + (Members(bm) + {c} + hs)) * live <= space;
    KeptOn(g, bm, u, v, w, Members(cl'), Members(bm) + {c} + hs, space);
  }

  /** The clusters before the new one keep their bytes, whichever they are. */
  lemma GainedOne(g: Geometry, bm: seq<nat>, v: View, w: View, h: Handle, h': Handle, cl: seq<nat>, cl': seq<nat>,
                  hs: set<nat>)
    requires Grown(g, bm, v, w, cl, cl', hs) && LiveDir(g, v, bm, h, cl) && LiveDir(g, w, bm, h', cl')
             && Members(cl') !! hs
    ensures Gained(g, v, w, cl[..|cl'| - 1], cl')
  {
    hide Multiples, Places, Addresses, Within, Live;
    var part := cl'[..|cl'| - 1];
    assert part == cl[..|cl'| - 1];
    PartClusters(g, cl, |cl'| - 1);
    GrownPart(g, bm, v, w, cl, cl', hs);
    GrownDisjoint(g, w, bm, h', part, cl', hs);
    GainedNothing(g, v, part);
    GainedMore(g, bm, v, v, w, part, part, cl', hs);
  }

  lemma PartClusters(g: Geometry, cl: seq<nat>, m: nat)
    requires Clusters(g, cl) && 0 < m <= |cl|
    ensures Clusters(g, cl[..m])
  {
  }

  lemma GrownPart(g: Geometry, bm: seq<nat>, v: View, w: View, cl: seq<nat>, cl': seq<nat>, hs: set<nat>)
    requires Grown(g, bm, v, w, cl, cl', hs)
    ensures Grown(g, bm, v, w, cl'[..|cl'| - 1], cl', hs)
  {
    hide Multiples, Places, Addresses, Within, Live, BitmapIs, Clusters;
  }

  lemma GainedMore(g: Geometry, bm: seq<nat>, u: View, v: View, w: View, cl0: seq<nat>, cl: seq<nat>, cl': seq<nat>,
                   hs: set<nat>)
    requires Grown(g, bm, v, w, cl, cl', hs) && cl'[..|cl'| - 1] == cl && Clusters(g, cl) && Shaped(g, v)
             && Shaped(g, w)
    requires Members(cl) !! Members(bm) + hs && cl'[|cl'| - 1] !in hs && Gained(g, u, v, cl0, cl)
    ensures Gained(g, u, w, cl0, cl')
  {
    hide Multiples, Places, Addresses, Shaped, ByteAt, Within, Live, BitmapIs;
    assert cl' == cl + [cl'[|cl'| - 1]];
    assert g.capacity[|cl|] <= g.capacity[|cl'|];
    forall o | 0 <= o < g.capacity[|cl'|]
      ensures ByteAt(g, w, cl', o) == if o < g.capacity[|cl0|] then ByteAt(g, u, cl0, o) else 0
    {
      GrownByte(g, bm, v, w, cl, cl', hs, o);
    }
  }

  /** A search that fails has not yet gained two clusters: those would have been room enough. */
  lemma GainedEnough(g: Geometry, u: View, v: View, cl0: seq<nat>, cl: seq<nat>, start: nat, run: nat)
    requires Gained(g, u, v, cl0, cl) && run < 19 && Trailing(g, v, cl, g.capacity[|cl|] / 32, start, run)
    ensures |cl| <= |cl0| + 1
  {
    hide Multiples, Places, Addresses, Shaped, FreeSlot, Gained;
    if |cl| >= |cl0| + 2 {
      GainedEnd(g, u, v, cl0, cl, run);
    }
  }

  lemma GainedEnd(g: Geometry, u: View, v: View, cl0: seq<nat>, cl: seq<nat>, run: nat)
    requires Gained(g, u, v, cl0, cl) && run < 19 && |cl| >= |cl0| + 2
    ensures var i := g.capacity[|cl|] / 32 - run - 1; i >= 0 && 32 * i < g.capacity[|cl|] && FreeSlot(g, v, cl, i)
  {
    hide Multiples, Places, Addresses, Shaped, ByteAt;
    CapacitySlots(g, |cl|);
    TwoClusters(g, |cl0|, |cl|);
    assert ByteAt(g, v, cl, 32 * (g.capacity[|cl|] / 32 - run - 1)) == 0;
  }

  lemma TwoClusters(g: Geometry, m: nat, n: nat)
    requires Layout(g) && m + 2 <= n <= g.clusterCount
    ensures g.capacity[m] + 1024 <= g.capacity[n] <= |g.place|
  {
    assert g.capacity[m] + 512 <= g.capacity[m + 1];
    assert g.capacity[m + 1] + 512 <= g.capacity[n];
  }

  /** Find room for needed entries, extending the directory as often as necessary.  The counter of
      free entries is not reset when the search starts over after an extension.  In a directory whose
      length is recorded the entries found are free; with an unrecorded length, as the root has, that
      takes a search without refused requests.  The directory grows from its first clusters, as many as
      kept says: from all of them under the same condition. */
  method FindFreeEntries(v: Volume, dir0: FileNode, needed: nat, ghost cl0: seq<nat>, ghost pcl: seq<nat>)
    returns (ok: bool, slot: nat, dir: FileNode, ghost cl: seq<nat>, ghost kept: nat)
    requires Ready(v, dir0, cl0, pcl) && 0 < needed <= 19
    modifies v`journal, v`full, v.m
    ensures v.Open() && v.m.faults >= old(v.m.faults) && Sound(v.g, v.V(), v.bm)
    ensures old(Live(v.g, v.V(), v.bm)) <= Live(v.g, v.V(), v.bm)
    ensures ok ==> Ready(v, dir, cl, pcl) && dir == dir0.(stream := dir.stream)
    ensures ok && dir0.stream.length == 0 ==> LiveDir(v.g, v.V(), v.bm, dir0.stream, cl)
    ensures ok && dir0.count != 0 ==> ParentSays(v.g, old(v.V()), v.V(), pcl, dir0, dir.stream)
    ensures ok ==> Kept(v.g, v.bm, old(v.V()), v.V(), DirSpace(v.bm, dir0, cl0, pcl))
                   && Members(cl) * old(Live(v.g, v.V(), v.bm)) <= Members(cl0)
    ensures ok ==> 0 < kept <= |cl0| && Gained(v.g, old(v.V()), v.V(), cl0[..kept], cl)
    ensures ok ==> kept <= |cl| && Members(cl[kept..]) !! old(Live(v.g, v.V(), v.bm))
    ensures ok && (dir0.stream.length > 0 || v.m.faults == old(v.m.faults) || |cl| == kept) ==> kept == |cl0|
    ensures ok && (dir0.stream.length > 0 || v.m.faults == old(v.m.faults)) ==>
              && FreeRun(v.g, v.V(), cl, slot, slot + needed) && Begins(v.g, v.V(), cl, slot)
              && Inside(v.g, cl, slot, needed) && |cl| <= |cl0| + 2
    ensures !ok ==> || NoRoom(v.g, old(v.V()), v.bm, 2) || ParentLacks(v.g, old(v.V()), pcl, dir0)
                    || v.Hindered(old(v.m.faults))
  {
    hide Multiples, Places, Addresses, ViewOf, Shaped, StreamIs, FreeRun, BitmapIs, Undoable, Allocated, Grown,
         Capacities, Trailing, Clusters, Within, LiveDir, ClustersFor, Begins, Pass, InDir, ParentSays, Recorded,
         Ended, Searching, Carrying, Searched, Gained, Kept, Inside, ParentLacks, FreeCount;
    dir, cl, slot, kept := dir0, cl0, 0, |cl0|;
    var run: nat := 0;
    ghost var v0, m := v.V(), 0;
    SearchStarts(v, dir, cl, pcl);
    ghost var exact := true;
    while true
      invariant Ready(v, dir, cl, pcl) && Searching(v.g, v.bm, v0, v.V(), dir0, cl0, dir, cl, pcl, kept)
      invariant v.m.faults == old(v.m.faults) ==> kept == |cl0|
      invariant v.m.faults >= old(v.m.faults) && run < needed
      invariant exact <== dir0.stream.length > 0 || v.m.faults == old(v.m.faults)
      invariant exact ==> Carrying(v.g, v0, v.V(), cl0, cl, slot, run)
      invariant exact ==> FreeCount(v.g, v.V(), v.bm) + |cl| >= FreeCount(v.g, v0, v.bm) + |cl0|
      decreases Counting.Range(2, v.g.clusterCount) - Live(v.g, v.V(), v.bm)
    {
      ReadyMeans(v, dir, cl, pcl);
      SearchingMeans(v.g, v.bm, v0, v.V(), dir0, cl0, dir, cl, pcl, kept);
      ghost var slot0, run0 := slot, run;
      ok, slot, run, m := CountRun(v, dir.stream, needed, slot, run, cl);
      if !ok {
        return;
      }
      exact := dir0.stream.length > 0 || v.m.faults == old(v.m.faults);
      if exact {
        SearchedAll(v.g, v0, v.V(), cl0, cl, needed, slot0, run0, m);
      }
      if run == needed {
        if exact {
          SearchedIs(v.g, v.V(), cl, needed, slot, run);
        }
        return;
      }
      ghost var v1, cl1, dir1, hs := v.V(), cl, dir, if dir.count != 0 then Members(pcl) else {};
      if !ParentLacks(v.g, v0, pcl, dir0) {
        SaysThere(v.g, v0, v1, pcl, dir0, dir.stream);
      }
      ok, dir, cl := ExtendDirectory(v, dir, cl, pcl);
      if !ok {
        return;
      }
      ReadyMeans(v, dir, cl, pcl);
      GrownCount(v.g, v.bm, v1, v.V(), cl1, cl, hs);
      GrownLive(v.g, v.bm, v1, v.V(), cl1, cl, hs);
      SearchingOn(v.g, v.bm, v0, v1, v.V(), dir0, cl0, dir1, cl1, dir, cl, pcl, kept);
      if v.m.faults == old(v.m.faults) && dir1.stream.length == 0 {
        assert |cl1| == |cl| - 1;
      }
      kept := if dir1.stream.length > 0 then kept else |cl| - 1;
      exact := dir0.stream.length > 0 || v.m.faults == old(v.m.faults);
      if exact {
        CarryingOn(v.g, v.bm, v0, v1, v.V(), cl0, cl1, cl, pcl, dir, hs, needed, slot, run);
      }
    }
  }

  /** What a search has done to the volume so far: the directory may have grown from cl0 to cl. */
  ghost predicate Searching(g: Geometry, bm: seq<nat>, v: View, w: View, dir0: FileNode, cl0: seq<nat>, dir: FileNode,
                            cl: seq<nat>, pcl: seq<nat>, kept: nat) {
    && Kept(g, bm, v, w, DirSpace(bm, dir0, cl0, pcl)) && BitmapIs(g, w, bm)
    && Live(g, v, bm) <= Live(g, w, bm) && Members(cl) * Live(g, v, bm) <= Members(cl0)
    && dir == dir0.(stream := dir.stream) && dir.stream.first == dir0.stream.first
    && (if dir0.stream.length > 0 then dir.stream.length > 0
        else !dir0.stream.contiguous && LiveDir(g, w, bm, dir0.stream, cl))
    && (dir0.count != 0 ==> ParentSays(g, v, w, pcl, dir0, dir.stream))
    && 0 < kept <= |cl0| && Gained(g, v, w, cl0[..kept], cl) && kept <= |cl| && Members(cl[kept..]) !! Live(g, v, bm)
    && (if dir.stream.length == 0 then cl == cl0 && kept == |cl0|
        else |cl| == kept || dir0.stream.length > 0 ==> kept == |cl0|)
  }

  lemma SearchStarts(v: Volume, dir: FileNode, cl: seq<nat>, pcl: seq<nat>)
    requires Ready(v, dir, cl, pcl)
    ensures Searching(v.g, v.bm, v.V(), v.V(), dir, cl, dir, cl, pcl, |cl|) && Carrying(v.g, v.V(), v.V(), cl, cl, 0, 0)
  {
    hide Multiples, Addresses, Places, Undoable, Allocated, ClustersFor, Gained, Counted, ParentSays, Kept, StreamIs,
         ViewOf;
    ReadyMeans(v, dir, cl, pcl);
    KeptSelf(v.g, v.bm, v.V(), DirSpace(v.bm, dir, cl, pcl));
    if dir.count != 0 {
      SaysNothing(v.g, v.V(), v.bm, dir, pcl);
    }
    GainedNothing(v.g, v.V(), cl);
    assert cl[..|cl|] == cl;
  }

  lemma SearchingMeans(g: Geometry, bm: seq<nat>, v: View, w: View, dir0: FileNode, cl0: seq<nat>, dir: FileNode,
                       cl: seq<nat>, pcl: seq<nat>, kept: nat)
    requires Searching(g, bm, v, w, dir0, cl0, dir, cl, pcl, kept)
    ensures 0 < kept <= |cl0| && Gained(g, v, w, cl0[..kept], cl) && kept <= |cl|
            && Members(cl[kept..]) !! Live(g, v, bm)
    ensures |cl| == kept || dir0.stream.length > 0 ==> kept == |cl0|
    ensures dir.stream.length == 0 ==> cl == cl0
    ensures Kept(g, bm, v, w, DirSpace(bm, dir0, cl0, pcl)) && BitmapIs(g, w, bm) && BitmapIs(g, v, bm)
    ensures Live(g, v, bm) <= Live(g, w, bm) && Members(cl) * Live(g, v, bm) <= Members(cl0)
    ensures dir == dir0.(stream := dir.stream) && (dir0.stream.length > 0 ==> dir.stream.length > 0)
    ensures dir0.stream.length == 0 ==> LiveDir(g, w, bm, dir0.stream, cl)
    ensures dir0.count != 0 ==> ParentSays(g, v, w, pcl, dir0, dir.stream)
  {
    hide Multiples, Addresses, Places, BitmapIs, Live, LiveDir, ParentSays, StreamIs;
  }

  lemma SearchingOn(g: Geometry, bm: seq<nat>, u: View, v: View, w: View, dir0: FileNode, cl0: seq<nat>,
                    dir: FileNode, cl: seq<nat>, dir': FileNode, cl': seq<nat>, pcl: seq<nat>, kept: nat)
    requires Searching(g, bm, u, v, dir0, cl0, dir, cl, pcl, kept)
    requires Grown(g, bm, v, w, cl, cl', if dir.count != 0 then Members(pcl) else {})
             && Gained(g, v, w, cl[..|cl'| - 1], cl')
    requires Ended(g, w, cl') && LiveDir(g, w, bm, dir'.stream, cl')
             && (dir.stream.length > 0 ==> cl'[..|cl'| - 1] == cl)
    requires dir' == dir.(stream := Handle(dir.stream.first, false, g.capacity[|cl'|]))
    requires dir.count != 0 ==> exists es :: Recorded(g, v, w, pcl, dir, dir'.stream, es)
    ensures Searching(g, bm, u, w, dir0, cl0, dir', cl', pcl, if dir.stream.length > 0 then kept else |cl'| - 1)
  {
    hide Multiples, Addresses, Places, BitmapIs, Live, LiveDir, ParentSays, StreamIs, Recorded, Kept, Grown, Ended,
         Gained;
    var hs := if dir.count != 0 then Members(pcl) else {};
    GrownLive(g, bm, v, w, cl, cl', hs);
    SomeRoom(g, bm, v, w, cl, cl', hs);
    GrownKept(g, bm, u, v, w, cl0, cl, cl', hs, DirSpace(bm, dir0, cl0, pcl));
    Unrecorded(g, w, bm, dir0.stream, dir'.stream, cl');
    if dir.count != 0 {
      SaysAgain(g, u, v, w, pcl, dir0, dir, dir');
    }
    GrownSize(g, bm, v, w, cl, cl', hs);
    assert dir.stream.length > 0 ==> cl'[kept..] == cl[kept..] + [cl'[|cl'| - 1]];
    if dir.stream.length > 0 {
      assert cl[..|cl'| - 1] == cl;
      GainedTrans(g, u, v, w, cl0[..kept], cl, cl');
    } else {
      assert cl0[..kept] == cl0;
      GainedFirst(g, u, v, w, cl0, |cl'| - 1, cl');
    }
  }

  lemma GrownSize(g: Geometry, bm: seq<nat>, v: View, w: View, cl: seq<nat>, cl': seq<nat>, hs: set<nat>)
    requires Grown(g, bm, v, w, cl, cl', hs)
    ensures 2 <= |cl'| <= |cl| + 1 && cl'[..|cl'| - 1] == cl[..|cl'| - 1]
    ensures Layout(g) && BitmapIs(g, v, bm) && cl'[|cl'| - 1] !in Live(g, v, bm)
  {
  }

  lemma GainedTrans(g: Geometry, u: View, v: View, w: View, a: seq<nat>, b: seq<nat>, c: seq<nat>)
    requires Gained(g, u, v, a, b) && Gained(g, v, w, b, c)
    ensures Gained(g, u, w, a, c) && |a| <= |b|
  {
    hide Multiples, Addresses, Places, ByteAt, Shaped, Clusters;
  }

  lemma GainedFirst(g: Geometry, u: View, v: View, w: View, cl: seq<nat>, m: nat, cl': seq<nat>)
    requires Gained(g, u, v, cl, cl) && 0 < m <= |cl| && Gained(g, v, w, cl[..m], cl')
    ensures Gained(g, u, w, cl[..m], cl')
  {
    hide Multiples, Addresses, Places, ByteAt, Shaped, Clusters, Capacities;
    FirstSame(g, u, v, cl, m);
    GainedTrans(g, u, v, w, cl[..m], cl[..m], cl');
  }

  lemma FirstSame(g: Geometry, u: View, v: View, cl: seq<nat>, m: nat)
    requires Gained(g, u, v, cl, cl) && 0 < m <= |cl| && Clusters(g, cl[..m])
    ensures Gained(g, u, v, cl[..m], cl[..m])
  {
    hide Multiples, Addresses, Places, ByteAt, Shaped;
    assert g.capacity[m] <= g.capacity[|cl|];
    forall o | 0 <= o < g.capacity[m]
      ensures ByteAt(g, v, cl[..m], o) == ByteAt(g, u, cl[..m], o)
    {
      PartByte(g, u, cl, m, o);
      PartByte(g, v, cl, m, o);
      assert ByteAt(g, v, cl, o) == ByteAt(g, u, cl, o);
    }
  }

  /** How the search stands before a pass. */
  ghost predicate Carrying(g: Geometry, v: View, w: View, cl0: seq<nat>, cl: seq<nat>, slot: nat, run: nat) {
    Gained(g, v, w, cl0, cl) && Counted(g, w, cl, 0, slot, run) && |cl| <= |cl0| + 2
  }

  lemma CarryingOn(g: Geometry, bm: seq<nat>, u: View, v: View, w: View, cl0: seq<nat>, cl: seq<nat>, cl': seq<nat>,
                   pcl: seq<nat>, dir: FileNode, hs: set<nat>, needed: nat, slot: nat, run: nat)
    requires Gained(g, u, v, cl0, cl) && Searched(g, v, cl, needed, slot, run) && run < needed <= 19
    requires Grown(g, bm, v, w, cl, cl', hs) && cl'[..|cl'| - 1] == cl && LiveDir(g, w, bm, dir.stream, cl')
    requires Members(cl') !! hs
    ensures Carrying(g, u, w, cl0, cl', slot, run)
  {
    hide Multiples, Addresses, Places, Live, LiveDir, Counted, Trailing, ByteAt, Within;
    SearchedIs(g, v, cl, needed, slot, run);
    GainedEnough(g, u, v, cl0, cl, slot, run);
    GrownDisjoint(g, w, bm, dir.stream, cl, cl', hs);
    CountCarried(g, bm, v, w, cl, cl', hs, slot, run);
    GainedMore(g, bm, u, v, w, cl0, cl, cl', hs);
  }

  lemma SaysNothing(g: Geometry, v: View, bm: seq<nat>, dir: FileNode, pcl: seq<nat>)
    requires Layout(g) && LiveDir(g, v, bm, dir.parent, pcl)
    ensures ParentSays(g, v, v, pcl, dir, dir.stream)
  {
    SameDirSelf(g, v, v, pcl);
  }

  lemma SaysAgain(g: Geometry, u: View, v: View, w: View, pcl: seq<nat>, dir: FileNode, dir1: FileNode, dir2: FileNode)
    requires dir1 == dir.(stream := dir1.stream) && dir2 == dir.(stream := dir2.stream)
    requires ParentSays(g, u, v, pcl, dir, dir1.stream) && exists es :: Recorded(g, v, w, pcl, dir1, dir2.stream, es)
    ensures ParentSays(g, u, w, pcl, dir, dir2.stream)
  {
    hide ParentSays;
    var es :| Recorded(g, v, w, pcl, dir1, dir2.stream, es);
    assert Recorded(g, v, w, pcl, dir, dir2.stream, es);
    ParentSaysAgain(g, u, v, w, pcl, dir, dir1.stream, dir2.stream, es);
  }

  /** A directory whose length is not recorded is all of its chain. */
  lemma Unrecorded(g: Geometry, v: View, bm: seq<nat>, h: Handle, h': Handle, cl: seq<nat>)
    requires Layout(g) && LiveDir(g, v, bm, h', cl) && Ended(g, v, cl) && h'.first == h.first && !h'.contiguous
    ensures h.length == 0 && !h.contiguous ==> LiveDir(g, v, bm, h, cl)
  {
    hide Multiples, Places, Addresses;
  }

  // ----- a directory cut off

  /** The chain of a directory without a recorded length is determined by the FAT. */
  lemma ChainOnce(g: Geometry, v: View, h: Handle, a: seq<nat>, b: seq<nat>)
    requires Layout(g) && DirIs(g, v, h, a) && DirIs(g, v, h, b) && h.length == 0
    ensures a == b
  {
    hide Multiples, Places, Addresses, Capacities;
    if |a| <= |b| {
      ChainAgrees(g, v, h, a, b, |a| - 1);
      ChainGoesOn(g, v, h, b, |a| - 1);
    } else {
      ChainAgrees(g, v, h, b, a, |b| - 1);
      ChainGoesOn(g, v, h, a, |b| - 1);
    }
  }

  lemma {:induction false} ChainAgrees(g: Geometry, v: View, h: Handle, a: seq<nat>, b: seq<nat>, n: nat)
    requires Layout(g) && DirIs(g, v, h, a) && DirIs(g, v, h, b) && h.length == 0 && n < |a| && n < |b|
    ensures a[..n + 1] == b[..n + 1]
  {
    hide Multiples, Places, Addresses, Capacities, Ended;
    if n > 0 {
      ChainAgrees(g, v, h, a, b, n - 1);
      assert a[n - 1] == a[..n][n - 1] == b[..n][n - 1] == b[n - 1];
    }
  }

  /** It ends only behind its last cluster. */
  lemma ChainGoesOn(g: Geometry, v: View, h: Handle, cl: seq<nat>, i: nat)
    requires Layout(g) && DirIs(g, v, h, cl) && h.length == 0 && i < |cl|
    ensures i < |cl| - 1 ==> Link(g, v, cl[i]) == Some(cl[i + 1]) && cl[i + 1] < EOC
  {
    hide Multiples, Places, Addresses, Capacities;
  }

  /** A free cluster hung behind the first m clusters of a directory without a recorded length: the
      directory is now these and the new one.  So its old clusters are kept if and only if these are all. */
  lemma RootCutOff(g: Geometry, v: View, w: View, h: Handle, cl: seq<nat>, m: nat, c: nat)
    requires Layout(g) && DirIs(g, v, h, cl) && h.length == 0 && 0 < m <= |cl| && Shaped(g, w)
    requires ValidCluster(g, c) && c !in cl && HasFatEntry(g, c) && HasFatEntry(g, cl[m - 1])
    requires w.fat == v.fat[cl[m - 1] := c][c := CHAIN_END]
    requires forall d :: ValidCluster(g, d) && d != c ==> w.heap[d] == v.heap[d]
    requires forall j :: 0 <= j < g.sectorsPerCluster ==> w.heap[c][j] == Zeros(g.sectorSize)
    ensures DirIs(g, w, h, cl[..m] + [c]) && Gained(g, v, w, cl[..m], cl[..m] + [c])
    ensures forall cl' :: DirIs(g, w, h, cl') ==> cl' == cl[..m] + [c]
    ensures (exists cl' :: DirIs(g, w, h, cl') && cl <= cl') <==> m == |cl|
  {
    hide Multiples, Places, Addresses, Capacities, Gained, DirIs;
    var now := cl[..m] + [c];
    CutIsDir(g, v, w, h, cl, m, c);
    CutGained(g, v, w, h, cl, m, c);
    forall cl' | DirIs(g, w, h, cl')
      ensures cl' == now && (cl <= cl' <==> m == |cl|)
    {
      ChainOnce(g, w, h, cl', now);
      CutPrefix(cl, m, c);
    }
  }

  lemma CutPrefix(cl: seq<nat>, m: nat, c: nat)
    requires 0 < m <= |cl| && c !in cl
    ensures cl <= cl[..m] + [c] <==> m == |cl|
  {
    var now := cl[..m] + [c];
    if cl <= now {
      assert |cl| <= |now| && cl[|cl| - 1] == now[|cl| - 1];
    }
  }

  lemma CutIsDir(g: Geometry, v: View, w: View, h: Handle, cl: seq<nat>, m: nat, c: nat)
    requires Layout(g) && DirIs(g, v, h, cl) && h.length == 0 && 0 < m <= |cl| && Shaped(g, w)
    requires ValidCluster(g, c) && c !in cl && HasFatEntry(g, c) && HasFatEntry(g, cl[m - 1])
    requires w.fat == v.fat[cl[m - 1] := c][c := CHAIN_END]
    ensures DirIs(g, w, h, cl[..m] + [c])
  {
    hide Multiples, Places, Addresses, Capacities;
    OneMoreCluster(g, cl[..m], c);
  }

  lemma CutGained(g: Geometry, v: View, w: View, h: Handle, cl: seq<nat>, m: nat, c: nat)
    requires Layout(g) && DirIs(g, v, h, cl) && 0 < m <= |cl| && Shaped(g, w) && DirIs(g, w, h, cl[..m] + [c])
    requires ValidCluster(g, c) && c !in cl && forall d :: ValidCluster(g, d) && d != c ==> w.heap[d] == v.heap[d]
    requires forall j :: 0 <= j < g.sectorsPerCluster ==> w.heap[c][j] == Zeros(g.sectorSize)
    ensures Gained(g, v, w, cl[..m], cl[..m] + [c])
  {
    hide Multiples, Addresses, Ended;
    var now := cl[..m] + [c];
    PartClusters(g, cl, m);
    forall o | 0 <= o < g.capacity[m + 1]
      ensures ByteAt(g, w, now, o) == if o < g.capacity[m] then ByteAt(g, v, cl[..m], o) else 0
    {
      assert g.place[o].q < m + 1 && (g.place[o].q < m <==> o < g.capacity[m]);
    }
  }

  // ----- a search cut short

  /** Slots in use between i and n leave the counter at 0; free ones add to it. */
  lemma {:induction false} PassUsed(g: Geometry, v: View, cl: seq<nat>, i: nat, n: nat, needed: nat, start: nat)
    requires Layout(g) && Shaped(g, v) && Clusters(g, cl) && i <= n && 32 * n <= g.capacity[|cl|] && needed > 0
    requires forall k :: i <= k < n ==> !FreeSlot(g, v, cl, k)
    ensures Pass(g, v, cl, i, n, needed, start, 0) == (start, 0)
    decreases n - i
  {
    hide Multiples, Places, Addresses, Capacities, Shaped, FreeSlot;
    if i < n {
      PassUsed(g, v, cl, i + 1, n, needed, start);
    }
  }

  lemma {:induction false} PassFree(g: Geometry, v: View, cl: seq<nat>, i: nat, j: nat, n: nat, needed: nat,
                                    start: nat, run: nat)
    requires Layout(g) && Shaped(g, v) && Clusters(g, cl) && i <= j <= n && 32 * n <= g.capacity[|cl|]
    requires 0 < run && run + (j - i) <= needed && forall k :: i <= k < j ==> FreeSlot(g, v, cl, k)
    ensures Pass(g, v, cl, i, n, needed, start, run) == Pass(g, v, cl, j, n, needed, start, run + (j - i))
    decreases j - i
  {
    hide Multiples, Places, Addresses, Capacities, Shaped, FreeSlot;
    if i < j {
      PassFree(g, v, cl, i + 1, j, n, needed, start, run + 1);
    }
  }

  /** A pass may be cut at any slot. */
  lemma {:induction false} PassOn(g: Geometry, v: View, cl: seq<nat>, i: nat, j: nat, n: nat, needed: nat, start: nat,
                                  run: nat)
    requires Layout(g) && Shaped(g, v) && Clusters(g, cl) && i <= j <= n && 32 * n <= g.capacity[|cl|]
    ensures var (s, r) := Pass(g, v, cl, i, j, needed, start, run);
            Pass(g, v, cl, i, n, needed, start, run) == if r == needed then (s, r)
                else Pass(g, v, cl, j, n, needed, s, r)
    decreases j - i
  {
    hide Multiples, Places, Addresses, Capacities, Shaped, FreeSlot;
    if i < j && run != needed {
      PassOn(g, v, cl, i + 1, j, n, needed, if FreeSlot(g, v, cl, i) && run == 0 then i else start,
             if FreeSlot(g, v, cl, i) then run + 1 else 0);
    }
  }

  /** The first slot in use below n, if any. */
  lemma {:induction false} FirstUsed(g: Geometry, v: View, cl: seq<nat>, n: nat) returns (i: nat)
    requires Layout(g) && Shaped(g, v) && Clusters(g, cl) && 32 * n <= g.capacity[|cl|]
    ensures i <= n && (i < n ==> !FreeSlot(g, v, cl, i)) && forall k :: 0 <= k < i ==> FreeSlot(g, v, cl, k)
  {
    hide Multiples, Places, Addresses, Capacities, Shaped, FreeSlot;
    if n == 0 {
      i := 0;
    } else {
      i := FirstUsed(g, v, cl, n - 1);
      if i == n - 1 && FreeSlot(g, v, cl, n - 1) {
        i := n;
      }
    }
  }

  /** What a search that starts over with a counter of r slots, begun at s, finds in a directory: the run
      is free unless the counter was carried over free slots at the front and the slots behind s + r are
      not free.  The counter carried over an extension is of this kind when the pass before was cut short. */
  lemma CarriedSearch(g: Geometry, v: View, cl: seq<nat>, needed: nat, s: nat, r: nat)
    requires Layout(g) && Shaped(g, v) && Clusters(g, cl) && 2 <= |cl| && r < needed <= 19
             && FreeRun(g, v, cl, s, s + r)
    ensures InDir(g, cl, |cl|) && 32 * needed <= g.capacity[|cl|]
    ensures var (s', r') := Pass(g, v, cl, 0, g.capacity[|cl|] / 32, needed, s, r);
            r' == needed ==>
              (FreeRun(g, v, cl, s', s' + needed) <==>
               r == 0 || !FreeRun(g, v, cl, 0, needed - r) || FreeRun(g, v, cl, s + r, s + needed))
  {
    hide Multiples, Places, Addresses, Shaped, FreeSlot, Searched, Counted, Begins, Trailing;
    InDirIs(g, cl, |cl|);
    TwoClusters(g, 0, |cl|);
    var n := g.capacity[|cl|] / 32;
    if r == 0 {
      CountedNone(g, v, cl, 0, s);
      PassFinds(g, v, cl, 0, needed, s, 0);
      SearchedFree(g, v, cl, n, needed, s, 0, 0);
    } else {
      var i := FirstUsed(g, v, cl, needed - r);
      PassFree(g, v, cl, 0, i, n, needed, s, r);
      if i < needed - r {
        CountUsed(g, v, cl, i, s);
        PassFinds(g, v, cl, i + 1, needed, s, 0);
        SearchedFree(g, v, cl, n, needed, s, 0, i + 1);
      }
    }
  }

  lemma CountedNone(g: Geometry, v: View, cl: seq<nat>, i: nat, s: nat)
    requires Layout(g) && Shaped(g, v) && Clusters(g, cl) && i == 0
    ensures Counted(g, v, cl, i, s, 0)
  {
    hide Multiples, Places, Addresses, Shaped, FreeSlot;
  }

  lemma SearchedFree(g: Geometry, v: View, cl: seq<nat>, n: nat, needed: nat, start: nat, run: nat, i: nat)
    requires Layout(g) && Shaped(g, v) && Clusters(g, cl) && i <= n && 32 * n <= g.capacity[|cl|]
    requires var (s, r) := Pass(g, v, cl, i, n, needed, start, run); r <= needed && Searched(g, v, cl, needed, s, r)
    ensures var (s, r) := Pass(g, v, cl, i, n, needed, start, run); r == needed ==> FreeRun(g, v, cl, s, s + needed)
  {
    hide Multiples, Places, Addresses, Shaped, FreeRun, Trailing, Begins, Pass;
  }

  /** The root, whose length is not recorded, with two clusters of 16 slots of which 0, 1 and 15 are free
      and at least 2 to 14 and 16 are not.  If a refused read ends the first pass for three entries behind
      the first cluster, the pass after the extension answers slot 15, and slot 16 is in use. */
  lemma RootSearchFails(g: Geometry, bm: seq<nat>, v: View, w: View, cl: seq<nat>, cl': seq<nat>)
    requires Grown(g, bm, v, w, cl, cl', {}) && cl'[..|cl'| - 1] == cl && Clusters(g, cl) && Shaped(g, v)
             && Shaped(g, w)
    requires Members(cl) !! Members(bm) && |cl| == 2 && g.clusterSize == 512 && g.capacity[1] == 512
    requires FreeSlot(g, v, cl, 0) && FreeSlot(g, v, cl, 1) && FreeSlot(g, v, cl, 15) && !FreeSlot(g, v, cl, 16)
    requires forall i :: 2 <= i < 15 ==> !FreeSlot(g, v, cl, i)
    ensures InDir(g, cl, 1) && Pass(g, v, cl, 0, g.capacity[1] / 32, 3, 0, 0) == (15, 1)
    ensures InDir(g, cl', 3) && Pass(g, w, cl', 0, g.capacity[3] / 32, 3, 15, 1) == (15, 3)
    ensures !FreeSlot(g, w, cl', 16)
  {
    hide Multiples, Places, Addresses, Shaped, FreeSlot, Within, Live, BitmapIs;
    InDirIs(g, cl, 1);
    InDirIs(g, cl', 3);
    assert Members(bm) + {} == Members(bm);
    assert Pass(g, v, cl, 1, 2, 3, 0, 1) == (0, 2);
    assert Pass(g, v, cl, 15, 16, 3, 0, 0) == (15, 1);
    assert Pass(g, v, cl, 2, 16, 3, 0, 2) == Pass(g, v, cl, 3, 16, 3, 0, 0);
    PassUsed(g, v, cl, 3, 15, 3, 0);
    PassOn(g, v, cl, 3, 15, 16, 3, 0, 0);
    forall i | i in {0, 1, 16}
      ensures FreeSlot(g, w, cl', i) == FreeSlot(g, v, cl, i)
    {
      GrownSlot(g, bm, v, w, cl, cl', {}, i);
    }
    PassFree(g, w, cl', 0, 2, g.capacity[3] / 32, 3, 15, 1);
  }

  /** A run of the search in such a root.  cut says that a refused read ended the first pass behind the first
      cluster and that the extension found both. */
  method RootSearchRun(v: Volume, dir: FileNode, ghost cl: seq<nat>, ghost pcl: seq<nat>)
    returns (ok: bool, slot: nat, dir': FileNode, ghost cl': seq<nat>, ghost cut: bool)
    requires Ready(v, dir, cl, pcl) && dir.count == 0 && dir.stream.length == 0 && |cl| == 2
    requires v.g.clusterSize == 512 && v.g.capacity[1] == 512
    requires FreeSlot(v.g, v.V(), cl, 0) && FreeSlot(v.g, v.V(), cl, 1) && FreeSlot(v.g, v.V(), cl, 15)
             && !FreeSlot(v.g, v.V(), cl, 16)
    requires forall i :: 2 <= i < 15 ==> !FreeSlot(v.g, v.V(), cl, i)
    modifies v`journal, v`full, v.m
    ensures v.Open() && v.m.faults >= old(v.m.faults)
    ensures ok ==> Ready(v, dir', cl', pcl)
    ensures ok && cut ==> v.m.faults > old(v.m.faults) && slot == 15 && cl <= cl'
                          && 32 * 16 < v.g.capacity[|cl'|] && !FreeSlot(v.g, v.V(), cl', 16)
  {
    hide Multiples, Places, Addresses, ViewOf, Shaped, StreamIs, BitmapIs, Undoable, Allocated, Grown, Within, LiveDir,
         ClustersFor, Pass, InDir, Ended, Gained, FreeSlot, Recorded;
    dir', cl', cut := dir, cl, false;
    ghost var v0 := v.V();
    ReadyMeans(v, dir, cl, pcl);
    LiveDirMeans(v.g, v0, v.bm, dir.stream, cl);
    var run: nat;
    ghost var m;
    ok, slot, run, m := CountRun(v, dir.stream, 3, 0, 0, cl);
    if !ok || run == 3 {
      return false, slot, dir', cl', cut;
    }
    ghost var run1, slot1, v1 := run, slot, v.V();
    ok, dir', cl' := ExtendDirectory(v, dir, cl, pcl);
    if !ok {
      return;
    }
    ghost var v2 := v.V();
    GrownSize(v.g, v.bm, v1, v2, cl, cl', {});
    cut := m == 1 && cl'[..|cl'| - 1] == cl;
    ReadyMeans(v, dir', cl', pcl);
    SomeRoom(v.g, v.bm, v1, v2, cl, cl', {});
    ok, slot, run, m := CountRun(v, dir'.stream, 3, slot, run, cl');
    if ok && cut {
      ReadyShaped(v, dir', cl', pcl);
      RootSearchFails(v.g, v.bm, v1, v2, cl, cl');
    }
  }

  lemma ReadyShaped(v: Volume, dir: FileNode, cl: seq<nat>, pcl: seq<nat>)
    requires Ready(v, dir, cl, pcl)
    ensures Shaped(v.g, v.V()) && Clusters(v.g, cl) && Layout(v.g)
  {
  }

  lemma SomeRoom(g: Geometry, bm: seq<nat>, v: View, w: View, cl: seq<nat>, cl': seq<nat>, hs: set<nat>)
    requires Grown(g, bm, v, w, cl, cl', hs)
    ensures |cl'| <= g.clusterCount && g.capacity[|cl'|] > 0
  {
    hide Multiples, Places, Addresses;
  }
}
