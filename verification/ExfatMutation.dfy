/** Create, overwrite, delete and rename on an exFAT volume, each as one journaled transaction. */
module ExfatMutation {
  import Arithmetic
  import opened Bytes
  import opened Machines
  import opened VolumeLayout
  import opened ExfatLayout
  import opened ExfatVolume
  import opened ExfatClusters
  import opened ExfatEntries
  import opened ExfatDirectory

  /** How a mutation ended.  The driver reports success only for Committed(true); a failed check of
      the remounted volume makes it report failure although the change has been committed. */
  datatype Outcome = Refused | RolledBack(restored: bool) | Committed(verified: bool)

  /** What every mutation promises about the outcome: no transaction stays open, a refused call does
      nothing, a commit leaves both boot sectors clean, and a rollback whose writes succeed restores the volume. */
  ghost predicate Settled(v: Volume, before: Image, outcome: Outcome)
    reads v, v.m
  {
    && v.Closed()
    && (outcome.Refused? ==> v.m.image == before)
    && (outcome.Committed? ==> Clean(v.g, v.bm, v.m.image))
    && (outcome.RolledBack? && outcome.restored ==> Restored(v.g, v.bm, before, v.m.image))
  }

  /** From v to w the entry set es has been written into the directory cl. */
  ghost predicate Placed(g: Geometry, v: View, w: View, cl: seq<nat>, slot: nat, es: seq<Byte>) {
    && Layout(g) && Shaped(g, v) && Shaped(g, w) && Clusters(g, cl) && 32 * slot + |es| <= g.capacity[|cl|]
    && Overlaid(g, v, w, cl, 32 * slot, es)
  }

  /** From v to mid the directory cl of dir has become cl': its first clusters, as many as kept says, with
      their bytes, and behind them zeroed clusters that were free.  With a recorded length, or when there
      are no new clusters, these are all its clusters. */
  ghost predicate GrewFrom(g: Geometry, bm: seq<nat>, v: View, mid: View, dir: FileNode, cl: seq<nat>, cl': seq<nat>,
                           kept: nat) {
    && Layout(g) && BitmapIs(g, v, bm) && 0 < kept <= |cl| && kept <= |cl'|
    && Gained(g, v, mid, cl[..kept], cl') && Members(cl'[kept..]) !! Live(g, v, bm)
    && (dir.stream.length > 0 || |cl'| == kept ==> kept == |cl|)
  }

  /** What is left of a directory whose length is not recorded, as the root's: its chain is cl', with the
      slots of its first clusters and then empty ones.  All its old clusters are kept if and only if these
      first ones are all. */
  lemma RootAfter(g: Geometry, bm: seq<nat>, v: View, mid: View, w: View, dir: FileNode, cl: seq<nat>, pcl: seq<nat>,
                  dir': FileNode, cl': seq<nat>, slot: nat, es: seq<Byte>) returns (kept: nat)
    requires Published(g, bm, v, mid, w, dir, cl, pcl, dir', cl', slot, es) && dir.stream.length == 0
    requires LiveDir(g, v, bm, dir.stream, cl)
    ensures 0 < kept <= |cl| && Gained(g, v, mid, cl[..kept], cl') && DirIs(g, w, dir.stream, cl')
    ensures forall now :: DirIs(g, w, dir.stream, now) ==> now == cl'
    ensures (exists now :: DirIs(g, w, dir.stream, now) && cl <= now) <==> kept == |cl|
  {
    hide Multiples, Places, Addresses, Capacities, Live, BitmapIs, Kept, Placed, Usable, ParentSays, Gained, DirIs;
    kept :| GrewFrom(g, bm, v, mid, dir, cl, cl', kept);
    GainedKeeps(g, v, mid, cl[..kept], cl');
    forall now | DirIs(g, w, dir.stream, now)
      ensures now == cl'
    {
      ChainOnce(g, w, dir.stream, now, cl');
    }
    if kept < |cl| {
      FirstNew(cl', kept, Live(g, v, bm));
      LiveDirMeans(g, v, bm, dir.stream, cl);
      assert cl[kept] in Members(cl);
    }
    if kept == |cl| {
      assert cl[..kept] == cl;
    }
  }

  lemma FirstNew(cl: seq<nat>, kept: nat, live: set<nat>)
    requires kept < |cl| && Members(cl[kept..]) !! live
    ensures cl[kept] !in live
  {
    assert cl[kept..][0] == cl[kept];
    assert cl[kept] in Members(cl[kept..]);
  }

  lemma GainedKeeps(g: Geometry, v: View, w: View, a: seq<nat>, b: seq<nat>)
    requires Gained(g, v, w, a, b)
    ensures a <= b
  {
  }

  /** From v over mid to w the set es has been put at a slot of the directory dir.  The directory is now
      dir', with the clusters cl', and its parent says so; everything that was live still is, and apart
      from the directory, its parent and the bitmap it is unchanged. */
  ghost predicate Published(g: Geometry, bm: seq<nat>, v: View, mid: View, w: View, dir: FileNode, cl: seq<nat>,
                            pcl: seq<nat>, dir': FileNode, cl': seq<nat>, slot: nat, es: seq<Byte>)
  {
    && Layout(g) && Usable(g, w, bm, dir', cl', pcl) && dir' == dir.(stream := dir'.stream)
    && Placed(g, mid, w, cl', slot, es) && Kept(g, bm, v, w, DirSpace(bm, dir, cl, pcl))
       && Live(g, v, bm) <= Live(g, w, bm)
    && Members(cl') * Live(g, v, bm) <= Members(cl) && (exists kept :: GrewFrom(g, bm, v, mid, dir, cl, cl', kept))
    && (dir.stream.length == 0 ==> LiveDir(g, w, bm, dir.stream, cl'))
    && (dir.count != 0 ==> ParentSays(g, v, w, pcl, dir, dir'.stream))
  }

  /** In mid the directory cl of v has become cl', by zeroed clusters at its end, and the set es has room
      in a run of unused slots that begins at slot. */
  ghost predicate RoomFor(g: Geometry, v: View, mid: View, cl: seq<nat>, cl': seq<nat>, slot: nat, es: seq<Byte>) {
    && Gained(g, v, mid, cl, cl') && |cl'| <= |cl| + 2
    && FreeRun(g, mid, cl', slot, slot + |es| / 32) && Begins(g, mid, cl', slot)
  }

  /** Why there may be no room for a new file with count clusters and a name of this length, besides refused
      requests and a full journal: too few free clusters (a directory may grow by two), a directory that its
      parent does not show, or clusters of 512 bytes and an entry set larger than such a cluster, for which
      the search may answer a run that leaves the directory. */
  ghost predicate NoPlace(g: Geometry, v: View, bm: seq<nat>, dir: FileNode, pcl: seq<nat>, count: nat, length: nat)
    requires Layout(g) && BitmapIs(g, v, bm)
  {
    || NoRoom(g, v, bm, count + 2) || ParentLacks(g, v, pcl, dir)
    || (g.clusterSize < 1024 && length > 225)
  }

  /** Write the entry set of a new file into its directory, as it was in mid. */
  method PublishEntry(v: Volume, dir: FileNode, table: seq<nat>, r: Record, ghost cl: seq<nat>, ghost pcl: seq<nat>)
    returns (ok: bool, dir': FileNode, ghost cl': seq<nat>, ghost slot: nat, ghost es: seq<Byte>, ghost mid: View)
    requires Ready(v, dir, cl, pcl)
    requires ValidTable(table) && ValidName(r.name) && ValidRecord(r.(name := [0]))
    modifies v`journal, v`full, v.m
    ensures v.Open() && v.m.faults >= old(v.m.faults) && Sound(v.g, v.V(), v.bm)
    ensures old(Live(v.g, v.V(), v.bm)) <= Live(v.g, v.V(), v.bm)
    ensures ok ==> Encodes(es, r) && Complete(table, es, r)
    ensures ok ==> Published(v.g, v.bm, old(v.V()), mid, v.V(), dir, cl, pcl, dir', cl', slot, es)
    ensures ok && (dir.stream.length > 0 || v.m.faults == old(v.m.faults)) ==>
              RoomFor(v.g, old(v.V()), mid, cl, cl', slot, es)
    ensures !ok ==> || !(1 <= |r.name| <= 255) || NoPlace(v.g, old(v.V()), v.bm, dir, pcl, 0, |r.name|)
                    || v.Hindered(old(v.m.faults))
  {
    hide Multiples, Places, Addresses, Capacities, ViewOf, Undoable, Allocated, BitmapIs, Overlaid, Shaped, StreamIs,
         Encodes, LiveDir, FreeRun, Within, Kept, U16, NameHash, Gained, Begins, ParentSays, Published,
         ParentLacks, FreeCount, Inside, GrewFrom, EntryCount, Complete;
    dir', cl', slot, es, mid := dir, cl, 0, [], v.V();
    ghost var v0 := v.V();
    var built, set';
    built, set' := BuildEntrySet(table, r);
    if !built {
      return false, dir', cl', slot, es, mid;
    }
    es := set';
    EncodedShape(es, r);
    var at;
    ghost var kept;
    ok, at, dir', cl', kept := FindFreeEntries(v, dir, |set'| / 32, cl, pcl);
    slot := at;
    if !ok {
      return;
    }
    mid := v.V();
    ReadyMeans(v, dir', cl', pcl);
    LiveDirMeans(v.g, mid, v.bm, dir'.stream, cl');
    ghost var exact := v.m.faults == old(v.m.faults);
    ok := WriteDirectoryBytes(v, dir'.stream, 32 * at, set', cl');
    BitmapKept(v.g, mid, v.V(), {}, Members(cl'), v.bm);
    if !ok && exact {
      SticksOut(v.g, cl', at, es, r);
    }
    if ok {
      GrewNow(v.g, v.bm, v0, mid, dir, cl, cl', kept);
      NowPublished(v.g, v.bm, v0, mid, v.V(), dir, cl, pcl, dir', cl', slot, es);
    }
  }

  lemma SticksOut(g: Geometry, cl: seq<nat>, slot: nat, es: seq<Byte>, r: Record)
    requires Layout(g) && Clusters(g, cl) && Encodes(es, r) && Inside(g, cl, slot, |es| / 32)
    ensures |cl| < |g.capacity| && (32 * slot + |es| > g.capacity[|cl|] ==> g.clusterSize < 1024 && |r.name| > 225)
  {
    hide Multiples, Places, Addresses, Encodes;
    EncodedSize(es, r);
  }

  lemma GrewNow(g: Geometry, bm: seq<nat>, v: View, mid: View, dir: FileNode, cl: seq<nat>, cl': seq<nat>, kept: nat)
    requires Layout(g) && BitmapIs(g, v, bm) && 0 < kept <= |cl| && kept <= |cl'|
    requires Gained(g, v, mid, cl[..kept], cl') && Members(cl'[kept..]) !! Live(g, v, bm)
    requires dir.stream.length > 0 || |cl'| == kept ==> kept == |cl|
    ensures GrewFrom(g, bm, v, mid, dir, cl, cl', kept) && (kept == |cl| ==> cl[..kept] == cl)
  {
    hide Multiples, Places, Addresses, Live, BitmapIs, Gained;
  }

  /** The state in which the search left the volume, and then the write of the set. */
  lemma NowPublished(g: Geometry, bm: seq<nat>, u: View, v: View, w: View, dir: FileNode, cl: seq<nat>, pcl: seq<nat>,
                     dir': FileNode, cl': seq<nat>, slot: nat, es: seq<Byte>)
    requires Layout(g) && Usable(g, v, bm, dir', cl', pcl) && dir' == dir.(stream := dir'.stream) && Shaped(g, w)
    requires Kept(g, bm, u, v, DirSpace(bm, dir, cl, pcl)) && Live(g, u, bm) <= Live(g, v, bm)
    requires Members(cl') * Live(g, u, bm) <= Members(cl) && exists kept :: GrewFrom(g, bm, u, v, dir, cl, cl', kept)
    requires dir.stream.length == 0 ==> LiveDir(g, v, bm, dir.stream, cl')
    requires dir.count != 0 ==> ParentSays(g, u, v, pcl, dir, dir'.stream)
    requires Within(g, v, w, {}, Members(cl')) && Placed(g, v, w, cl', slot, es)
    ensures Published(g, bm, u, v, w, dir, cl, pcl, dir', cl', slot, es)
  {
    hide Multiples, Places, Addresses, Shaped, StreamIs, BitmapIs, Live, LiveDir, ParentSays, Kept, Placed,
         ClustersFor, Within, GrewFrom;
    LiveDirMeans(g, v, bm, dir'.stream, cl');
    BitmapKept(g, v, w, {}, Members(cl'), bm);
    KeptOn(g, bm, u, v, w, {}, Members(cl'), DirSpace(bm, dir, cl, pcl));
    LiveDirKept(g, v, w, {}, Members(cl'), bm, dir'.stream, cl');
    if dir.stream.length == 0 {
      LiveDirKept(g, v, w, {}, Members(cl'), bm, dir.stream, cl');
    }
    if dir.count != 0 {
      LiveDirMeans(g, v, bm, dir.parent, pcl);
      LiveDirKept(g, v, w, {}, Members(cl'), bm, dir.parent, pcl);
      SaysAfter(g, u, v, w, bm, dir, dir'.stream, pcl, Members(cl'));
    }
  }

  lemma SaysAfter(g: Geometry, u: View, v: View, w: View, bm: seq<nat>, dir: FileNode, h: Handle, pcl: seq<nat>,
                  hs: set<nat>)
    requires ParentSays(g, u, v, pcl, dir, h) && Layout(g) && LiveDir(g, v, bm, dir.parent, pcl)
    requires Within(g, v, w, {}, hs) && hs !! Members(pcl) && Shaped(g, w)
    ensures ParentSays(g, u, w, pcl, dir, h)
  {
    hide Multiples, Places, Addresses, BitmapIs, Live, ByteAt, Within, UpdateStream;
    SameDirKept(g, v, w, {}, hs, pcl);
    SaysShaped(g, u, v, pcl, dir, h);
    SameDirSelf(g, u, u, pcl);
    ParentSaysAround(g, u, u, v, w, pcl, dir, h);
  }

  lemma SaysShaped(g: Geometry, u: View, v: View, pcl: seq<nat>, dir: FileNode, h: Handle)
    requires ParentSays(g, u, v, pcl, dir, h)
    ensures Layout(g) && Shaped(g, u) && Shaped(g, v) && Clusters(g, pcl)
  {
    hide Multiples, Places, Addresses, ByteAt, Shaped, UpdateStream;
  }

  lemma EncodedShape(es: seq<Byte>, r: Record)
    requires Encodes(es, r)
    ensures |es| % 32 == 0 && 3 <= |es| / 32 <= 19
  {
    hide Encodes, EntryCount;
    EncodedSize(es, r);
  }

  /** The clusters of a new file hold its data, were free, and carry a complete chain. */
  ghost predicate Stored(g: Geometry, bm: seq<nat>, v: View, w: View, clusters: seq<nat>, data: seq<Byte>) {
    && Layout(g) && BitmapIs(g, v, bm) && Sound(g, w, bm)
    && (|clusters| > 0 ==> Chained(g, w, clusters) && Holds(g, w, clusters, data))
    && Members(clusters) !! Live(g, v, bm) && Members(clusters) <= Live(g, w, bm)
  }

  /** Allocate count clusters and fill them with data and zeros. */
  method StoreData(v: Volume, count: nat, data: seq<Byte>) returns (ok: bool, clusters: seq<nat>)
    requires v.Open() && Sound(v.g, v.V(), v.bm) && Live(v.g, ViewOf(v.g, v.base), v.bm) <= Live(v.g, v.V(), v.bm)
    requires count <= v.g.clusterCount ==> |data| <= v.g.capacity[count]
    modifies v`journal, v`full, v.m
    ensures v.Open() && v.m.faults >= old(v.m.faults) && Sound(v.g, v.V(), v.bm)
    ensures old(Live(v.g, v.V(), v.bm)) <= Live(v.g, v.V(), v.bm) <= old(Live(v.g, v.V(), v.bm)) + Members(clusters)
    ensures ok ==> |clusters| == count && Stored(v.g, v.bm, old(v.V()), v.V(), clusters, data)
    ensures ok ==> Within(v.g, old(v.V()), v.V(), Members(clusters), Members(v.bm) + Members(clusters))
    ensures !ok ==> NoRoom(v.g, old(v.V()), v.bm, count) || v.Hindered(old(v.m.faults))
  {
    hide Multiples, Places, Addresses, ViewOf, Undoable, Allocated, BitmapIs, Shaped, Holds, Linked;
    ghost var v0 := v.V();
    WithinSelf(v.g, v0, Members(v.bm));
    if count == 0 {
      return true, [];
    }
    ok, clusters := AllocateClusters(v, count);
    if !ok {
      return;
    }
    ghost var v1 := v.V();
    ok := WriteNewClusters(v, clusters, data);
    ghost var v2 := v.V();
    StoredNow(v.g, v.bm, v0, v1, v2, clusters);
  }

  lemma StoredNow(g: Geometry, bm: seq<nat>, u: View, v: View, w: View, clusters: seq<nat>)
    requires Layout(g) && Sound(g, u, bm) && Sound(g, v, bm) && Shaped(g, w)
    requires Members(clusters) !! Live(g, u, bm) && Chained(g, v, clusters)
    requires Within(g, u, v, Members(clusters), Members(bm)) && Within(g, v, w, {}, Members(clusters))
    ensures Sound(g, w, bm) && Live(g, w, bm) == Live(g, v, bm) && Chained(g, w, clusters)
    ensures Within(g, u, w, Members(clusters), Members(bm) + Members(clusters))
  {
    hide Multiples, Places, Addresses, Allocated, Within;
    BitmapKept(g, v, w, {}, Members(clusters), bm);
    WithinTrans(g, u, v, w, Members(clusters), Members(bm), {}, Members(clusters));
    assert Members(clusters) + {} == Members(clusters);
    assert w.fat == v.fat by { SameFat(g, v, w, Members(clusters)); }
  }

  lemma SameFat(g: Geometry, v: View, w: View, h: set<nat>)
    requires Within(g, v, w, {}, h)
    ensures w.fat == v.fat
  {
  }

  /** A directory stays usable while free clusters are allocated and filled. */
  lemma UsableAfterStore(g: Geometry, v: View, w: View, bm: seq<nat>, dir: FileNode, cl: seq<nat>, pcl: seq<nat>,
                         new': set<nat>)
    requires Layout(g) && Usable(g, v, bm, dir, cl, pcl) && Sound(g, w, bm) && Live(g, v, bm) <= Live(g, w, bm)
    requires Within(g, v, w, new', Members(bm) + new') && new' !! Live(g, v, bm)
    ensures Usable(g, w, bm, dir, cl, pcl)
  {
    hide Multiples, Places, Addresses, Allocated, Within, ClustersFor, Ended;
    LiveDirKept(g, v, w, new', Members(bm) + new', bm, dir.stream, cl);
    if dir.count != 0 {
      LiveDirKept(g, v, w, new', Members(bm) + new', bm, dir.parent, pcl);
    }
  }

  /** Stored data survives changes that spare its clusters. */
  lemma StoredKept(g: Geometry, bm: seq<nat>, u: View, v: View, w: View, clusters: seq<nat>, data: seq<Byte>,
                   x: set<nat>)
    requires Stored(g, bm, u, v, clusters, data) && Kept(g, bm, v, w, x) && x !! Members(clusters)
    requires Sound(g, w, bm) && Members(clusters) <= Live(g, w, bm)
    ensures Stored(g, bm, u, w, clusters, data)
  {
    hide Multiples, Addresses, Allocated, BitmapIs;
    forall i | 0 <= i < |clusters|
      ensures w.fat[clusters[i]] == v.fat[clusters[i]] && w.heap[clusters[i]] == v.heap[clusters[i]]
    {
      assert clusters[i] in Members(clusters);
    }
    if |clusters| > 0 {
      forall o | 0 <= o < g.capacity[|clusters|]
        ensures ByteAt(g, w, clusters, o) == ByteAt(g, v, clusters, o)
      {
        assert g.place[o].q < |clusters|;
      }
    }
  }

  /** Storing data in free clusters before an entry is published does not disturb any of it. */
  lemma PublishedAfterStore(g: Geometry, bm: seq<nat>, u: View, v: View, mid: View, w: View, new': set<nat>,
                            dir: FileNode, cl: seq<nat>, pcl: seq<nat>, dir': FileNode, cl': seq<nat>, slot: nat,
                            es: seq<Byte>)
    requires Published(g, bm, v, mid, w, dir, cl, pcl, dir', cl', slot, es) && Usable(g, u, bm, dir, cl, pcl)
    requires Within(g, u, v, new', Members(bm) + new') && new' !! Live(g, u, bm)
    requires BitmapIs(g, v, bm) && Live(g, u, bm) <= Live(g, v, bm)
    ensures Published(g, bm, u, mid, w, dir, cl, pcl, dir', cl', slot, es)
    ensures SameDir(g, u, v, cl)
  {
    hide Multiples, Places, Addresses, Shaped, BitmapIs, Live, LiveDir, ParentSays, Kept, Placed, ClustersFor, Within,
         StreamIs;
    var space := DirSpace(bm, dir, cl, pcl);
    KeptSelf(g, bm, u, space);
    ShapedViews(g, u, v, bm);
    KeptOn(g, bm, u, u, v, new', Members(bm) + new', space);
    KeptTwice(g, bm, u, v, w, space);
    LiveDirMeans(g, u, bm, dir.stream, cl);
    DirStands(g, u, dir.stream, cl);
    SameDirKept(g, u, v, new', Members(bm) + new', cl);
    GrewAfterStore(g, bm, u, v, mid, dir, cl, cl');
    if dir.count != 0 {
      LiveDirMeans(g, u, bm, dir.parent, pcl);
      DirStands(g, u, dir.parent, pcl);
      SameDirKept(g, u, v, new', Members(bm) + new', pcl);
      SaysShaped(g, v, w, pcl, dir, dir'.stream);
      SameDirSelf(g, w, w, pcl);
      ParentSaysAround(g, u, v, w, w, pcl, dir, dir'.stream);
    }
  }

  lemma GrewAfterStore(g: Geometry, bm: seq<nat>, u: View, v: View, mid: View, dir: FileNode, cl: seq<nat>,
                       cl': seq<nat>)
    requires SameDir(g, u, v, cl) && Layout(g) && BitmapIs(g, u, bm) && BitmapIs(g, v, bm)
             && Live(g, u, bm) <= Live(g, v, bm)
    requires exists kept :: GrewFrom(g, bm, v, mid, dir, cl, cl', kept)
    ensures exists kept :: GrewFrom(g, bm, u, mid, dir, cl, cl', kept)
  {
    hide Multiples, Places, Addresses, Live, BitmapIs, ByteAt;
    var kept :| GrewFrom(g, bm, v, mid, dir, cl, cl', kept);
    GainedFirst(g, u, v, mid, cl, kept, cl');
    assert GrewFrom(g, bm, u, mid, dir, cl, cl', kept);
  }

  lemma ShapedViews(g: Geometry, u: View, v: View, bm: seq<nat>)
    requires Layout(g) && BitmapIs(g, u, bm) && BitmapIs(g, v, bm)
    ensures Shaped(g, u) && Shaped(g, v)
  {
  }

  lemma RoomAfterStore(g: Geometry, u: View, v: View, mid: View, cl: seq<nat>, cl': seq<nat>, slot: nat, es: seq<Byte>)
    requires RoomFor(g, v, mid, cl, cl', slot, es) && SameDir(g, u, v, cl)
    ensures RoomFor(g, u, mid, cl, cl', slot, es)
  {
    hide Multiples, Places, Addresses, Shaped, ByteAt, FreeRun, Begins;
  }

  lemma NoPlaceIs(g: Geometry, v: View, bm: seq<nat>, dir: FileNode, pcl: seq<nat>, count: nat, length: nat)
    requires Layout(g) && BitmapIs(g, v, bm)
    ensures NoRoom(g, v, bm, count) ==> NoPlace(g, v, bm, dir, pcl, count, length)
  {
    hide Multiples, Places, Addresses, BitmapIs, FreeCount, ParentLacks;
  }

  /** Storing the data takes its clusters and nothing else of the room for the entry. */
  lemma PlaceAfterStore(g: Geometry, v: View, w: View, bm: seq<nat>, dir: FileNode, cl: seq<nat>, pcl: seq<nat>,
                        clusters: seq<nat>, length: nat)
    requires Layout(g) && Usable(g, v, bm, dir, cl, pcl) && Sound(g, w, bm) && Members(clusters) !! Live(g, v, bm)
    requires Within(g, v, w, Members(clusters), Members(bm) + Members(clusters))
    requires Live(g, w, bm) <= Live(g, v, bm) + Members(clusters)
    ensures NoPlace(g, w, bm, dir, pcl, 0, length) ==> NoPlace(g, v, bm, dir, pcl, |clusters|, length)
  {
    hide Multiples, Places, Addresses, Capacities, BitmapIs, StreamIs, Live, LiveDir, ClustersFor, Ended, Within,
         Shaped, SetThere, Unused;
    UnusedLess(g, Live(g, v, bm), Live(g, w, bm), clusters);
    if dir.count != 0 {
      ShapedViews(g, v, w, bm);
      LiveDirMeans(g, v, bm, dir.parent, pcl);
      DirStands(g, v, dir.parent, pcl);
      ThereAfterStore(g, v, w, bm, dir, pcl, clusters);
    }
  }

  lemma ThereAfterStore(g: Geometry, v: View, w: View, bm: seq<nat>, node: FileNode, pcl: seq<nat>, clusters: seq<nat>)
    requires Layout(g) && Shaped(g, v) && Shaped(g, w) && Clusters(g, pcl)
    requires Members(pcl) !! Members(bm) + Members(clusters)
    requires Within(g, v, w, Members(clusters), Members(bm) + Members(clusters))
    ensures SetThere(g, v, pcl, node) ==> SetThere(g, w, pcl, node)
  {
    hide Multiples, Places, Addresses, Shaped, ByteAt, Within;
    SameDirKept(g, v, w, Members(clusters), Members(bm) + Members(clusters), pcl);
  }

  /** The parts of create_entry between begin and commit. */
  method CreateBody(v: Volume, dir: FileNode, table: seq<nat>, attributes: nat, name: seq<nat>, data: seq<Byte>,
                    count: nat, size: nat, ghost cl: seq<nat>, ghost pcl: seq<nat>)
    returns (ok: bool, clusters: seq<nat>, dir': FileNode, ghost cl': seq<nat>, ghost slot: nat, ghost es: seq<Byte>,
             ghost mid: View)
    requires Ready(v, dir, cl, pcl) && ValidTable(table) && ValidName(name)
    requires attributes < 0x1_0000 && size < 0x1_0000_0000_0000_0000
    requires count <= v.g.clusterCount ==> |data| <= v.g.capacity[count]
    modifies v`journal, v`full, v.m
    ensures v.Open() && v.m.faults >= old(v.m.faults) && Sound(v.g, v.V(), v.bm)
    ensures ok ==> |clusters| == count && Stored(v.g, v.bm, old(v.V()), v.V(), clusters, data)
    ensures ok ==> var r := Record(attributes, if count == 0 then 0 else clusters[0], size, size, false, name);
                   Encodes(es, r) && Complete(table, es, r)
    ensures ok ==> Published(v.g, v.bm, old(v.V()), mid, v.V(), dir, cl, pcl, dir', cl', slot, es)
    ensures ok && (dir.stream.length > 0 || v.m.faults == old(v.m.faults)) ==>
              RoomFor(v.g, old(v.V()), mid, cl, cl', slot, es)
    ensures !ok ==> || !(1 <= |name| <= 255) || NoPlace(v.g, old(v.V()), v.bm, dir, pcl, count, |name|)
                    || v.Hindered(old(v.m.faults))
  {
    hide Multiples, Places, Addresses, Capacities, ViewOf, Undoable, Allocated, BitmapIs, Shaped, Encodes, Placed,
         Within, Kept, LiveDir, Published, RoomFor, NoPlace, Complete;
    dir', cl', slot, es, mid := dir, cl, 0, [], v.V();
    ghost var v0 := v.V();
    ok, clusters := StoreData(v, count, data);
    if !ok {
      NoPlaceIs(v.g, v0, v.bm, dir, pcl, count, |name|);
      return;
    }
    ghost var v1 := v.V();
    UsableAfterStore(v.g, v0, v1, v.bm, dir, cl, pcl, Members(clusters));
    PlaceAfterStore(v.g, v0, v1, v.bm, dir, cl, pcl, clusters, |name|);
    FirstCluster(v.g, v.bm, v0, v1, clusters, data);
    var first := if count == 0 then 0 else clusters[0];
    ok, dir', cl', slot, es, mid := PublishEntry(v, dir, table, Record(attributes, first, size, size, false, name),
                                                 cl, pcl);
    if ok {
      DirSpaceLive(v.g, v0, v.bm, dir, cl, pcl);
      PublishedKept(v.g, v.bm, v1, mid, v.V(), dir, cl, pcl, dir', cl', slot, es);
      StoredKept(v.g, v.bm, v0, v1, v.V(), clusters, data, DirSpace(v.bm, dir, cl, pcl));
      PublishedAfterStore(v.g, v.bm, v0, v1, mid, v.V(), Members(clusters), dir, cl, pcl, dir', cl', slot, es);
      if dir.stream.length > 0 || v.m.faults == old(v.m.faults) {
        RoomAfterStore(v.g, v0, v1, mid, cl, cl', slot, es);
      }
    }
  }

  lemma PublishedKept(g: Geometry, bm: seq<nat>, v: View, mid: View, w: View, dir: FileNode, cl: seq<nat>,
                      pcl: seq<nat>, dir': FileNode, cl': seq<nat>, slot: nat, es: seq<Byte>)
    requires Published(g, bm, v, mid, w, dir, cl, pcl, dir', cl', slot, es)
    ensures Kept(g, bm, v, w, DirSpace(bm, dir, cl, pcl))
  {
  }

  lemma FirstCluster(g: Geometry, bm: seq<nat>, v: View, w: View, clusters: seq<nat>, data: seq<Byte>)
    requires Stored(g, bm, v, w, clusters, data)
    ensures |clusters| > 0 ==> 2 <= clusters[0] < 0x1_0000_0000
  {
  }

  lemma DirSpaceLive(g: Geometry, v: View, bm: seq<nat>, dir: FileNode, cl: seq<nat>, pcl: seq<nat>)
    requires Layout(g) && Usable(g, v, bm, dir, cl, pcl)
    ensures DirSpace(bm, dir, cl, pcl) <= Live(g, v, bm)
  {
    hide Multiples, Places, Addresses, Allocated;
  }

  lemma KeptTwice(g: Geometry, bm: seq<nat>, u: View, v: View, w: View, x: set<nat>)
    requires Kept(g, bm, u, v, x) && Kept(g, bm, v, w, x) && Live(g, u, bm) <= Live(g, v, bm)
    ensures Kept(g, bm, u, w, x)
  {
    hide Multiples, Places, Addresses, Allocated;
    forall c | c in Live(g, u, bm) && c !in x
      ensures w.fat[c] == u.fat[c] && w.heap[c] == u.heap[c]
    {
      assert v.fat[c] == u.fat[c] && v.heap[c] == u.heap[c];
    }
  }

  /** Create a file or directory in dir. */
  method CreateEntry(v: Volume, dir: FileNode, table: seq<nat>, attributes: nat, name: seq<nat>, data: seq<Byte>,
                     directory: bool, ghost cl: seq<nat>, ghost pcl: seq<nat>)
    returns (outcome: Outcome, clusters: seq<nat>, dir': FileNode, ghost cl': seq<nat>, ghost slot: nat,
             ghost es: seq<Byte>, ghost mid: View)
    requires v.Closed() && Usable(v.g, v.V(), v.bm, dir, cl, pcl) && ValidTable(table) && ValidName(name)
    requires attributes < 0x1_0000 && |data| < 0x1_0000_0000_0000_0000 && v.g.clusterSize < 0x1_0000_0000
    requires directory ==> data == []
    modifies v, v.m
    ensures Settled(v, old(v.m.image), outcome) && v.m.faults >= old(v.m.faults)
    ensures outcome.Committed? ==>
              var size := if directory then v.g.clusterSize else |data|;
              && Stored(v.g, v.bm, old(v.V()), v.V(), clusters, data)
              && (|clusters| == if directory then 1 else if data == [] then 0 else ClustersFor(v.g, |data|))
              && (var r := Record(attributes, if |clusters| == 0 then 0 else clusters[0], size, size, false, name);
                  Encodes(es, r) && Complete(table, es, r))
              && Published(v.g, v.bm, old(v.V()), mid, v.V(), dir, cl, pcl, dir', cl', slot, es)
    ensures outcome.Committed? && (dir.stream.length > 0 || v.m.faults == old(v.m.faults)) ==>
              RoomFor(v.g, old(v.V()), mid, cl, cl', slot, es)
    ensures var count := if directory then 1 else if data == [] then 0 else ClustersFor(v.g, |data|);
            !outcome.Committed? ==> || !(1 <= |name| <= 255) || NoPlace(v.g, old(v.V()), v.bm, dir, pcl, count, |name|)
                                    || v.Hindered(old(v.m.faults))
  {
    hide Multiples, Places, Addresses, Capacities, ViewOf, Undoable, Allocated, BitmapIs, Shaped, Encodes, Placed,
         Within, Kept, LiveDir, Usable, Stored, Restored, Clean, Stamped, Percent, Published, RoomFor, NoPlace,
         Complete;
    clusters, dir', cl', slot, es, mid := [], dir, cl, 0, [], v.V();
    ghost var v0 := v.V();
    var count := if directory then 1 else if |data| == 0 then 0 else ClustersFor(v.g, |data|);
    var size := if directory then v.g.clusterSize else |data|;
    CountFits(v.g, count, data);
    if count != 0 {
      var granted := v.m.Allocate();
      if !granted {
        return Refused, clusters, dir', cl', slot, es, mid;
      }
    }
    UsableMeans(v.g, v0, v.bm, dir, cl, pcl);
    var ok, restored := v.Begin();
    if !ok {
      return RolledBack(restored), clusters, dir', cl', slot, es, mid;
    }
    ok, clusters, dir', cl', slot, es, mid := CreateBody(v, dir, table, attributes, name, data, count, size, cl, pcl);
    if ok {
      ok, restored := Commit(v);
    } else {
      restored := v.Rollback();
    }
    if ok {
      var verified: bool := *;
      outcome := Committed(verified);
    } else {
      outcome := RolledBack(restored);
    }
  }

  lemma UsableMeans(g: Geometry, v: View, bm: seq<nat>, dir: FileNode, cl: seq<nat>, pcl: seq<nat>)
    requires Layout(g) && Usable(g, v, bm, dir, cl, pcl)
    ensures Sound(g, v, bm) && BitmapIs(g, v, bm)
  {
  }

  lemma CountFits(g: Geometry, count: nat, data: seq<Byte>)
    requires Layout(g) && ((count == 1 && data == []) || count == if |data| == 0 then 0 else ClustersFor(g, |data|))
    ensures count <= g.clusterCount ==> |data| <= g.capacity[count]
  {
    if |data| > 0 && count <= g.clusterCount {
      ClustersForFits(g, |data|);
    }
  }

  // ----- overwriting and deleting

  /** A file whose clusters fcl and directory pcl are live, apart from each other and from the bitmap. */
  ghost predicate Owned(g: Geometry, v: View, bm: seq<nat>, node: FileNode, fcl: seq<nat>, pcl: seq<nat>)
    requires Layout(g)
  {
    && Sound(g, v, bm) && LiveDir(g, v, bm, node.parent, pcl)
    && (ValidCluster(g, node.stream.first) ==>
          && StreamIs(g, v, node.stream.first, node.stream.contiguous, fcl)
          && (node.stream.length > 0 ==> |fcl| == ClustersFor(g, node.stream.length))
          && (node.stream.length == 0 ==> !node.stream.contiguous && Ended(g, v, fcl))
          && Members(fcl) <= Live(g, v, bm) && Members(fcl) !! Members(bm) && Members(fcl) !! Members(pcl))
  }

  /** From v to w the file of the node has been given the data, in clusters that were free; its clusters
      old' are free again, its directory stands, and apart from these and the bitmap all that was live is
      unchanged. */
  ghost predicate Overwritten(g: Geometry, bm: seq<nat>, v: View, w: View, node: FileNode, pcl: seq<nat>,
                              old': seq<nat>, clusters: seq<nat>, data: seq<Byte>, es: seq<Byte>)
  {
    && Stored(g, bm, v, w, clusters, data) && LiveDir(g, w, bm, node.parent, pcl) && HasSet(g, v, pcl, node, es)
    && SetNow(g, v, w, pcl, node,
              UpdateStream(es, node.count, if |clusters| == 0 then 0 else clusters[0], |data|, |data|, false))
    && Kept(g, bm, v, w, Members(bm) + Members(pcl) + Members(old'))
    && Live(g, w, bm) == Live(g, v, bm) - Members(old') + Members(clusters)
  }

  /** From v to w the set of the node has been retired and its clusters are free; its directory stands, and
      apart from these and the bitmap all that was live is unchanged. */
  ghost predicate Deleted(g: Geometry, bm: seq<nat>, v: View, w: View, node: FileNode, pcl: seq<nat>,
                          clusters: seq<nat>, es: seq<Byte>) {
    && Layout(g) && Sound(g, w, bm) && LiveDir(g, w, bm, node.parent, pcl) && HasSet(g, v, pcl, node, es)
    && SetNow(g, v, w, pcl, node, Retire(es, node.count))
    && Kept(g, bm, v, w, Members(bm) + Members(pcl) + Members(clusters))
       && Live(g, w, bm) == Live(g, v, bm) - Members(clusters)
  }

  lemma LiveValid(g: Geometry, v: View, bm: seq<nat>, clusters: seq<nat>)
    requires Layout(g) && BitmapIs(g, v, bm) && Members(clusters) <= Live(g, v, bm)
    ensures forall i :: 0 <= i < |clusters| ==> ValidCluster(g, clusters[i])
  {
    hide Multiples, Places, Addresses, Allocated, BitmapIs;
    forall i | 0 <= i < |clusters|
      ensures ValidCluster(g, clusters[i])
    {
      assert clusters[i] in Members(clusters);
    }
  }

  /** The set of the node is not to be found in the directory. */
  ghost predicate SetMissing(g: Geometry, v: View, pcl: seq<nat>, node: FileNode) {
    !(Layout(g) && Shaped(g, v) && Clusters(g, pcl) && SetThere(g, v, pcl, node))
  }

  /** The parts of write_file between begin and commit. */
  method WriteBody(v: Volume, node: FileNode, old': seq<nat>, data: seq<Byte>, count: nat, ghost pcl: seq<nat>)
    returns (ok: bool, clusters: seq<nat>, ghost es: seq<Byte>)
    requires v.Open() && Sound(v.g, v.V(), v.bm) && LiveDir(v.g, v.V(), v.bm, node.parent, pcl)
    requires Live(v.g, ViewOf(v.g, v.base), v.bm) <= Live(v.g, v.V(), v.bm)
    requires Members(old') <= Live(v.g, v.V(), v.bm) && Members(old') !! Members(v.bm) && Members(old') !! Members(pcl)
    requires count <= v.g.clusterCount ==> |data| <= v.g.capacity[count]
    modifies v`journal, v`full, v.m
    ensures v.Open() && v.m.faults >= old(v.m.faults) && Sound(v.g, v.V(), v.bm)
    ensures ok ==> |clusters| == count && Overwritten(v.g, v.bm, old(v.V()), v.V(), node, pcl, old', clusters, data, es)
    ensures !ok ==> || NoRoom(v.g, old(v.V()), v.bm, count) || SetMissing(v.g, old(v.V()), pcl, node)
                    || v.Hindered(old(v.m.faults))
  {
    hide Multiples, Places, Addresses, Capacities, ViewOf, Undoable, Allocated, BitmapIs, Shaped, Within, Kept,
         LiveDir, Overlaid, BytesAt, UpdateStream, Holds, Linked, FreeCount;
    es := [];
    ghost var v0, space := v.V(), Members(v.bm) + Members(pcl) + Members(old');
    ok, clusters := StoreData(v, count, data);
    if !ok {
      return;
    }
    ghost var v1, new' := v.V(), Members(clusters);
    LiveDirMeans(v.g, v0, v.bm, node.parent, pcl);
    LiveDirKept(v.g, v0, v1, new', Members(v.bm) + new', v.bm, node.parent, pcl);
    LiveDirMeans(v.g, v1, v.bm, node.parent, pcl);
    KeptSelf(v.g, v.bm, v0, space);
    KeptOn(v.g, v.bm, v0, v0, v1, new', Members(v.bm) + new', space);
    var first := if count == 0 then 0 else clusters[0];
    DirStands(v.g, v0, node.parent, pcl);
    ThereAfterStore(v.g, v0, v1, v.bm, node, pcl, clusters);
    ok := UpdateNodeStream(v, node, first, |data|, |data|, false, pcl);
    ghost var v2 := v.V();
    BitmapKept(v.g, v1, v2, {}, Members(pcl), v.bm);
    if !ok {
      return;
    }
    es := BytesAt(v.g, v1, pcl, node.offset, 32 * node.count);
    KeptOn(v.g, v.bm, v0, v1, v2, {}, Members(pcl), space);
    HasSetKept(v.g, v0, v1, pcl, node, new', Members(v.bm) + new', es);
    LiveDirKept(v.g, v1, v2, {}, Members(pcl), v.bm, node.parent, pcl);
    StoredKept1(v.g, v.bm, v0, v1, v2, clusters, data, {}, Members(pcl));
    LiveValid(v.g, v0, v.bm, old');
    ok := FreeClusters(v, old');
    if ok {
      KeptOn(v.g, v.bm, v0, v2, v.V(), Members(old'), Members(v.bm), space);
      LiveDirKept(v.g, v2, v.V(), Members(old'), Members(v.bm), v.bm, node.parent, pcl);
      StoredKept1(v.g, v.bm, v0, v2, v.V(), clusters, data, Members(old'), Members(v.bm));
      SetNowAround(v.g, v0, v1, v2, v.V(), pcl, node, UpdateStream(es, node.count, first, |data|, |data|, false),
                   new', Members(v.bm) + new', Members(old'), Members(v.bm));
    }
  }

  lemma StoredKept1(g: Geometry, bm: seq<nat>, u: View, v: View, w: View, clusters: seq<nat>, data: seq<Byte>,
                    f: set<nat>, h: set<nat>)
    requires Stored(g, bm, u, v, clusters, data) && Within(g, v, w, f, h) && Sound(g, w, bm)
    requires (f + h) !! Members(clusters) && Members(clusters) <= Live(g, w, bm)
    ensures Stored(g, bm, u, w, clusters, data)
  {
    hide Multiples, Places, Addresses, Allocated, Holds, Linked;
    KeptSelf(g, bm, v, f + h);
    KeptOn(g, bm, v, v, w, f, h, f + h);
    StoredKept(g, bm, u, v, w, clusters, data, f + h);
  }

  /** Overwrite an existing file.  For a file without clusters the list of its clusters cannot be
      allocated, so the call is refused. */
  method WriteFile(v: Volume, node: FileNode, isDirectory: bool, data: seq<Byte>, ghost fcl: seq<nat>,
                   ghost pcl: seq<nat>)
    returns (outcome: Outcome, old': seq<nat>, clusters: seq<nat>, ghost es: seq<Byte>)
    requires v.Closed() && Owned(v.g, v.V(), v.bm, node, fcl, pcl)
    modifies v, v.m
    ensures Settled(v, old(v.m.image), outcome) && v.m.faults >= old(v.m.faults)
    ensures isDirectory || !ValidCluster(v.g, node.stream.first) ==> outcome == Refused
    ensures outcome == Refused && v.m.faults == old(v.m.faults) ==> isDirectory || !ValidCluster(v.g, node.stream.first)
    ensures outcome.Committed? ==>
              Overwritten(v.g, v.bm, old(v.V()), v.V(), node, pcl, old', clusters, data, es)
    ensures outcome.Committed? ==> 0 < |old'| && old' <= fcl
    ensures outcome.Committed? && (node.stream.length > 0 || v.m.faults == old(v.m.faults)) ==> old' == fcl
    ensures outcome.Committed? ==> |clusters| == if data == [] then 0 else ClustersFor(v.g, |data|)
    ensures outcome.RolledBack? ==> || NoRoom(v.g, old(v.V()), v.bm, if data == [] then 0 else ClustersFor(v.g, |data|))
                                    || SetMissing(v.g, old(v.V()), pcl, node) || v.Hindered(old(v.m.faults))
  {
    hide Multiples, Places, Addresses, Capacities, ViewOf, Undoable, Allocated, BitmapIs, Shaped, LiveDir, Restored,
         Clean, Stamped, Percent, Overwritten, ClustersFor, StreamIs, Ended, NoRoom, SetMissing;
    old', clusters, es := [], [], [];
    ghost var v0 := v.V();
    if isDirectory {
      return Refused, old', clusters, es;
    }
    var ok;
    ok, old' := CollectClusters(v, node.stream.first, node.stream.contiguous, node.stream.length, fcl);
    if !ok {
      return Refused, old', clusters, es;
    }
    PrefixMembers(old', fcl);
    var count := if |data| == 0 then 0 else ClustersFor(v.g, |data|);
    CountFits(v.g, count, data);
    if count != 0 {
      var granted := v.m.Allocate();
      if !granted {
        return Refused, old', clusters, es;
      }
    }
    var restored;
    ok, restored := v.Begin();
    if !ok {
      return RolledBack(restored), old', clusters, es;
    }
    ok, clusters, es := WriteBody(v, node, old', data, count, pcl);
    if ok {
      ok, restored := Commit(v);
    } else {
      restored := v.Rollback();
    }
    if ok {
      var verified: bool := *;
      outcome := Committed(verified);
    } else {
      outcome := RolledBack(restored);
    }
  }

  lemma PrefixMembers(a: seq<nat>, b: seq<nat>)
    requires a <= b
    ensures Members(a) <= Members(b)
  {
  }

  lemma CountZero(g: Geometry, count: nat, data: seq<Byte>)
    requires Layout(g) && count == if |data| == 0 then 0 else ClustersFor(g, |data|)
    ensures count == 0 <==> data == []
  {
    hide Multiples, Places, Addresses, Capacities;
    if |data| > 0 {
      Arithmetic.DivLess(|data| + g.clusterSize - 1, g.clusterSize, 1);
    }
  }

  /** The set of the node does not lie in the directory, or the FAT has no entries for some clusters. */
  ghost predicate Unretirable(g: Geometry, pcl: seq<nat>, node: FileNode) {
    !(Layout(g) && Clusters(g, pcl) && SetInside(g, pcl, node) && Reaches(g))
  }

  /** Delete a file, or a directory already found empty. */
  method DeleteEntry(v: Volume, node: FileNode, ghost fcl: seq<nat>, ghost pcl: seq<nat>)
    returns (outcome: Outcome, clusters: seq<nat>, ghost es: seq<Byte>)
    requires v.Closed() && Owned(v.g, v.V(), v.bm, node, fcl, pcl)
    modifies v, v.m
    ensures Settled(v, old(v.m.image), outcome)
    ensures !ValidCluster(v.g, node.stream.first) ==> outcome == Refused
    ensures outcome == Refused && v.m.faults == old(v.m.faults) ==> !ValidCluster(v.g, node.stream.first)
    ensures v.m.faults >= old(v.m.faults)
    ensures outcome.Committed? ==>
              Deleted(v.g, v.bm, old(v.V()), v.V(), node, pcl, clusters, es)
    ensures outcome.Committed? ==> 0 < |clusters| && clusters <= fcl
    ensures outcome.Committed? && (node.stream.length > 0 || v.m.faults == old(v.m.faults)) ==> clusters == fcl
    ensures outcome.RolledBack? ==> Unretirable(v.g, pcl, node) || v.Hindered(old(v.m.faults))
  {
    hide Multiples, Places, Addresses, Capacities, ViewOf, Undoable, Allocated, BitmapIs, Shaped, LiveDir, Restored,
         Clean, Stamped, Percent, Deleted, ClustersFor, StreamIs, Ended;
    clusters, es := [], [];
    var ok;
    ok, clusters := CollectClusters(v, node.stream.first, node.stream.contiguous, node.stream.length, fcl);
    if !ok {
      return Refused, clusters, es;
    }
    PrefixMembers(clusters, fcl);
    var restored;
    ok, restored := v.Begin();
    if !ok {
      return RolledBack(restored), clusters, es;
    }
    ok, es := DeleteBody(v, node, clusters, pcl);
    if ok {
      ok, restored := Commit(v);
    } else {
      restored := v.Rollback();
    }
    if ok {
      var verified: bool := *;
      outcome := Committed(verified);
    } else {
      outcome := RolledBack(restored);
    }
  }

  method DeleteBody(v: Volume, node: FileNode, clusters: seq<nat>, ghost pcl: seq<nat>)
      returns (ok: bool, ghost es: seq<Byte>)
    requires v.Open() && Sound(v.g, v.V(), v.bm) && LiveDir(v.g, v.V(), v.bm, node.parent, pcl)
    requires Members(clusters) <= Live(v.g, v.V(), v.bm)
    requires Members(clusters) !! Members(v.bm) && Members(clusters) !! Members(pcl)
    modifies v`journal, v`full, v.m
    ensures v.Open() && Sound(v.g, v.V(), v.bm) && v.m.faults >= old(v.m.faults)
    ensures ok ==> Deleted(v.g, v.bm, old(v.V()), v.V(), node, pcl, clusters, es)
    ensures !ok ==> Unretirable(v.g, pcl, node) || v.Hindered(old(v.m.faults))
  {
    hide Multiples, Places, Addresses, Capacities, ViewOf, Undoable, Allocated, BitmapIs, Shaped, Within, Kept,
         LiveDir, Overlaid, BytesAt, Retire;
    es := [];
    ghost var v0, space := v.V(), Members(v.bm) + Members(pcl) + Members(clusters);
    LiveDirMeans(v.g, v0, v.bm, node.parent, pcl);
    KeptSelf(v.g, v.bm, v0, space);
    WithinSelf(v.g, v0, {});
    ok := RetireEntry(v, node, pcl);
    ghost var v1 := v.V();
    BitmapKept(v.g, v0, v1, {}, Members(pcl), v.bm);
    if !ok {
      return;
    }
    es := BytesAt(v.g, v0, pcl, node.offset, 32 * node.count);
    KeptOn(v.g, v.bm, v0, v0, v1, {}, Members(pcl), space);
    LiveDirKept(v.g, v0, v1, {}, Members(pcl), v.bm, node.parent, pcl);
    LiveValid(v.g, v0, v.bm, clusters);
    ok := FreeClusters(v, clusters);
    if ok {
      KeptOn(v.g, v.bm, v0, v1, v.V(), Members(clusters), Members(v.bm), space);
      LiveDirKept(v.g, v1, v.V(), Members(clusters), Members(v.bm), v.bm, node.parent, pcl);
      SetNowAround(v.g, v0, v0, v1, v.V(), pcl, node, Retire(es, node.count), {}, {}, Members(clusters), Members(v.bm));
    }
  }
}
