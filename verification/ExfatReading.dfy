/** Reading an exFAT volume back: directory scans over sectors and clusters, file contents, and what
    the mutations look like to a reader. */
module ExfatReading {
  import opened Bytes
  import opened Machines
  import opened VolumeLayout
  import opened ExfatLayout
  import opened ExfatVolume
  import opened ExfatClusters
  import opened ExfatEntries
  import opened ExfatListing
  import opened ExfatDirectory
  import opened ExfatMutation

  /** Scan the slots of one sector.  done says that the scan is over: an end mark was met, or the
      recorded length of the directory (limit, unless unlimited) is used up. */
  method VisitSector(clusterCount: nat, sector: Sector, p0: Progress, processed0: nat, limit: nat, unlimited: bool,
                     ghost slots: seq<Slot>, ghost k: nat)
    returns (done: bool, p: Progress, processed: nat)
    requires processed0 == 32 * k && |sector| % 32 == 0 && ValidScan(p0.scan) && |p0.scan.es| <= processed0
    requires unlimited || processed0 < limit ==> SectorSlots(slots, k, sector)
    requires unlimited || processed0 < limit ==> k <= |slots| && p0 == Run(clusterCount, slots, k) && !p0.stopped
    requires !unlimited && processed0 < limit ==> processed0 + |sector| <= limit
    ensures !unlimited && processed0 >= limit && |sector| > 0 ==> done && p == p0 && processed == processed0
    ensures (unlimited || processed0 < limit) && !done ==>
              var n := k + |sector| / 32; processed == 32 * n && !p.stopped && p == Run(clusterCount, slots, n)
    ensures (unlimited || processed0 < limit) && done ==> Final(clusterCount, slots, p.nodes)
    ensures ValidScan(p.scan) && |p.scan.es| <= processed
  {
    hide ScanSlot, Parse;
    p, processed, done := p0, processed0, false;
    ghost var live := unlimited || processed0 < limit;
    for i := 0 to |sector| / 32
      invariant live ==> processed == 32 * (k + i) && p == Run(clusterCount, slots, k + i) && !p.stopped
      invariant !live ==> i == 0 && p == p0 && processed == processed0
      invariant ValidScan(p.scan) && |p.scan.es| <= processed
    {
      var slot: Slot := sector[32 * i..32 * i + 32];
      if !unlimited && processed >= limit {
        done := true;
        return;
      }
      assert slots[k + i] == slot;
      processed := processed + 32;
      if slot[0] == 0 {
        done := true;
        StoppedAt(clusterCount, slots, k + i);
        return;
      }
      var step := ScanSlot(clusterCount, p.scan, slot, processed);
      p := Progress(step.0, p.nodes + step.1, false);
    }
  }

  /** nodes are all that a scan of the whole directory delivers. */
  ghost predicate Final(clusterCount: nat, slots: seq<Slot>, nodes: seq<Node>) {
    nodes == Visit(clusterCount, slots)
  }

  lemma {:induction false} WalkValid(g: Geometry, v: View, c: nat, steps: nat)
    requires Layout(g) && Shaped(g, v) && ValidCluster(g, c)
    ensures Walk(g, v, c, steps).Some? ==> ValidCluster(g, Walk(g, v, c, steps).value)
    decreases steps
  {
    hide Multiples, Addresses, Places;
    if steps > 0 {
      var next := Link(g, v, c);
      if next.Some? && next.value < EOC {
        WalkValid(g, v, next.value, steps - 1);
      }
    }
  }

  /** How far the scan has come: all slots of the first q clusters and j sectors of the next. */
  ghost predicate At(g: Geometry, v: View, cl: seq<nat>, q: nat, j: nat, p: Progress, processed: nat) {
    && Layout(g) && Shaped(g, v) && Clusters(g, cl) && ValidScan(p.scan) && |p.scan.es| <= processed
    && q <= |cl| && (q == |cl| ==> j == 0) && processed % 32 == 0 && processed / 32 <= |DirSlots(g, v, cl)|
    && !p.stopped && p == Run(g.clusterCount, DirSlots(g, v, cl), processed / 32)
    && SectorStart(g, q, j, processed)
  }

  /** The offset of sector j of cluster q; the last sector is followed by the next cluster. */
  ghost predicate SectorStart(g: Geometry, q: nat, j: nat, processed: nat)
    requires Layout(g)
  {
    if j == 0 then q <= g.clusterCount && processed == g.capacity[q]
    else if j < g.sectorsPerCluster then processed < |g.place| && g.place[processed] == Place(q, j, 0)
    else q < g.clusterCount && processed == g.capacity[q + 1]
  }

  lemma SectorStartNext(g: Geometry, q: nat, j: nat, processed: nat)
    requires Layout(g) && q < g.clusterCount && j < g.sectorsPerCluster && SectorStart(g, q, j, processed)
             && processed % 32 == 0
    ensures SectorStart(g, q, j + 1, processed + g.sectorSize)
    ensures (processed + g.sectorSize) % 32 == 0 && (processed + g.sectorSize) / 32 ==
            processed / 32 + g.sectorSize / 32
  {
    hide Multiples, Addresses, Places;
    ClusterStart(g, g.clusterCount, q);
    NextSector(g, q, j, processed);
  }

  lemma AtStart(g: Geometry, v: View, cl: seq<nat>)
    requires Layout(g) && Shaped(g, v) && Clusters(g, cl)
    ensures At(g, v, cl, 0, 0, Progress(IDLE, [], false), 0)
  {
    hide Multiples, Addresses, Places, Shaped, SlotOf;
  }

  lemma AtMeans(g: Geometry, v: View, cl: seq<nat>, q: nat, j: nat, p: Progress, processed: nat)
    requires At(g, v, cl, q, j, p, processed)
    ensures ValidScan(p.scan) && |p.scan.es| <= processed && processed % 32 == 0 && processed == 32 * (processed / 32)
    ensures processed / 32 <= |DirSlots(g, v, cl)| && p == Run(g.clusterCount, DirSlots(g, v, cl), processed / 32)
            && !p.stopped
    ensures q < |cl| && j < g.sectorsPerCluster ==> processed < g.capacity[|cl|]
    ensures q == |cl| ==> processed == g.capacity[|cl|]
  {
    hide Multiples, Addresses, Shaped, SlotOf, Run, DirSlots;
  }

  lemma FoundValid(g: Geometry, v: View, h: Handle, q: nat, c: nat)
    requires Layout(g) && Shaped(g, v) && StreamCluster(g, v, h.first, h.contiguous, q) == Some(c)
    ensures ValidCluster(g, c)
  {
    hide Multiples, Addresses, Places, Shaped;
    if !h.contiguous {
      WalkValid(g, v, h.first, q);
    }
  }

  lemma AtSector(g: Geometry, v: View, cl: seq<nat>, q: nat, j: nat, p: Progress, processed: nat)
    requires At(g, v, cl, q, j, p, processed) && q < |cl| && j < g.sectorsPerCluster
    ensures processed + g.sectorSize <= g.capacity[|cl|] && g.sectorSize % 32 == 0
    ensures SectorSlots(DirSlots(g, v, cl), processed / 32, v.heap[cl[q]][j])
  {
    hide Multiples, Addresses, Places, SlotOf, Run, DirSlots, SectorSlots;
    ClusterStart(g, |cl|, q);
    SectorHasSlots(g, v, cl, q, j, processed / 32);
  }

  lemma AtNext(g: Geometry, v: View, cl: seq<nat>, q: nat, j: nat, p: Progress, processed: nat, p': Progress)
    requires At(g, v, cl, q, j, p, processed) && q < |cl| && j < g.sectorsPerCluster
    requires processed / 32 + g.sectorSize / 32 <= |DirSlots(g, v, cl)|
    requires p' == Run(g.clusterCount, DirSlots(g, v, cl), processed / 32 + g.sectorSize / 32) && !p'.stopped
    requires ValidScan(p'.scan) && |p'.scan.es| <= processed + g.sectorSize
    ensures At(g, v, cl, q, j + 1, p', processed + g.sectorSize)
  {
    hide Multiples, Addresses, Places, SlotOf, Run, DirSlots, Shaped, SectorStart, Capacities;
    SectorStartNext(g, q, j, processed);
  }

  lemma AtCluster(g: Geometry, v: View, cl: seq<nat>, q: nat, p: Progress, processed: nat)
    requires At(g, v, cl, q, g.sectorsPerCluster, p, processed) && q < |cl|
    ensures At(g, v, cl, q + 1, 0, p, processed)
  {
    hide Multiples, Addresses, Places, SlotOf, Run, DirSlots, Shaped;
  }

  lemma AtEnd(g: Geometry, v: View, cl: seq<nat>, p: Progress, processed: nat)
    requires At(g, v, cl, |cl|, 0, p, processed)
    ensures Final(g.clusterCount, DirSlots(g, v, cl), p.nodes)
  {
    hide Multiples, Addresses, Places, SlotOf, Run, DirSlots, Shaped;
  }

  lemma AtPrefix(g: Geometry, v: View, cl: seq<nat>, q: nat, j: nat, p: Progress, processed: nat)
    requires At(g, v, cl, q, j, p, processed)
    ensures p.nodes <= Visit(g.clusterCount, DirSlots(g, v, cl))
  {
    hide Multiples, Places, Addresses, SlotOf, Run, DirSlots, Shaped;
    RunGrows(g.clusterCount, DirSlots(g, v, cl), processed / 32, |DirSlots(g, v, cl)|);
  }

  /** Without a refused read, the chain of a directory ends only behind its last cluster. */
  lemma ChainStops(g: Geometry, v: View, h: Handle, cl: seq<nat>, q: nat)
    requires Layout(g) && DirIs(g, v, h, cl) && !h.contiguous && 0 < q <= |cl|
    ensures Link(g, v, cl[q - 1]) == None || Link(g, v, cl[q - 1]).value >= EOC ==> q == |cl|
    ensures !(Link(g, v, cl[q - 1]) == None || Link(g, v, cl[q - 1]).value >= EOC) && q == |cl| ==> h.length != 0
  {
    hide Multiples, Addresses, Places, Shaped;
    assert q < |cl| ==> v.fat[cl[q - 1]] == cl[q];
  }

  /** Scan a directory through all its sectors; the files found are handed over in order. */
  method VisitDirectory(v: Volume, h: Handle, ghost cl: seq<nat>) returns (ok: bool, nodes: seq<Node>)
    requires Layout(v.g) && Fits(v.g, v.m.image) && DirIs(v.g, v.V(), h, cl)
    modifies v.m`faults
    ensures v.m.faults == old(v.m.faults) ==> ok && nodes == Visit(v.g.clusterCount, DirSlots(v.g, v.V(), cl))
    ensures v.m.faults >= old(v.m.faults) && nodes <= Visit(v.g.clusterCount, DirSlots(v.g, v.V(), cl))
  {
    hide Multiples, Places, Addresses, ViewOf, Shaped, Run, Visit, At, DirSlots, StreamCluster;
    var p, processed := Progress(IDLE, [], false), 0;
    var root, limit := h.length == 0, h.length;
    var q := 0;
    AtStart(v.g, v.V(), cl);
    while q < v.g.clusterCount
      invariant q <= |cl| && At(v.g, v.V(), cl, q, 0, p, processed) && v.m.faults >= old(v.m.faults)
      invariant q == |cl| ==> !root
    {
      AtMeans(v.g, v.V(), cl, q, 0, p, processed);
      var found, c := v.FindCluster(h.first, h.contiguous, q);
      if q < |cl| {
        StreamClusterIs(v.g, v.V(), h.first, h.contiguous, cl, q);
      }
      if !found {
        break;
      }
      FoundValid(v.g, v.V(), h, q, c);
      var j := 0;
      while j < v.g.sectorsPerCluster
        invariant 0 <= j <= v.g.sectorsPerCluster && v.m.faults >= old(v.m.faults)
        invariant q == |cl| ==> j == 0
        invariant At(v.g, v.V(), cl, q, j, p, processed)
      {
        AtMeans(v.g, v.V(), cl, q, j, p, processed);
        AtPrefix(v.g, v.V(), cl, q, j, p, processed);
        var sector;
        ok, sector := v.ReadSector(SectorOf(v.g, c, j));
        if !ok {
          return false, p.nodes;
        }
        HeapSector(v.g, v.m.image, c, j);
        if q < |cl| {
          AtSector(v.g, v.V(), cl, q, j, p, processed);
        }
        ghost var was, before := p, processed;
        var done;
        done, p, processed := VisitSector(v.g.clusterCount, sector, p, processed, limit, root,
                                          DirSlots(v.g, v.V(), cl), processed / 32);
        if done {
          if q == |cl| {
            AtEnd(v.g, v.V(), cl, was, before);
          }
          return true, p.nodes;
        }
        AtNext(v.g, v.V(), cl, q, j, was, before, p);
        j := j + 1;
      }
      AtCluster(v.g, v.V(), cl, q, p, processed);
      q := q + 1;
      AtPrefix(v.g, v.V(), cl, q, 0, p, processed);
      if !h.contiguous {
        ChainStops(v.g, v.V(), h, cl, q);
        var read, next := v.ReadFat(c);
        if !read || next >= EOC {
          if v.m.faults == old(v.m.faults) {
            AtEnd(v.g, v.V(), cl, p, processed);
          }
          return true, p.nodes;
        }
      } else if root {
        return false, p.nodes;
      }
    }
    AtMeans(v.g, v.V(), cl, q, 0, p, processed);
    AtPrefix(v.g, v.V(), cl, q, 0, p, processed);
    ok := !root && processed >= limit;
    nodes := p.nodes;
    if v.m.faults == old(v.m.faults) {
      AtEnd(v.g, v.V(), cl, p, processed);
    }
  }

  // ----- file contents

  /** The contents of a file: its clusters up to the valid length, zeros up to its length. */
  function FileBytes(g: Geometry, v: View, cl: seq<nat>, length: nat, validLength: nat): (b: seq<Byte>)
    requires Layout(g) && Shaped(g, v) && validLength <= length
    requires validLength > 0 ==> Clusters(g, cl) && validLength <= g.capacity[|cl|]
    ensures |b| == length
  {
    seq<Byte>(length, i requires 0 <= i < length => if i < validLength then ByteAt(g, v, cl, i) else 0)
  }

  /** Read at most capacity bytes of a file. */
  method ReadFile(v: Volume, h: Handle, validLength: nat, capacity: nat, ghost cl: seq<nat>) returns (out: seq<Byte>)
    requires Layout(v.g) && Fits(v.g, v.m.image) && validLength <= h.length
    requires validLength > 0 ==> StreamIs(v.g, v.V(), h.first, h.contiguous, cl) && validLength <= v.g.capacity[|cl|]
    modifies v.m`faults
    ensures v.m.faults == old(v.m.faults) ==>
              out == FileBytes(v.g, v.V(), cl, h.length, validLength)[..Min(capacity, h.length)]
    ensures v.m.faults >= old(v.m.faults)
  {
    hide Multiples, Places, Addresses, ViewOf, Shaped, ByteAt, StreamIs;
    StreamMeans(v, h, validLength, cl);
    var limit := Min(capacity, h.length);
    var valid := Min(limit, validLength);
    out := [];
    if valid > 0 {
      out := v.ReadStream(h.first, h.contiguous, validLength, 0, valid, cl);
    }
    if |out| != valid {
      return;
    }
    ghost var data := out;
    while |out| < limit
      invariant valid <= |out| <= limit && out == data + Zeros(|out| - valid)
    {
      out := out + [0];
    }
  }

  lemma StreamMeans(v: Volume, h: Handle, validLength: nat, cl: seq<nat>)
    requires Layout(v.g) && Fits(v.g, v.m.image)
    requires validLength > 0 ==> StreamIs(v.g, v.V(), h.first, h.contiguous, cl)
    ensures validLength > 0 ==> Clusters(v.g, cl) && Shaped(v.g, v.V())
  {
  }

  /** Stored data is read back exactly. */
  lemma StoredReadsBack(g: Geometry, bm: seq<nat>, v: View, w: View, clusters: seq<nat>, data: seq<Byte>)
    requires Stored(g, bm, v, w, clusters, data) && (|clusters| == 0 <==> data == [])
    requires |clusters| > 0 ==> |data| <= g.capacity[|clusters|]
    ensures data != [] ==> StreamIs(g, w, clusters[0], false, clusters)
    ensures FileBytes(g, w, clusters, |data|, |data|) == data
  {
    hide Multiples, Places, Addresses, Allocated, ByteAt, Live;
  }

  // ----- what a reader sees after a mutation

  lemma SlotsCover(g: Geometry, v: View, cl: seq<nat>, k: nat, es: seq<Byte>, count: nat)
    requires Layout(g) && Shaped(g, v) && Clusters(g, cl) && |es| == 32 * count
    requires 32 * k + |es| <= g.capacity[|cl|]
    requires forall o :: 32 * k <= o < 32 * k + |es| ==> ByteAt(g, v, cl, o) == es[o - 32 * k]
    ensures SetAt(DirSlots(g, v, cl), k, es, count)
  {
    hide Multiples, Places, Addresses, ByteAt, Shaped;
    forall j | 0 <= j < count
      ensures DirSlots(g, v, cl)[k + j] == es[32 * j..32 * j + 32]
    {
      var a, b := SlotOf(g, v, cl, k + j), es[32 * j..32 * j + 32];
      forall r | 0 <= r < 32
        ensures a[r] == b[r]
      {
        assert a[r] == ByteAt(g, v, cl, 32 * (k + j) + r);
      }
    }
  }

  /** Replacing the bytes of a set replaces those slots of the directory and no other. */
  lemma SlotsReplaced(g: Geometry, v: View, w: View, cl: seq<nat>, node: FileNode, k: nat, es: seq<Byte>,
                      es': seq<Byte>)
    requires HasSet(g, v, cl, node, es) && SetNow(g, v, w, cl, node, es') && node.offset == 32 * k
    ensures Replaced(DirSlots(g, v, cl), DirSlots(g, w, cl), k, es, es', node.count)
  {
    hide Multiples, Places, Addresses, ByteAt, Shaped, DirSlots;
    var count := node.count;
    forall o | 32 * k <= o < 32 * k + 32 * count
      ensures ByteAt(g, v, cl, o) == es[o - 32 * k]
    {
      assert es[o - 32 * k] == ByteAt(g, v, cl, node.offset + (o - 32 * k));
    }
    SlotsCover(g, v, cl, k, es, count);
    SlotsCover(g, w, cl, k, es', count);
    forall i | 0 <= i < |DirSlots(g, v, cl)| && !(k <= i < k + count)
      ensures DirSlots(g, v, cl)[i] == DirSlots(g, w, cl)[i]
    {
      SlotsSame(g, v, w, cl, i);
    }
  }

  /** The file that a scan of the directory h delivers. */
  function NodeOf(h: Handle, n: Node): FileNode {
    FileNode(Handle(n.record.first, n.record.contiguous, n.record.length), h, n.offset, n.count)
  }

  /** What the directory cl lists. */
  function Listing(g: Geometry, v: View, cl: seq<nat>): seq<Node>
    requires Layout(g) && Shaped(g, v) && Clusters(g, cl)
  {
    Visit(g.clusterCount, DirSlots(g, v, cl))
  }

  ghost predicate IsListing(g: Geometry, v: View, cl: seq<nat>, list: seq<Node>) {
    Layout(g) && Shaped(g, v) && Clusters(g, cl) && list == Listing(g, v, cl)
  }

  ghost predicate TidyDir(g: Geometry, v: View, cl: seq<nat>) {
    Layout(g) && Shaped(g, v) && Clusters(g, cl) && Tidy(g.clusterCount, DirSlots(g, v, cl))
  }

  /** File number t of the listing stands in the directory as the set es at slot k. */
  ghost predicate Stands(g: Geometry, v: View, cl: seq<nat>, h: Handle, t: nat, k: nat, es: seq<Byte>)
    requires Layout(g) && Shaped(g, v) && Clusters(g, cl) && t < |Listing(g, v, cl)|
  {
    && HasSet(g, v, cl, NodeOf(h, Listing(g, v, cl)[t]), es)
    && Lists(g.clusterCount, DirSlots(g, v, cl), t, k, es, Listing(g, v, cl)[t])
  }

  /** Every file that a scan delivers can be found again by its offset and count. */
  lemma ListedStands(g: Geometry, v: View, cl: seq<nat>, h: Handle, t: nat) returns (k: nat, es: seq<Byte>)
    requires Layout(g) && Shaped(g, v) && Clusters(g, cl) && t < |Listing(g, v, cl)|
    ensures Stands(g, v, cl, h, t, k, es)
  {
    hide Multiples, Places, Addresses, Shaped, ByteAt, DirSlots, Run, Visit, Parse, Opens;
    k, es := Listed(g.clusterCount, DirSlots(g, v, cl), t);
    var node := Listing(g, v, cl)[t];
    OpensSize(es, node.count);
    CoveredSlots(g, v, cl, k, es, node.count);
  }

  lemma CoveredSlots(g: Geometry, v: View, cl: seq<nat>, k: nat, es: seq<Byte>, count: nat)
    requires Layout(g) && Shaped(g, v) && Clusters(g, cl) && SetAt(DirSlots(g, v, cl), k, es, count)
    ensures 32 * k + 32 * count <= g.capacity[|cl|] && es == BytesAt(g, v, cl, 32 * k, 32 * count)
  {
    hide Multiples, Places, Addresses, Shaped, ByteAt;
    forall i | 0 <= i < 32 * count
      ensures 32 * k + i < g.capacity[|cl|] && es[i] == ByteAt(g, v, cl, 32 * k + i)
    {
      var j := i / 32;
      assert DirSlots(g, v, cl)[k + j] == es[32 * j..32 * j + 32];
      assert SlotOf(g, v, cl, k + j)[i - 32 * j] == ByteAt(g, v, cl, 32 * (k + j) + (i - 32 * j));
    }
  }

  /** From v to w the set of file number t of the listing has been changed to say now. */
  ghost predicate Rewritten(g: Geometry, v: View, w: View, pcl: seq<nat>, h: Handle, t: nat, es: seq<Byte>,
                            now: Handle) {
    && Layout(g) && Shaped(g, v) && Shaped(g, w) && Clusters(g, pcl) && t < |Listing(g, v, pcl)|
    && (var node := NodeOf(h, Listing(g, v, pcl)[t]);
        && HasSet(g, v, pcl, node, es)
        && SetNow(g, v, w, pcl, node, UpdateStream(es, node.count, now.first, now.length, now.length, now.contiguous)))
  }

  /** The listing in w is that in v, with the stream of file number t as now says. */
  ghost predicate ListsAs(g: Geometry, v: View, w: View, pcl: seq<nat>, t: nat, now: Handle) {
    && Layout(g) && Shaped(g, v) && Shaped(g, w) && Clusters(g, pcl) && t < |Listing(g, v, pcl)|
    && (var n := Listing(g, v, pcl)[t];
        Listing(g, w, pcl) == Listing(g, v, pcl)[t := n.(record := n.record.(
          first := now.first, length := now.length, validLength := now.length, contiguous := now.contiguous))])
  }

  /** After a committed overwrite the directory lists the same files in the same order; the overwritten
      one now has the new first cluster and length, and reading it gives the new bytes. */
  lemma OverwriteVisible(g: Geometry, bm: seq<nat>, v: View, w: View, pcl: seq<nat>, h: Handle, t: nat, es: seq<Byte>,
                         clusters: seq<nat>, data: seq<Byte>)
    requires Stored(g, bm, v, w, clusters, data) && |clusters| == (if data == [] then 0 else ClustersFor(g, |data|))
    requires |data| < 0x1_0000_0000_0000_0000
    requires Rewritten(g, v, w, pcl, h, t, es, Handle(if |clusters| == 0 then 0 else clusters[0], false, |data|))
    ensures ListsAs(g, v, w, pcl, t, Handle(if |clusters| == 0 then 0 else clusters[0], false, |data|))
    ensures TidyDir(g, v, pcl) ==> TidyDir(g, w, pcl)
    ensures |clusters| > 0 ==> StreamIs(g, w, clusters[0], false, clusters) && |data| <= g.capacity[|clusters|]
    ensures |clusters| == 0 ==> data == []
    ensures FileBytes(g, w, clusters, |data|, |data|) == data
  {
    hide Multiples, Places, Addresses, Capacities, Shaped, Stored, FileBytes, StreamIs, Listing, TidyDir, ClustersFor,
         UpdateStream, Rewritten, ListsAs;
    StoredFits(g, bm, v, w, clusters, data);
    StoredReadsBack(g, bm, v, w, clusters, data);
    StoredFirst(g, bm, v, w, clusters, data);
    UpdateVisible(g, v, w, pcl, h, t, es, Handle(if |clusters| == 0 then 0 else clusters[0], false, |data|));
  }

  lemma StoredFits(g: Geometry, bm: seq<nat>, v: View, w: View, clusters: seq<nat>, data: seq<Byte>)
    requires Stored(g, bm, v, w, clusters, data) && |clusters| == (if data == [] then 0 else ClustersFor(g, |data|))
    ensures (|clusters| == 0 <==> data == []) && (|clusters| > 0 ==> |data| <= g.capacity[|clusters|])
  {
    hide Multiples, Places, Addresses, BitmapIs, Live, Holds, Linked;
    CountZero(g, |clusters|, data);
    if data != [] {
      ClustersForFits(g, |data|);
    }
  }

  /** Rewriting the stream fields of one file, as overwriting a file and growing a directory do. */
  lemma UpdateVisible(g: Geometry, v: View, w: View, pcl: seq<nat>, h: Handle, t: nat, es: seq<Byte>, now: Handle)
    requires Rewritten(g, v, w, pcl, h, t, es, now)
    requires now.first < 0x1_0000_0000 && now.length < 0x1_0000_0000_0000_0000
    requires now.length != 0 ==> ValidCluster(g, now.first)
    ensures ListsAs(g, v, w, pcl, t, now)
    ensures TidyDir(g, v, pcl) ==> TidyDir(g, w, pcl)
  {
    hide Multiples, Places, Addresses, Capacities, Shaped, DirSlots, Parse, Run, Visit, Overlaid, BytesAt, Opens,
         UpdateStream, SetAt, Tidy;
    var k, es1 := ListedStands(g, v, pcl, h, t);
    var n := Listing(g, v, pcl)[t];
    var node := NodeOf(h, n);
    var es' := UpdateStream(es, node.count, now.first, now.length, now.length, now.contiguous);
    SlotsReplaced(g, v, w, pcl, node, k, es, es');
    VisitUpdated(g.clusterCount, DirSlots(g, v, pcl), DirSlots(g, w, pcl), k, es, node.count, now.first, now.length,
                 now.length, now.contiguous);
    if TidyDir(g, v, pcl) {
      UpdatedTypes(es, node.count, now);
      ParseUpdated(g.clusterCount, es, node.count, 32 * k, now.first, now.length, now.length, now.contiguous);
      OpensUpdated(es, node.count, now.first, now.length, now.length, now.contiguous);
      TidyUpdated(g.clusterCount, DirSlots(g, v, pcl), DirSlots(g, w, pcl), k, es, es', node.count, n,
                  Parse(g.clusterCount, es', node.count, 32 * k).value);
    }
  }

  lemma UpdatedTypes(es: seq<Byte>, count: nat, now: Handle)
    requires |es| == 32 * count && 3 <= count <= 19 && now.first < 0x1_0000_0000 && now.length < 0x1_0000_0000_0000_0000
    ensures var es' := UpdateStream(es, count, now.first, now.length, now.length, now.contiguous);
            forall j :: 0 <= j < count ==> es'[32 * j] == es[32 * j]
  {
    hide U16, U32, U64, Checksum, UpdateStream;
    UpdateStreamFields(es, count, now.first, now.length, now.length, now.contiguous);
  }

  lemma StoredFirst(g: Geometry, bm: seq<nat>, v: View, w: View, clusters: seq<nat>, data: seq<Byte>)
    requires Stored(g, bm, v, w, clusters, data)
    ensures |clusters| > 0 ==> 2 <= clusters[0] < g.clusterCount + 2 && clusters[0] < 0x1_0000_0000
    ensures Shaped(g, w)
  {
  }

  /** After a committed deletion the directory lists the other files, in the same order, if and only if
      the deleted set held no entry of type 0x80 or was the last; otherwise the later ones are gone.  In a
      tidy directory there is no such entry. */
  lemma DeletionVisible(g: Geometry, v: View, w: View, pcl: seq<nat>, h: Handle, t: nat, es: seq<Byte>)
    requires Layout(g) && Shaped(g, v) && Shaped(g, w) && Clusters(g, pcl) && t < |Listing(g, v, pcl)|
    requires var node := NodeOf(h, Listing(g, v, pcl)[t]);
             HasSet(g, v, pcl, node, es) && SetNow(g, v, w, pcl, node, Retire(es, node.count))
    ensures var a, b, count := Listing(g, v, pcl), Listing(g, w, pcl), Listing(g, v, pcl)[t].count;
            && b == a[..t] + (if HoldsMark(es, count) then [] else a[t + 1..])
            && (b == a[..t] + a[t + 1..] <==> !HoldsMark(es, count) || t + 1 == |a|)
    ensures TidyDir(g, v, pcl) ==> TidyDir(g, w, pcl) && !HoldsMark(es, Listing(g, v, pcl)[t].count)
  {
    hide Multiples, Places, Addresses, Capacities, Shaped, DirSlots, Parse, Run, Visit, Overlaid, BytesAt, Opens,
         SetAt, HoldsMark, Tidy;
    var k, es1 := ListedStands(g, v, pcl, h, t);
    var n := Listing(g, v, pcl)[t];
    SlotsReplaced(g, v, w, pcl, NodeOf(h, n), k, es, Retire(es, n.count));
    VisitRetired(g.clusterCount, DirSlots(g, v, pcl), DirSlots(g, w, pcl), k, es, n.count, n);
    if TidyDir(g, v, pcl) {
      TidySet(g.clusterCount, DirSlots(g, v, pcl), k, es, n.count);
      TidyRetired(g.clusterCount, DirSlots(g, v, pcl), DirSlots(g, w, pcl), k, es, n.count, n);
    }
  }

  /** Clusters gained by a directory add slots of type 0. */
  lemma GainedSlots(g: Geometry, v: View, w: View, cl: seq<nat>, cl': seq<nat>)
    requires Gained(g, v, w, cl, cl')
    ensures var a, b := DirSlots(g, v, cl), DirSlots(g, w, cl');
            && |a| <= |b| && b == a + b[|a|..] && forall i :: |a| <= i < |b| ==> b[i][0] == 0
  {
    hide Multiples, Places, Addresses, Shaped, ByteAt;
    var a, b := DirSlots(g, v, cl), DirSlots(g, w, cl');
    forall i | 0 <= i < |b|
      ensures if i < |a| then b[i] == a[i] else b[i][0] == 0
    {
      forall r | 0 <= r < 32
        ensures SlotOf(g, w, cl', i)[r] == ByteAt(g, w, cl', 32 * i + r)
        ensures i < |a| ==> SlotOf(g, v, cl, i)[r] == ByteAt(g, v, cl, 32 * i + r)
      {
      }
      CapacitySlots(g, |cl|);
      if i < |a| {
        assert SlotOf(g, w, cl', i) == SlotOf(g, v, cl, i);
      }
    }
  }

  /** The set was written over slots that were not in use. */
  lemma PutSlots(g: Geometry, v: View, mid: View, w: View, cl: seq<nat>, cl': seq<nat>, slot: nat, es: seq<Byte>,
                 count: nat)
    requires RoomFor(g, v, mid, cl, cl', slot, es) && Placed(g, mid, w, cl', slot, es) && |es| == 32 * count
    ensures Put(DirSlots(g, mid, cl'), DirSlots(g, w, cl'), slot, es, count)
    ensures slot > 0 ==> slot - 1 < |DirSlots(g, mid, cl')| && DirSlots(g, mid, cl')[slot - 1][0] >= 0x80
  {
    hide Multiples, Places, Addresses, Shaped, ByteAt, Gained;
    var a, b := DirSlots(g, mid, cl'), DirSlots(g, w, cl');
    CapacitySlots(g, |cl'|);
    SlotsCover(g, w, cl', slot, es, count);
    forall i | 0 <= i < |a| && !(slot <= i < slot + count)
      ensures a[i] == b[i]
    {
      SlotsSame(g, mid, w, cl', i);
    }
    forall i | 0 <= i < |a|
      ensures a[i][0] == ByteAt(g, mid, cl', 32 * i)
    {
      assert SlotOf(g, mid, cl', i)[0] == ByteAt(g, mid, cl', 32 * i + 0);
    }
    forall i | slot <= i < slot + count
      ensures a[i][0] < 0x80
    {
      assert FreeSlot(g, mid, cl', i);
    }
  }

  /** What a directory lists after a committed creation in it.  The new file is listed if and only if the
      scan reaches its slot while idle; then all files listed before still are, in the same order.  In a
      tidy directory that is always so, no other file appears, and the directory is tidy again. */
  lemma CreationVisible(g: Geometry, v: View, mid: View, w: View, cl: seq<nat>, cl': seq<nat>, slot: nat,
                        es: seq<Byte>, r: Record)
    requires RoomFor(g, v, mid, cl, cl', slot, es) && Placed(g, mid, w, cl', slot, es) && Encodes(es, r)
             && ValidRecord(r)
    requires r.length != 0 ==> ValidCluster(g, r.first)
    ensures var n, a, a', b, u := g.clusterCount, Listing(g, v, cl), DirSlots(g, mid, cl'), Listing(g, w, cl'),
            Node(r, 32 * slot, EntryCount(|r.name|));
            && (u in b <==> IdleAt(n, a', slot))
            && (IdleAt(n, a', slot) ==>
                  var x := Run(n, a', slot).nodes;
                  && x <= a && x + [u] <= b
                  && (if MarkIn(a', slot, slot + EntryCount(|r.name|)) then a == x else b == x + [u] + a[|x|..]))
            && (TidyDir(g, v, cl) ==>
                  && TidyDir(g, w, cl') && IdleAt(n, a', slot)
                  && var t := |Run(n, a', slot).nodes|; t <= |a| && b == a[..t] + [u] + a[t..])
  {
    hide Multiples, Places, Addresses, Capacities, Shaped, DirSlots, Run, Visit, ByteAt, Encodes, Parse, Opens, Tidy,
         MarkIn, IdleAt, Put, EntryCount, Overlaid, FreeRun, Begins;
    var n, count := g.clusterCount, EntryCount(|r.name|);
    EncodedSize(es, r);
    EncodedOpens(es, r);
    EncodedInUse(es, r);
    ParseEncoded(n, es, r, 32 * slot);
    var u := Node(r, 32 * slot, count);
    PutSlots(g, v, mid, w, cl, cl', slot, es, count);
    GainedSlots(g, v, mid, cl, cl');
    var a, a', b := DirSlots(g, v, cl), DirSlots(g, mid, cl'), DirSlots(g, w, cl');
    ListedIff(n, a', b, slot, es, count, u);
    VisitGrown(n, a, a'[|a|..]);
    if IdleAt(n, a', slot) {
      ListedAfterPut(n, a', b, slot, es, count, u);
    }
    if TidyDir(g, v, cl) {
      TidyGrown(n, a, a'[|a|..]);
      TidyCreated(n, a', b, slot, es, count, u);
    }
  }

  lemma EncodedInUse(es: seq<Byte>, r: Record)
    requires Encodes(es, r)
    ensures |es| == 32 * EntryCount(|r.name|) && forall j :: 0 <= j < EntryCount(|r.name|) ==> es[32 * j] > 0x80
  {
    forall j | 0 <= j < EntryCount(|r.name|)
      ensures es[32 * j] > 0x80
    {
      assert j >= 2 ==> es[32 * j] == ENTRY_NAME;
    }
  }

  /** A chain of live clusters other than those a mutation was entitled to change is still the same
      chain with the same bytes, and its allocation bits are still set. */
  lemma OtherFileKept(g: Geometry, bm: seq<nat>, v: View, w: View, x: set<nat>, first: nat, contiguous: bool,
                      cl: seq<nat>, length: nat, validLength: nat)
    requires Kept(g, bm, v, w, x) && StreamIs(g, v, first, contiguous, cl)
    requires Members(cl) <= Live(g, v, bm) && Members(cl) !! x && BitmapIs(g, w, bm)
             && Live(g, v, bm) - x <= Live(g, w, bm)
    requires validLength <= length && validLength <= g.capacity[|cl|]
    ensures StreamIs(g, w, first, contiguous, cl)
    ensures FileBytes(g, w, cl, length, validLength) == FileBytes(g, v, cl, length, validLength)
    ensures Members(cl) <= Live(g, w, bm)
  {
    hide Multiples, Addresses, Allocated, BitmapIs, Live;
    forall i | 0 <= i < |cl|
      ensures w.fat[cl[i]] == v.fat[cl[i]] && w.heap[cl[i]] == v.heap[cl[i]]
    {
      assert cl[i] in Members(cl);
    }
    forall o | 0 <= o < validLength
      ensures ByteAt(g, w, cl, o) == ByteAt(g, v, cl, o)
    {
      assert g.place[o].q < |cl|;
    }
  }

  /** Clusters of newly stored data are disjoint from every chain that was live before. */
  lemma NewChainApart(g: Geometry, bm: seq<nat>, v: View, w: View, clusters: seq<nat>, data: seq<Byte>, cl: seq<nat>)
    requires Stored(g, bm, v, w, clusters, data) && Members(cl) <= Live(g, v, bm)
    ensures Members(clusters) !! Members(cl) && Members(clusters) <= Live(g, w, bm)
  {
    hide Multiples, Places, Addresses, Allocated, BitmapIs, Shaped, Holds;
  }

  // ----- mutations followed by reading

  /** The closed volume v has a directory h of clusters pcl that lists list; the clusters of the file are fcl. */
  ghost predicate OwnedListed(v: Volume, h: Handle, file: Node, list: seq<Node>, fcl: seq<nat>, pcl: seq<nat>)
    reads v, v.m
  {
    v.Closed() && Owned(v.g, v.V(), v.bm, NodeOf(h, file), fcl, pcl) && IsListing(v.g, v.V(), pcl, list)
  }

  /** Overwrite file number t of a directory, list the directory and read the file.  Without refused
      requests the listing shows the new stream and nothing else new, and the bytes read are the data. */
  method OverwriteThenRead(v: Volume, h: Handle, file: Node, isDirectory: bool, data: seq<Byte>,
                           ghost list: seq<Node>, ghost t: nat, ghost fcl: seq<nat>, ghost pcl: seq<nat>)
    returns (outcome: Outcome, ghost now: Handle, nodes: seq<Node>, out: seq<Byte>)
    requires t < |list| && file == list[t] && |data| < 0x1_0000_0000_0000_0000
             && OwnedListed(v, h, file, list, fcl, pcl)
    modifies v, v.m
    ensures Settled(v, old(v.m.image), outcome)
    ensures outcome.Committed? && v.m.faults == old(v.m.faults) ==>
              && IsListing(v.g, v.V(), pcl, nodes) && out == data
              && nodes == list[t := file.(record := file.record.(
                   first := now.first, length := |data|, validLength := |data|, contiguous := false))]
  {
    hide Multiples, Places, Addresses, Capacities, ViewOf, Undoable, Allocated, BitmapIs, Shaped, Kept, LiveDir,
         Stored, Restored, Clean, Stamped, Percent, HasSet, SetNow, UpdateStream, ClustersFor, StreamIs, Ended, Owned,
         Visit, DirSlots, FileBytes, DirIs;
    nodes, out, now := [], [], h;
    ghost var v0 := v.V();
    var old', clusters;
    ghost var es;
    outcome, old', clusters, es := WriteFile(v, NodeOf(h, file), isDirectory, data, fcl, pcl);
    if !outcome.Committed? {
      return;
    }
    ClosedFits(v, outcome, old(v.m.image));
    StoredFirst(v.g, v.bm, v0, v.V(), clusters, data);
    var first := if |clusters| == 0 then 0 else clusters[0];
    now := Handle(first, false, |data|);
    assert Rewritten(v.g, v0, v.V(), pcl, h, t, es, now);
    OverwriteVisible(v.g, v.bm, v0, v.V(), pcl, h, t, es, clusters, data);
    LiveDirMeans(v.g, v.V(), v.bm, h, pcl);
    var ok;
    ok, nodes := VisitDirectory(v, h, pcl);
    out := ReadFile(v, Handle(first, false, |data|), |data|, |data|, clusters);
  }

  lemma ClosedFits(v: Volume, outcome: Outcome, before: Image)
    requires Settled(v, before, outcome)
    ensures v.Closed() && Layout(v.g) && Fits(v.g, v.m.image)
  {
  }

  /** The directory as a reader finds it after the entry was published: the root by its chain, any other
      with the length that its parent now says. */
  function ReaderOf(dir: FileNode, dir': FileNode): Handle {
    if dir.count == 0 then dir.stream else dir'.stream
  }

  /** Create a file in a tidy directory, list the directory and read the file.  Without refused requests
      all files are still listed in their order, the new one among them, and the bytes read are the data. */
  method CreateThenRead(v: Volume, dir: FileNode, table: seq<nat>, attributes: nat, name: seq<nat>, data: seq<Byte>,
                        ghost list: seq<Node>, ghost cl: seq<nat>, ghost pcl: seq<nat>)
    returns (outcome: Outcome, ghost t: nat, ghost u: Node, nodes: seq<Node>, out: seq<Byte>)
    requires v.Closed() && Usable(v.g, v.V(), v.bm, dir, cl, pcl) && ValidTable(table) && ValidName(name)
    requires attributes < 0x1_0000 && |data| < 0x1_0000_0000_0000_0000 && v.g.clusterSize < 0x1_0000_0000
    requires dir.count == 0 ==> dir.stream.length == 0
    requires IsListing(v.g, v.V(), cl, list) && TidyDir(v.g, v.V(), cl)
    modifies v, v.m
    ensures outcome.Committed? && v.m.faults == old(v.m.faults) ==>
              && t <= |list| && nodes == list[..t] + [u] + list[t..] && out == data
              && u.record == Record(attributes, u.record.first, |data|, |data|, false, name)
  {
    hide Multiples, Places, Addresses, Capacities, ViewOf, Undoable, Allocated, BitmapIs, Shaped, Kept, LiveDir,
         Stored, Restored, Clean, Stamped, Percent, ClustersFor, StreamIs, Ended, Usable, Visit, DirSlots, FileBytes,
         DirIs, Settled, Published, RoomFor, Encodes, Complete, TidyDir;
    nodes, out, t, u := [], [], 0, Node(Record(0, 0, 0, 0, false, []), 0, 0);
    ghost var v0 := v.V();
    var clusters, dir';
    ghost var cl', slot, es, mid;
    outcome, clusters, dir', cl', slot, es, mid := CreateEntry(v, dir, table, attributes, name, data, false, cl, pcl);
    if !outcome.Committed? {
      return;
    }
    ClosedFits(v, outcome, old(v.m.image));
    StoredFirst(v.g, v.bm, v0, v.V(), clusters, data);
    StoredFits(v.g, v.bm, v0, v.V(), clusters, data);
    StoredReadsBack(v.g, v.bm, v0, v.V(), clusters, data);
    var first := if |clusters| == 0 then 0 else clusters[0];
    ghost var r := Record(attributes, first, |data|, |data|, false, name);
    PublishedDir(v.g, v.bm, v0, mid, v.V(), dir, cl, pcl, dir', cl', slot, es);
    if v.m.faults == old(v.m.faults) {
      t := NewListed(v.g, v0, mid, v.V(), cl, cl', slot, es, r);
      u := Node(r, 32 * slot, EntryCount(|r.name|));
    }
    var ok;
    ok, nodes := VisitDirectory(v, ReaderOf(dir, dir'), cl');
    out := ReadFile(v, Handle(first, false, |data|), |data|, |data|, clusters);
  }

  lemma PublishedDir(g: Geometry, bm: seq<nat>, v: View, mid: View, w: View, dir: FileNode, cl: seq<nat>, pcl: seq<nat>,
                     dir': FileNode, cl': seq<nat>, slot: nat, es: seq<Byte>)
    requires Published(g, bm, v, mid, w, dir, cl, pcl, dir', cl', slot, es)
             && (dir.count == 0 ==> dir.stream.length == 0)
    ensures DirIs(g, w, ReaderOf(dir, dir'), cl') && Placed(g, mid, w, cl', slot, es) && Shaped(g, w)
            && Clusters(g, cl')
  {
    hide Multiples, Places, Addresses, Kept, ParentSays, Live;
  }

  lemma NewListed(g: Geometry, v: View, mid: View, w: View, cl: seq<nat>, cl': seq<nat>, slot: nat, es: seq<Byte>,
                  r: Record) returns (t: nat)
    requires RoomFor(g, v, mid, cl, cl', slot, es) && Placed(g, mid, w, cl', slot, es) && Encodes(es, r)
    requires ValidName(r.name) && ValidRecord(r.(name := [0])) && (r.length != 0 ==> ValidCluster(g, r.first))
             && TidyDir(g, v, cl)
    ensures t <= |Listing(g, v, cl)| && TidyDir(g, w, cl')
    ensures Listing(g, w, cl') == Listing(g, v, cl)[..t] + [Node(r, 32 * slot, EntryCount(|r.name|))] +
            Listing(g, v, cl)[t..]
  {
    hide Multiples, Places, Addresses, Shaped, DirSlots, Listing, Run, Encodes, TidyDir, Gained, FreeRun, Begins,
         Overlaid, IdleAt, MarkIn;
    EncodedName(es, r);
    CreationVisible(g, v, mid, w, cl, cl', slot, es, r);
    t := |Run(g.clusterCount, DirSlots(g, mid, cl'), slot).nodes|;
  }

  lemma EncodedName(es: seq<Byte>, r: Record)
    requires Encodes(es, r)
    ensures 1 <= |r.name| <= 255
  {
    hide U16, U32, U64, Checksum, UnitAt;
    assert es[35] == |r.name|;
  }

  /** Delete file number t of a tidy directory and list the directory: without refused requests all other
      files are listed, in their order. */
  method DeleteThenList(v: Volume, h: Handle, file: Node, ghost list: seq<Node>, ghost t: nat, ghost fcl: seq<nat>,
                        ghost pcl: seq<nat>)
    returns (outcome: Outcome, nodes: seq<Node>)
    requires t < |list| && file == list[t] && OwnedListed(v, h, file, list, fcl, pcl)
    requires TidyDir(v.g, v.V(), pcl)
    modifies v, v.m
    ensures Settled(v, old(v.m.image), outcome)
    ensures outcome.Committed? && v.m.faults == old(v.m.faults) ==> nodes == list[..t] + list[t + 1..]
    ensures outcome.Committed? ==> TidyDir(v.g, v.V(), pcl)
  {
    hide Multiples, Places, Addresses, Capacities, ViewOf, Undoable, Allocated, BitmapIs, Shaped, Kept, LiveDir,
         Restored, Clean, Stamped, Percent, HasSet, SetNow, ClustersFor, StreamIs, Ended, Owned, Visit, DirSlots,
         DirIs, TidyDir, Retire, HoldsMark;
    nodes := [];
    ghost var v0 := v.V();
    var clusters;
    ghost var es;
    outcome, clusters, es := DeleteEntry(v, NodeOf(h, file), fcl, pcl);
    if !outcome.Committed? {
      return;
    }
    ClosedFits(v, outcome, old(v.m.image));
    SetShapes(v.g, v0, v.V(), pcl, NodeOf(h, file), es);
    DeletionVisible(v.g, v0, v.V(), pcl, h, t, es);
    LiveDirMeans(v.g, v.V(), v.bm, h, pcl);
    var ok;
    ok, nodes := VisitDirectory(v, h, pcl);
  }

  lemma SetShapes(g: Geometry, v: View, w: View, pcl: seq<nat>, node: FileNode, es: seq<Byte>)
    requires HasSet(g, v, pcl, node, es) && SetNow(g, v, w, pcl, node, Retire(es, node.count))
    ensures Layout(g) && Shaped(g, v) && Shaped(g, w) && Clusters(g, pcl) && |es| == 32 * node.count
  {
  }
}
