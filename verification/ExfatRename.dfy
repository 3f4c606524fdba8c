/** Renaming on an exFAT volume: publish the new entry, look the source up again, retire it. */
module ExfatRename {
  import Arithmetic
  import opened Bytes
  import opened VolumeLayout
  import opened ExfatLayout
  import opened ExfatVolume
  import opened ExfatClusters
  import opened ExfatEntries
  import opened ExfatListing
  import opened ExfatDirectory
  import opened ExfatMutation
  import opened ExfatReading

  /** Where the renamed file is: in the target directory itself, in the directory that holds the target
      directory, or in a directory apart from both. */
  datatype Source = Here | Above | Elsewhere(directory: Handle)

  /** The directory of the source while the target directory is dir.  The root is always looked up with
      an unrecorded length, every other directory as its parent's entry says. */
  function SourceOf(source: Source, root: Handle, dir: FileNode): Handle {
    match source
    case Here => if dir.count == 0 then root else dir.stream
    case Above => dir.parent
    case Elsewhere(h) => h
  }

  ghost function ClustersOf(source: Source, cl: seq<nat>, pcl: seq<nat>, scl: seq<nat>): seq<nat> {
    match source
    case Here => cl
    case Above => pcl
    case Elsewhere(h) => scl
  }

  /** The last step of resolve_path: the first file with that name. */
  method Lookup(v: Volume, h: Handle, table: seq<nat>, name: seq<nat>, ghost cl: seq<nat>)
    returns (found: bool, node: FileNode, record: Record, ghost t: nat)
    requires Layout(v.g) && Fits(v.g, v.m.image) && DirIs(v.g, v.V(), h, cl) && ValidTable(table)
    modifies v.m`faults
    ensures v.m.faults >= old(v.m.faults) && t == Found(table, Listing(v.g, v.V(), cl), name)
    ensures FirstNamed(table, Listing(v.g, v.V(), cl), name, t)
    ensures found ==> t < |Listing(v.g, v.V(), cl)| && node == NodeOf(h, Listing(v.g, v.V(), cl)[t])
                      && record == Listing(v.g, v.V(), cl)[t].record
    ensures found ==> node.stream == Handle(record.first, record.contiguous, record.length) && node.parent == h
                      && node.offset == Listing(v.g, v.V(), cl)[t].offset
                         && node.count == Listing(v.g, v.V(), cl)[t].count
    ensures !found && v.m.faults == old(v.m.faults) ==> t == |Listing(v.g, v.V(), cl)|
  {
    hide Multiples, Places, Addresses, ViewOf, Shaped, DirIs, DirSlots, Visit, SameName, Found, FirstNamed;
    record, node := Record(0, 0, 0, 0, false, []), FileNode(h, h, 0, 0);
    DirStands(v.g, v.V(), h, cl);
    ghost var list := Listing(v.g, v.V(), cl);
    t := Found(table, list, name);
    FoundFirst(table, list, name);
    var ok, nodes := VisitDirectory(v, h, cl);
    found := false;
    var i := 0;
    while i < |nodes|
      invariant i <= |nodes| && forall j :: 0 <= j < i ==> !SameName(table, nodes[j].record.name, name)
    {
      if SameName(table, nodes[i].record.name, name) {
        FoundOnce(table, list, name, i);
        found, node, record := ok, NodeOf(h, nodes[i]), nodes[i].record;
        return;
      }
      i := i + 1;
    }
    if v.m.faults == old(v.m.faults) {
      FoundOnce(table, list, name, |list|);
    }
  }

  lemma ListedRecord(g: Geometry, v: View, cl: seq<nat>, t: nat)
    requires Layout(g) && Shaped(g, v) && Clusters(g, cl) && t < |Listing(g, v, cl)|
    ensures ValidRecord(Listing(g, v, cl)[t].record.(name := [0]))
    ensures Listing(g, v, cl)[t].record.length != 0 ==> ValidCluster(g, Listing(g, v, cl)[t].record.first)
  {
    hide Multiples, Places, Addresses, Shaped, DirSlots, Run, Checksum, NameUnits;
    var k, es := Listed(g.clusterCount, DirSlots(g, v, cl), t);
  }

  /** The target directory can be searched and extended, and the source lies in one of its places. */
  ghost predicate Renamable(g: Geometry, v: View, bm: seq<nat>, source: Source, dir: FileNode, cl: seq<nat>,
                            pcl: seq<nat>, scl: seq<nat>)
    requires Layout(g)
  {
    && Usable(g, v, bm, dir, cl, pcl) && (dir.count == 0 ==> dir.stream.length == 0)
       && (source.Above? ==> dir.count != 0)
    && (source.Elsewhere? ==> LiveDir(g, v, bm, source.directory, scl) && Members(scl) !! DirSpace(bm, dir, cl, pcl))
  }

  lemma SourceBefore(g: Geometry, v: View, bm: seq<nat>, source: Source, dir: FileNode, cl: seq<nat>, pcl: seq<nat>,
                     scl: seq<nat>)
    requires Layout(g) && Renamable(g, v, bm, source, dir, cl, pcl, scl)
    ensures LiveDir(g, v, bm, SourceOf(source, dir.stream, dir), ClustersOf(source, cl, pcl, scl))
    ensures LiveDir(g, v, bm, dir.stream, cl) && Sound(g, v, bm)
  {
    hide Multiples, Places, Addresses, LiveDir, ClustersFor;
  }

  /** A directory that a mutation was not entitled to change is still the same. */
  lemma OtherDirKept(g: Geometry, bm: seq<nat>, v: View, w: View, x: set<nat>, h: Handle, cl: seq<nat>)
    requires Kept(g, bm, v, w, x) && LiveDir(g, v, bm, h, cl) && Members(cl) !! x
    requires BitmapIs(g, w, bm) && Live(g, v, bm) <= Live(g, w, bm)
    ensures LiveDir(g, w, bm, h, cl) && SameDir(g, v, w, cl)
  {
    hide Multiples, Addresses, Allocated, BitmapIs, Live;
    forall i | 0 <= i < |cl|
      ensures w.fat[cl[i]] == v.fat[cl[i]] && w.heap[cl[i]] == v.heap[cl[i]]
    {
      assert cl[i] in Members(cl);
    }
    forall o | 0 <= o < g.capacity[|cl|]
      ensures ByteAt(g, w, cl, o) == ByteAt(g, v, cl, o)
    {
      assert g.place[o].q < |cl|;
    }
  }

  /** After the new entry has been published the source's directory is where path resolution looks for it. */
  lemma SourceAfter(g: Geometry, bm: seq<nat>, v: View, mid: View, w: View, source: Source, dir: FileNode,
                    cl: seq<nat>, pcl: seq<nat>, scl: seq<nat>, dir': FileNode, cl': seq<nat>, slot: nat, es: seq<Byte>)
    requires Published(g, bm, v, mid, w, dir, cl, pcl, dir', cl', slot, es)
             && Renamable(g, v, bm, source, dir, cl, pcl, scl)
    ensures LiveDir(g, w, bm, SourceOf(source, dir.stream, dir'), ClustersOf(source, cl', pcl, scl))
    ensures Usable(g, w, bm, dir', cl', pcl)
  {
    hide Multiples, Places, Addresses, LiveDir, ClustersFor, Kept, ParentSays, Placed, Live, BitmapIs;
    if source.Elsewhere? {
      OtherDirKept(g, bm, v, w, DirSpace(bm, dir, cl, pcl), source.directory, scl);
    }
  }

  /** From v over mid and pub to w: the file that src names has been published once more under the name
      leaf, and the file that src names after that has been retired. */
  ghost predicate Renamed(g: Geometry, bm: seq<nat>, v: View, mid: View, pub: View, w: View, table: seq<nat>,
                          source: Source, src: seq<nat>, leaf: seq<nat>, record: Record, dir: FileNode, cl: seq<nat>,
                          pcl: seq<nat>, scl: seq<nat>, dir': FileNode, cl': seq<nat>, slot: nat, es: seq<Byte>,
                          es': seq<Byte>)
    requires Layout(g) && ValidTable(table)
  {
    && Published(g, bm, v, mid, pub, dir, cl, pcl, dir', cl', slot, es)
    && Encodes(es, record.(name := leaf)) && Complete(table, es, record.(name := leaf))
    && NameTaken(g, v, table, src, ClustersOf(source, cl, pcl, scl), record)
    && Gone(g, bm, pub, w, table, src, SourceOf(source, dir.stream, dir'), ClustersOf(source, cl', pcl, scl), es')
    && Usable(g, w, bm, dir', cl', pcl)
  }

  /** From v to w the file that src names has been retired, and nothing else happened. */
  ghost predicate Gone(g: Geometry, bm: seq<nat>, v: View, w: View, table: seq<nat>, src: seq<nat>, h: Handle,
                       sc: seq<nat>, es: seq<Byte>)
    requires ValidTable(table)
  {
    && Layout(g) && LiveDir(g, v, bm, h, sc) && LiveDir(g, w, bm, h, sc) && Within(g, v, w, {}, Members(sc))
    && Live(g, w, bm) == Live(g, v, bm)
    && (var t := Found(table, Listing(g, v, sc), src);
        && t < |Listing(g, v, sc)|
        && (var node := NodeOf(h, Listing(g, v, sc)[t]);
            HasSet(g, v, sc, node, es) && SetNow(g, v, w, sc, node, Retire(es, node.count))))
  }

  /** Usability survives changes of contents outside the bitmap. */
  lemma UsableKept(g: Geometry, v: View, w: View, bm: seq<nat>, dir: FileNode, cl: seq<nat>, pcl: seq<nat>,
                   hs: set<nat>)
    requires Layout(g) && Usable(g, v, bm, dir, cl, pcl) && Within(g, v, w, {}, hs) && hs !! Members(bm) && Shaped(g, w)
    ensures Usable(g, w, bm, dir, cl, pcl)
  {
    hide Multiples, Places, Addresses, LiveDir, ClustersFor, Live, BitmapIs, Within;
    BitmapKept(g, v, w, {}, hs, bm);
    LiveDirMeans(g, v, bm, dir.stream, cl);
    LiveDirKept(g, v, w, {}, hs, bm, dir.stream, cl);
    if dir.count != 0 {
      LiveDirMeans(g, v, bm, dir.parent, pcl);
      LiveDirKept(g, v, w, {}, hs, bm, dir.parent, pcl);
    }
  }

  /** No file of the directory has that name. */
  ghost predicate Missing(g: Geometry, v: View, table: seq<nat>, name: seq<nat>, cl: seq<nat>)
    requires ValidTable(table)
  {
    && Layout(g) && Shaped(g, v) && Clusters(g, cl)
    && Found(table, Listing(g, v, cl), name) == |Listing(g, v, cl)|
  }

  lemma InsideWhenListed(g: Geometry, v: View, cl: seq<nat>, h: Handle, t: nat)
    requires Layout(g) && Shaped(g, v) && Clusters(g, cl) && t < |Listing(g, v, cl)|
    ensures SetInside(g, cl, NodeOf(h, Listing(g, v, cl)[t]))
  {
    hide Multiples, Places, Addresses, Shaped, Listing, BytesAt;
    var k, es := ListedStands(g, v, cl, h, t);
  }

  /** Look the source up and retire it. */
  method RetireSource(v: Volume, table: seq<nat>, src: seq<nat>, h: Handle, ghost sc: seq<nat>)
      returns (ok: bool, ghost es: seq<Byte>)
    requires v.Open() && Sound(v.g, v.V(), v.bm) && LiveDir(v.g, v.V(), v.bm, h, sc) && ValidTable(table)
    modifies v`journal, v`full, v.m
    ensures v.Open() && v.m.faults >= old(v.m.faults) && Sound(v.g, v.V(), v.bm)
    ensures Live(v.g, v.V(), v.bm) == old(Live(v.g, v.V(), v.bm))
    ensures ok ==> Gone(v.g, v.bm, old(v.V()), v.V(), table, src, h, sc, es)
    ensures !ok ==> Missing(v.g, old(v.V()), table, src, sc) || v.Hindered(old(v.m.faults))
  {
    hide Multiples, Places, Addresses, Capacities, ViewOf, Undoable, Allocated, BitmapIs, Shaped, LiveDir, DirIs,
         Overlaid, BytesAt, Retire, Within, Listing, Found, SetInside;
    es := [];
    ghost var v0 := v.V();
    LiveDirMeans(v.g, v0, v.bm, h, sc);
    DirStands(v.g, v0, h, sc);
    var found, node, record, t := Lookup(v, h, table, src, sc);
    if !found {
      return false, es;
    }
    InsideWhenListed(v.g, v0, sc, h, t);
    ok := RetireEntry(v, node, sc);
    BitmapKept(v.g, v0, v.V(), {}, Members(sc), v.bm);
    LiveDirKept(v.g, v0, v.V(), {}, Members(sc), v.bm, h, sc);
    if ok {
      es := BytesAt(v.g, v0, sc, node.offset, 32 * node.count);
    }
  }

  /** What is checked before the transaction: the source exists, the destination does not, and no
      directory is moved into itself. */
  method CheckNames(v: Volume, table: seq<nat>, source: Source, src: seq<nat>, dir: FileNode, leaf: seq<nat>,
                    inside: bool, ghost cl: seq<nat>, ghost pcl: seq<nat>, ghost scl: seq<nat>)
                    returns (ok: bool, record: Record)
    requires v.Closed() && Renamable(v.g, v.V(), v.bm, source, dir, cl, pcl, scl) && ValidTable(table)
    modifies v.m`faults
    ensures v.m.faults >= old(v.m.faults)
    ensures ok ==> NameTaken(v.g, v.V(), table, src, ClustersOf(source, cl, pcl, scl), record)
    ensures ok && source.Here? && v.m.faults == old(v.m.faults) ==> !SameName(table, leaf, src)
    ensures ok && v.m.faults == old(v.m.faults) ==> Missing(v.g, v.V(), table, leaf, cl)
    ensures !ok ==> Unnamed(v.g, v.V(), table, source, src, leaf, inside, cl, pcl, scl) || v.m.faults > old(v.m.faults)
  {
    hide Multiples, Places, Addresses, Capacities, ViewOf, Undoable, Allocated, BitmapIs, Shaped, LiveDir, DirIs,
         Listing, Found, Renamable, SameName, ValidRecord;
    SourceBefore(v.g, v.V(), v.bm, source, dir, cl, pcl, scl);
    ghost var sc := ClustersOf(source, cl, pcl, scl);
    var h := SourceOf(source, dir.stream, dir);
    LiveDirMeans(v.g, v.V(), v.bm, h, sc);
    LiveDirMeans(v.g, v.V(), v.bm, dir.stream, cl);
    DirStands(v.g, v.V(), h, sc);
    DirStands(v.g, v.V(), dir.stream, cl);
    var node;
    ghost var t;
    ok, node, record, t := Lookup(v, h, table, src, sc);
    if !ok {
      return;
    }
    var present, other, otherRecord, t' := Lookup(v, dir.stream, table, leaf, cl);
    ok := !present && !(record.attributes / 16 % 2 == 1 && inside);
    if ok && source.Here? && v.m.faults == old(v.m.faults) {
      NamesDiffer(v.g, v.V(), table, src, leaf, cl);
    }
    ListedRecord(v.g, v.V(), sc, t);
  }

  /** What the driver refuses: no source, a file that has the new name, or a directory moved into itself. */
  ghost predicate Unnamed(g: Geometry, v: View, table: seq<nat>, source: Source, src: seq<nat>, leaf: seq<nat>,
                          inside: bool, cl: seq<nat>, pcl: seq<nat>, scl: seq<nat>)
    requires ValidTable(table)
  {
    || Missing(g, v, table, src, ClustersOf(source, cl, pcl, scl)) || !Missing(g, v, table, leaf, cl)
    || (inside && exists record :: NameTaken(g, v, table, src, ClustersOf(source, cl, pcl, scl), record)
                                   && record.attributes / 16 % 2 == 1)
  }

  /** The record of the file that src names. */
  ghost predicate NameTaken(g: Geometry, v: View, table: seq<nat>, src: seq<nat>, sc: seq<nat>, record: Record)
    requires ValidTable(table)
  {
    && Layout(g) && Shaped(g, v) && Clusters(g, sc) && ValidRecord(record.(name := [0]))
    && (record.length != 0 ==> ValidCluster(g, record.first))
    && (var t := Found(table, Listing(g, v, sc), src); t < |Listing(g, v, sc)| && record == Listing(g, v, sc)[t].record)
  }

  /** Once the new entry has been published, the source is not found any more. */
  ghost predicate Lost(g: Geometry, bm: seq<nat>, v: View, mid: View, pub: View, table: seq<nat>, source: Source,
                       src: seq<nat>, leaf: seq<nat>, record: Record, dir: FileNode, cl: seq<nat>, pcl: seq<nat>,
                       scl: seq<nat>, dir': FileNode, cl': seq<nat>, slot: nat, es: seq<Byte>)
    requires ValidTable(table)
  {
    && Published(g, bm, v, mid, pub, dir, cl, pcl, dir', cl', slot, es) && RoomFor(g, v, mid, cl, cl', slot, es)
    && Encodes(es, record.(name := leaf)) && NameTaken(g, v, table, src, ClustersOf(source, cl, pcl, scl), record)
    && Missing(g, pub, table, src, ClustersOf(source, cl', pcl, scl))
  }

  /** Rename a file or directory.  inside says that a directory would be moved into itself. */
  method Rename(v: Volume, table: seq<nat>, source: Source, src: seq<nat>, dir: FileNode, leaf: seq<nat>, inside: bool,
                ghost cl: seq<nat>, ghost pcl: seq<nat>, ghost scl: seq<nat>)
    returns (outcome: Outcome, record: Record, dir': FileNode, ghost cl': seq<nat>, ghost slot: nat,
             ghost es: seq<Byte>, ghost es': seq<Byte>, ghost mid: View, ghost pub: View)
    requires v.Closed() && Renamable(v.g, v.V(), v.bm, source, dir, cl, pcl, scl) && ValidTable(table)
             && ValidName(leaf)
    modifies v, v.m
    ensures Settled(v, old(v.m.image), outcome) && v.m.faults >= old(v.m.faults)
    ensures outcome.Committed? ==>
              Renamed(v.g, v.bm, old(v.V()), mid, pub, v.V(), table, source, src, leaf, record, dir, cl, pcl, scl,
                      dir', cl', slot, es, es')
    ensures outcome.Committed? && (dir.stream.length > 0 || v.m.faults == old(v.m.faults)) ==>
              RoomFor(v.g, old(v.V()), mid, cl, cl', slot, es)
    ensures outcome.Committed? && source.Here? && v.m.faults == old(v.m.faults) ==> !SameName(table, leaf, src)
    ensures outcome.Committed? && v.m.faults == old(v.m.faults) ==> Missing(v.g, old(v.V()), table, leaf, cl)
    ensures outcome.Refused? ==> || Unnamed(v.g, old(v.V()), table, source, src, leaf, inside, cl, pcl, scl)
                                 || v.m.faults > old(v.m.faults)
    ensures outcome.RolledBack? ==>
              || !(1 <= |leaf| <= 255) || NoPlace(v.g, old(v.V()), v.bm, dir, pcl, 0, |leaf|)
                 || v.Hindered(old(v.m.faults))
              || Lost(v.g, v.bm, old(v.V()), mid, pub, table, source, src, leaf, record, dir, cl, pcl, scl, dir', cl',
                      slot, es)
  {
    hide Multiples, Places, Addresses, Capacities, ViewOf, Undoable, Allocated, BitmapIs, Shaped, LiveDir, DirIs,
         Within, Listing, Found, Published, Encodes, Complete, RoomFor, Gone, Usable, Renamable, SameName, Restored,
         Clean, Stamped, Percent, NameTaken, NoPlace, Missing, Unnamed;
    ghost var v0 := v.V();
    dir', cl', slot, es, es', mid, pub := dir, cl, 0, [], [], v0, v0;
    outcome := Refused;
    SourceBefore(v.g, v0, v.bm, source, dir, cl, pcl, scl);
    var ok;
    ok, record := CheckNames(v, table, source, src, dir, leaf, inside, cl, pcl, scl);
    if !ok {
      return;
    }
    var restored;
    ok, restored := v.Begin();
    if !ok {
      outcome := RolledBack(restored);
      return;
    }
    TakenRecord(v.g, v0, table, src, ClustersOf(source, cl, pcl, scl), record);
    ReadyNow(v, v0, source, dir, cl, pcl, scl);
    ok, dir', cl', slot, es, mid := PublishEntry(v, dir, table, record.(name := leaf), cl, pcl);
    if ok {
      pub := v.V();
      SourceAfter(v.g, v.bm, v0, mid, pub, source, dir, cl, pcl, scl, dir', cl', slot, es);
      ghost var sc' := ClustersOf(source, cl', pcl, scl);
      ok, es' := RetireSource(v, table, src, SourceOf(source, dir.stream, dir'), sc');
      if ok {
        GoneKeeps(v.g, v.bm, pub, v.V(), table, src, SourceOf(source, dir.stream, dir'), sc', es', dir', cl', pcl);
      }
    }
    if ok {
      ok, restored := Commit(v);
    } else {
      restored := v.Rollback();
    }
    if ok {
      var verified: bool := *;
      outcome := Committed(verified);
    } else {
      outcome := RolledBack(restored);
    }
  }

  lemma ReadyNow(v: Volume, v0: View, source: Source, dir: FileNode, cl: seq<nat>, pcl: seq<nat>, scl: seq<nat>)
    requires v.Open() && v.V() == v0 == ViewOf(v.g, v.base) && Renamable(v.g, v0, v.bm, source, dir, cl, pcl, scl)
    ensures Ready(v, dir, cl, pcl)
  {
    hide Multiples, Places, Addresses, LiveDir, ClustersFor, Undoable, Allocated, ViewOf;
  }

  lemma TakenRecord(g: Geometry, v: View, table: seq<nat>, src: seq<nat>, sc: seq<nat>, record: Record)
    requires ValidTable(table) && NameTaken(g, v, table, src, sc, record)
    ensures ValidRecord(record.(name := [0])) && (record.length != 0 ==> ValidCluster(g, record.first))
  {
  }

  /** Two files of one list, found under different names, have different names. */
  lemma NamesDiffer(g: Geometry, v: View, table: seq<nat>, src: seq<nat>, leaf: seq<nat>, cl: seq<nat>)
    requires Layout(g) && Shaped(g, v) && Clusters(g, cl) && ValidTable(table)
    requires Found(table, Listing(g, v, cl), src) < |Listing(g, v, cl)|
    requires Found(table, Listing(g, v, cl), leaf) == |Listing(g, v, cl)|
    ensures !SameName(table, leaf, src)
  {
    hide Listing, Folded;
  }

  lemma GoneKeeps(g: Geometry, bm: seq<nat>, v: View, w: View, table: seq<nat>, src: seq<nat>, h: Handle,
                  sc: seq<nat>, es: seq<Byte>, dir: FileNode, cl: seq<nat>, pcl: seq<nat>)
    requires ValidTable(table) && Gone(g, bm, v, w, table, src, h, sc, es) && Usable(g, v, bm, dir, cl, pcl)
    ensures Usable(g, w, bm, dir, cl, pcl)
  {
    hide Multiples, Places, Addresses, Capacities, ClustersFor, Live, Within, Listing, Found, HasSet, SetNow, ByteAt;
    UsableKept(g, v, w, bm, dir, cl, pcl, Members(sc));
  }

  // ----- what a reader sees after a rename

  lemma SameListing(g: Geometry, v: View, w: View, cl: seq<nat>)
    requires SameDir(g, v, w, cl)
    ensures DirSlots(g, w, cl) == DirSlots(g, v, cl) && Listing(g, w, cl) == Listing(g, v, cl)
  {
    hide Multiples, Places, Addresses, Shaped, ByteAt;
    forall i | 0 <= i < |DirSlots(g, v, cl)|
      ensures DirSlots(g, w, cl)[i] == DirSlots(g, v, cl)[i]
    {
      SlotsSame(g, v, w, cl, i);
    }
  }

  /** Everything outside the directories involved and the bitmap is as it was and still allocated, so the
      renamed file and every other file keep their clusters and their bytes. */
  lemma RenameKeeps(g: Geometry, bm: seq<nat>, v: View, mid: View, pub: View, w: View, table: seq<nat>,
                    source: Source, src: seq<nat>, leaf: seq<nat>, record: Record, dir: FileNode, cl: seq<nat>,
                    pcl: seq<nat>, scl: seq<nat>, dir': FileNode, cl': seq<nat>, slot: nat, es: seq<Byte>,
                    es': seq<Byte>)
    requires Layout(g) && ValidTable(table)
    requires Renamed(g, bm, v, mid, pub, w, table, source, src, leaf, record, dir, cl, pcl, scl, dir', cl', slot, es,
                     es')
    ensures BitmapIs(g, v, bm) && Sound(g, w, bm) && Live(g, v, bm) <= Live(g, w, bm)
    ensures Kept(g, bm, v, w, DirSpace(bm, dir, cl, pcl) + Members(ClustersOf(source, cl', pcl, scl)))
  {
    hide Multiples, Places, Addresses, LiveDir, ClustersFor, ParentSays, Placed, Live, BitmapIs, Listing, Found,
         Encodes, SetNow, HasSet, NameTaken, Within, Shaped;
    var x, sc := DirSpace(bm, dir, cl, pcl), ClustersOf(source, cl', pcl, scl);
    ShapedViews(g, pub, w, bm);
    KeptWider(g, bm, v, pub, x, x + Members(sc));
    KeptOn(g, bm, v, pub, w, {}, Members(sc), x + Members(sc));
  }

  lemma KeptWider(g: Geometry, bm: seq<nat>, v: View, w: View, x: set<nat>, y: set<nat>)
    requires Kept(g, bm, v, w, x) && x <= y
    ensures Kept(g, bm, v, w, y)
  {
    hide Multiples, Places, Addresses, Allocated;
  }

  /** The target directory when the source lies elsewhere: all files stay listed and the renamed one joins them. */
  lemma TargetVisible(g: Geometry, bm: seq<nat>, v: View, mid: View, pub: View, table: seq<nat>, src: seq<nat>,
                      leaf: seq<nat>, record: Record, cl: seq<nat>, cl': seq<nat>, sc: seq<nat>, slot: nat,
                      es: seq<Byte>) returns (t: nat)
    requires ValidTable(table) && ValidName(leaf) && NameTaken(g, v, table, src, sc, record)
             && Encodes(es, record.(name := leaf))
    requires RoomFor(g, v, mid, cl, cl', slot, es) && Placed(g, mid, pub, cl', slot, es) && TidyDir(g, v, cl)
    ensures TidyDir(g, pub, cl') && t <= |Listing(g, v, cl)|
    ensures Listing(g, pub, cl') == Listing(g, v, cl)[..t] +
            [Node(record.(name := leaf), 32 * slot, EntryCount(|leaf|))] + Listing(g, v, cl)[t..]
  {
    hide Multiples, Places, Addresses, Shaped, DirSlots, Listing, Encodes, Complete, TidyDir, RoomFor, Placed, Found;
    TakenRecord(g, v, table, src, sc, record);
    t := NewListed(g, v, mid, pub, cl, cl', slot, es, record.(name := leaf));
  }

  /** A rename inside a tidy directory: the listing afterwards is the one before, without the source and
      with the new name, which has the source's attributes, cluster and lengths, put in at some place. */
  lemma RenameHere(g: Geometry, bm: seq<nat>, v: View, mid: View, pub: View, w: View, table: seq<nat>, src: seq<nat>,
                   leaf: seq<nat>, record: Record, dir: FileNode, cl: seq<nat>, pcl: seq<nat>, scl: seq<nat>,
                   dir': FileNode, cl': seq<nat>, slot: nat, es: seq<Byte>, es': seq<Byte>) returns (t: nat)
    requires Layout(g) && ValidTable(table) && ValidName(leaf) && !SameName(table, leaf, src)
    requires Renamed(g, bm, v, mid, pub, w, table, Here, src, leaf, record, dir, cl, pcl, scl, dir', cl', slot, es, es')
    requires RoomFor(g, v, mid, cl, cl', slot, es) && Shaped(g, v) && Clusters(g, cl) && TidyDir(g, v, cl)
    ensures Shaped(g, w) && Clusters(g, cl') && TidyDir(g, w, cl')
    ensures var a := Listing(g, v, cl);
            var i := Found(table, a, src);
            && i < |a| && record == a[i].record && t < |a|
            && var rest := a[..i] + a[i + 1..];
               Listing(g, w, cl') == rest[..t] + [Node(record.(name := leaf), 32 * slot, EntryCount(|leaf|))] +
                   rest[t..]
  {
    hide Multiples, Places, Addresses, Shaped, DirSlots, Listing, Encodes, Complete, ValidRecord, TidyDir, RoomFor,
         Placed, Found, SameName, Gone, LiveDir, Usable, Kept, ParentSays, Published, NameTaken;
    PublishedPlaces(g, bm, v, mid, pub, dir, cl, pcl, dir', cl', slot, es);
    SourceTaken(g, v, table, src, cl, record);
    var a, u := Listing(g, v, cl), Node(record.(name := leaf), 32 * slot, EntryCount(|leaf|));
    PlacedMeans(g, mid, pub, cl', slot, es);
    GoneMeans(g, bm, pub, w, table, src, SourceOf(Here, dir.stream, dir'), cl', es');
    t := TargetVisible(g, bm, v, mid, pub, table, src, leaf, record, cl, cl', cl, slot, es);
    GoneVisible(g, bm, pub, w, table, src, SourceOf(Here, dir.stream, dir'), cl', es');
    t := RenamedList(table, a, src, t, u);
  }

  lemma PublishedPlaces(g: Geometry, bm: seq<nat>, v: View, mid: View, w: View, dir: FileNode, cl: seq<nat>,
                        pcl: seq<nat>, dir': FileNode, cl': seq<nat>, slot: nat, es: seq<Byte>)
    requires Published(g, bm, v, mid, w, dir, cl, pcl, dir', cl', slot, es)
    ensures Placed(g, mid, w, cl', slot, es)
  {
    hide Multiples, Places, Addresses, LiveDir, ClustersFor, ParentSays, Placed, Live, BitmapIs, Kept;
  }

  lemma SourceTaken(g: Geometry, v: View, table: seq<nat>, src: seq<nat>, sc: seq<nat>, record: Record)
    requires ValidTable(table) && NameTaken(g, v, table, src, sc, record)
    ensures Layout(g) && Shaped(g, v) && Clusters(g, sc)
    ensures var t := Found(table, Listing(g, v, sc), src);
            t < |Listing(g, v, sc)| && record == Listing(g, v, sc)[t].record
  {
  }

  lemma PlacedMeans(g: Geometry, mid: View, w: View, cl: seq<nat>, slot: nat, es: seq<Byte>)
    requires Placed(g, mid, w, cl, slot, es)
    ensures Layout(g) && Shaped(g, w) && Clusters(g, cl)
  {
  }

  lemma GoneMeans(g: Geometry, bm: seq<nat>, v: View, w: View, table: seq<nat>, src: seq<nat>, h: Handle,
                  sc: seq<nat>, es: seq<Byte>)
    requires ValidTable(table) && Gone(g, bm, v, w, table, src, h, sc, es)
    ensures Layout(g) && Shaped(g, v) && Shaped(g, w) && Clusters(g, sc) && Members(sc) <= Live(g, v, bm)
            && Members(sc) !! Members(bm)
  {
    hide Multiples, Places, Addresses, Listing, Found, SetNow, HasSet, Within;
  }

  /** The directory of the source loses it and nothing else. */
  lemma GoneVisible(g: Geometry, bm: seq<nat>, v: View, w: View, table: seq<nat>, src: seq<nat>, h: Handle,
                    sc: seq<nat>, es: seq<Byte>)
    requires ValidTable(table) && Gone(g, bm, v, w, table, src, h, sc, es) && TidyDir(g, v, sc)
    ensures TidyDir(g, w, sc)
    ensures var s := Listing(g, v, sc);
            var i := Found(table, s, src);
            i < |s| && Listing(g, w, sc) == s[..i] + s[i + 1..]
  {
    hide Multiples, Places, Addresses, Shaped, DirSlots, Visit, Tidy, Found, SetNow, HasSet, HoldsMark, LiveDir,
         Within, Live, BitmapIs;
    GoneMeans(g, bm, v, w, table, src, h, sc, es);
    DeletionVisible(g, v, w, sc, h, Found(table, Listing(g, v, sc), src), es);
  }

  /** A rename out of a directory apart from the target: that one loses the source and nothing else, the
      target gains the new name and loses nothing. */
  lemma RenameElsewhere(g: Geometry, bm: seq<nat>, v: View, mid: View, pub: View, w: View, table: seq<nat>, h: Handle,
                        src: seq<nat>, leaf: seq<nat>, record: Record, dir: FileNode, cl: seq<nat>, pcl: seq<nat>,
                        scl: seq<nat>, dir': FileNode, cl': seq<nat>, slot: nat, es: seq<Byte>, es': seq<Byte>)
                        returns (t: nat)
    requires Layout(g) && ValidTable(table) && ValidName(leaf) && Renamable(g, v, bm, Elsewhere(h), dir, cl, pcl, scl)
    requires Renamed(g, bm, v, mid, pub, w, table, Elsewhere(h), src, leaf, record, dir, cl, pcl, scl, dir', cl',
                     slot, es, es')
    requires RoomFor(g, v, mid, cl, cl', slot, es) && Shaped(g, v) && Clusters(g, cl) && Clusters(g, scl)
    requires TidyDir(g, v, cl) && TidyDir(g, v, scl)
    ensures Shaped(g, w) && Clusters(g, cl') && TidyDir(g, w, cl') && TidyDir(g, w, scl)
    ensures t <= |Listing(g, v, cl)|
    ensures Listing(g, w, cl') == Listing(g, v, cl)[..t] +
            [Node(record.(name := leaf), 32 * slot, EntryCount(|leaf|))] + Listing(g, v, cl)[t..]
    ensures var s := Listing(g, v, scl);
            var i := Found(table, s, src);
            i < |s| && record == s[i].record && Listing(g, w, scl) == s[..i] + s[i + 1..]
  {
    hide Multiples, Places, Addresses, Shaped, DirSlots, Listing, Encodes, Complete, ValidRecord, Tidy, RoomFor,
         Placed, Found, SetNow, HasSet, HoldsMark, LiveDir, Kept, ParentSays, Within, Live, BitmapIs, ClustersFor,
         SameDir;
    PlacedMeans(g, mid, pub, cl', slot, es);
    GoneMeans(g, bm, pub, w, table, src, h, scl, es');
    t := TargetVisible(g, bm, v, mid, pub, table, src, leaf, record, cl, cl', scl, slot, es);
    OtherDirKept(g, bm, v, pub, DirSpace(bm, dir, cl, pcl), h, scl);
    SameListing(g, v, pub, scl);
    LiveDirMeans(g, v, bm, h, scl);
    assert Members(scl) !! Members(cl');
    SameDirKept(g, pub, w, {}, Members(scl), cl');
    SameListing(g, pub, w, cl');
    GoneVisible(g, bm, pub, w, table, src, h, scl, es');
  }

  /** What the parent of a directory lists when that directory has grown: the same files under the same names. */
  lemma ParentListing(g: Geometry, v: View, w: View, pcl: seq<nat>, dir: FileNode, d: nat, now: Handle)
    requires ParentSays(g, v, w, pcl, dir, now) && Layout(g) && Shaped(g, v) && Shaped(g, w) && Clusters(g, pcl)
    requires d < |Listing(g, v, pcl)| && dir == NodeOf(dir.parent, Listing(g, v, pcl)[d])
    requires ValidCluster(g, now.first) && now.length < 0x1_0000_0000_0000_0000
    ensures Listing(g, w, pcl) == Listing(g, v, pcl) || ListsAs(g, v, w, pcl, d, now)
    ensures TidyDir(g, v, pcl) ==> TidyDir(g, w, pcl)
  {
    hide Multiples, Places, Addresses, Shaped, DirSlots, Listing, Tidy, HasSet, SetNow, SameDir, UpdateStream, ListsAs;
    if now == dir.stream && SameDir(g, v, w, pcl) {
      SameListing(g, v, w, pcl);
    } else {
      var es :| Recorded(g, v, w, pcl, dir, now, es);
      assert Rewritten(g, v, w, pcl, dir.parent, d, es, now);
      UpdateVisible(g, v, w, pcl, dir.parent, d, es, now);
    }
  }

  lemma ListsAsNames(g: Geometry, v: View, w: View, pcl: seq<nat>, d: nat, now: Handle, table: seq<nat>, src: seq<nat>)
    requires ValidTable(table) && ListsAs(g, v, w, pcl, d, now)
    ensures |Listing(g, w, pcl)| == |Listing(g, v, pcl)|
            && Found(table, Listing(g, w, pcl), src) == Found(table, Listing(g, v, pcl), src)
  {
    hide Multiples, Places, Addresses, Shaped, Listing, SameName, Found;
    FoundOnce(table, Listing(g, w, pcl), src, Found(table, Listing(g, v, pcl), src));
  }

  /** A rename from the directory that holds the target directory: it loses the source and nothing else,
      except that it may now tell a new length of the target. */
  lemma RenameAbove(g: Geometry, bm: seq<nat>, v: View, mid: View, pub: View, w: View, table: seq<nat>, d: nat,
                    src: seq<nat>, leaf: seq<nat>, record: Record, dir: FileNode, cl: seq<nat>, pcl: seq<nat>,
                    scl: seq<nat>, dir': FileNode, cl': seq<nat>, slot: nat, es: seq<Byte>, es': seq<Byte>)
                    returns (t: nat, s: seq<Node>)
    requires Layout(g) && ValidTable(table) && ValidName(leaf) && g.clusterSize < 0x1_0000_0000 && dir.count != 0
    requires Renamed(g, bm, v, mid, pub, w, table, Above, src, leaf, record, dir, cl, pcl, scl, dir', cl', slot, es,
                     es')
    requires RoomFor(g, v, mid, cl, cl', slot, es) && Shaped(g, v) && Clusters(g, cl) && Clusters(g, pcl)
    requires TidyDir(g, v, cl) && TidyDir(g, v, pcl)
    requires d < |Listing(g, v, pcl)| && dir == NodeOf(dir.parent, Listing(g, v, pcl)[d])
    ensures Shaped(g, w) && Clusters(g, cl') && TidyDir(g, w, cl') && TidyDir(g, w, pcl)
    ensures t <= |Listing(g, v, cl)|
    ensures Listing(g, w, cl') == Listing(g, v, cl)[..t] +
            [Node(record.(name := leaf), 32 * slot, EntryCount(|leaf|))] + Listing(g, v, cl)[t..]
    ensures var a, h := Listing(g, v, pcl), dir'.stream;
            s == a || s == a[d := a[d].(record := a[d].record.(first := h.first, length := h.length,
                                                               validLength := h.length, contiguous := h.contiguous))]
    ensures var i := Found(table, Listing(g, v, pcl), src); i < |s| && Listing(g, w, pcl) == s[..i] + s[i + 1..]
  {
    hide Multiples, Places, Addresses, Shaped, DirSlots, Listing, Encodes, Complete, ValidRecord, Tidy, RoomFor,
         Placed, Found, SetNow, HasSet, HoldsMark, LiveDir, Kept, ParentSays, Within, Live, BitmapIs, ClustersFor,
         SameDir;
    PlacedMeans(g, mid, pub, cl', slot, es);
    GoneMeans(g, bm, pub, w, table, src, dir.parent, pcl, es');
    t := TargetVisible(g, bm, v, mid, pub, table, src, leaf, record, cl, cl', pcl, slot, es);
    HandleFits(g, w, bm, dir'.stream, cl');
    ParentListing(g, v, pub, pcl, dir, d, dir'.stream);
    if Listing(g, pub, pcl) != Listing(g, v, pcl) {
      ListsAsNames(g, v, pub, pcl, d, dir'.stream, table, src);
    }
    SameDirKept(g, pub, w, {}, Members(pcl), cl');
    SameListing(g, pub, w, cl');
    s := Listing(g, pub, pcl);
    GoneVisible(g, bm, pub, w, table, src, dir.parent, pcl, es');
  }

  /** That does not happen when the target directory is tidy, nor when the source lies elsewhere. */
  lemma NotLost(g: Geometry, bm: seq<nat>, v: View, mid: View, pub: View, table: seq<nat>, source: Source,
                src: seq<nat>, leaf: seq<nat>, record: Record, dir: FileNode, cl: seq<nat>, pcl: seq<nat>,
                scl: seq<nat>, dir': FileNode, cl': seq<nat>, slot: nat, es: seq<Byte>)
    requires Layout(g) && ValidTable(table) && ValidName(leaf) && Renamable(g, v, bm, source, dir, cl, pcl, scl)
    requires g.clusterSize < 0x1_0000_0000 && Shaped(g, v) && Clusters(g, cl) && Clusters(g, pcl)
    requires source.Here? ==> TidyDir(g, v, cl)
    requires source.Above? ==>
               exists d :: 0 <= d < |Listing(g, v, pcl)| && dir == NodeOf(dir.parent, Listing(g, v, pcl)[d])
    ensures !Lost(g, bm, v, mid, pub, table, source, src, leaf, record, dir, cl, pcl, scl, dir', cl', slot, es)
  {
    hide Multiples, Places, Addresses, Shaped, DirSlots, Listing, Encodes, TidyDir, RoomFor, Placed, Found, LiveDir,
         Kept, ParentSays, Within, Live, BitmapIs, ClustersFor, SameDir;
    if Lost(g, bm, v, mid, pub, table, source, src, leaf, record, dir, cl, pcl, scl, dir', cl', slot, es) {
      PlacedMeans(g, mid, pub, cl', slot, es);
      match source
      case Here =>
        var t := TargetVisible(g, bm, v, mid, pub, table, src, leaf, record, cl, cl', cl, slot, es);
        StillFound(table, Listing(g, v, cl), src, t, Node(record.(name := leaf), 32 * slot, EntryCount(|leaf|)));
      case Above =>
        var d :| 0 <= d < |Listing(g, v, pcl)| && dir == NodeOf(dir.parent, Listing(g, v, pcl)[d]);
        HandleFits(g, pub, bm, dir'.stream, cl');
        ParentListing(g, v, pub, pcl, dir, d, dir'.stream);
        if Listing(g, pub, pcl) != Listing(g, v, pcl) {
          ListsAsNames(g, v, pub, pcl, d, dir'.stream, table, src);
        }
      case Elsewhere(h) =>
        OtherDirKept(g, bm, v, pub, DirSpace(bm, dir, cl, pcl), h, scl);
        SameListing(g, v, pub, scl);
    }
  }

  /** A file that is found is found when one more has been put into the list. */
  lemma StillFound(table: seq<nat>, a: seq<Node>, src: seq<nat>, t: nat, u: Node)
    requires ValidTable(table) && t <= |a| && Found(table, a, src) < |a|
    ensures var b := a[..t] + [u] + a[t..]; Found(table, b, src) < |b|
  {
    hide SameName, Found;
    var i, b := Found(table, a, src), a[..t] + [u] + a[t..];
    var j := if i < t then i else i + 1;
    assert b[j] == a[i];
  }

  lemma HandleFits(g: Geometry, v: View, bm: seq<nat>, h: Handle, cl: seq<nat>)
    requires Layout(g) && LiveDir(g, v, bm, h, cl) && g.clusterSize < 0x1_0000_0000
    ensures ValidCluster(g, h.first) && h.length < 0x1_0000_0000_0000_0000
  {
    hide Places, Addresses, Live;
    assert g.capacity[|cl|] == |cl| * g.clusterSize;
    Arithmetic.MulMono(|cl|, g.clusterSize, 0x1_0000_0000);
  }

  /** Rename inside a tidy directory and list it: without refused requests the listing is the one before,
      without the source and with the new name, whose attributes, cluster and lengths are the source's. */
  method RenameThenList(v: Volume, table: seq<nat>, src: seq<nat>, dir: FileNode, leaf: seq<nat>, inside: bool,
                        ghost list: seq<Node>, ghost cl: seq<nat>, ghost pcl: seq<nat>)
    returns (outcome: Outcome, record: Record, ghost t: nat, ghost u: Node, nodes: seq<Node>)
    requires v.Closed() && Renamable(v.g, v.V(), v.bm, Here, dir, cl, pcl, cl) && ValidTable(table) && ValidName(leaf)
    requires IsListing(v.g, v.V(), cl, list) && TidyDir(v.g, v.V(), cl)
    modifies v, v.m
    ensures Settled(v, old(v.m.image), outcome)
    ensures outcome.Committed? && v.m.faults == old(v.m.faults) ==>
              var i := Found(table, list, src);
              && i < |list| && record == list[i].record && u.record == record.(name := leaf) && t < |list|
              && var rest := list[..i] + list[i + 1..]; nodes == rest[..t] + [u] + rest[t..]
  {
    hide Multiples, Places, Addresses, Capacities, ViewOf, Undoable, Allocated, BitmapIs, Shaped, LiveDir, DirIs,
         Visit, DirSlots, Found, RoomFor, Renamable, SameName, Restored, Clean, Stamped, Percent, Renamed, TidyDir,
         Clusters;
    nodes, t, u := [], 0, Node(Record(0, 0, 0, 0, false, []), 0, 0);
    ghost var v0 := v.V();
    var dir';
    ghost var cl', slot, es, es', mid, pub;
    outcome, record, dir', cl', slot, es, es', mid, pub := Rename(v, table, Here, src, dir, leaf, inside, cl, pcl, cl);
    if !outcome.Committed? {
      return;
    }
    ClosedFits(v, outcome, old(v.m.image));
    RenamedDir(v.g, v.bm, v0, mid, pub, v.V(), table, src, leaf, record, dir, cl, pcl, cl, dir', cl', slot, es, es');
    if v.m.faults == old(v.m.faults) {
      t := RenameHere(v.g, v.bm, v0, mid, pub, v.V(), table, src, leaf, record, dir, cl, pcl, cl, dir', cl', slot, es,
                      es');
      u := Node(record.(name := leaf), 32 * slot, EntryCount(|leaf|));
    }
    var ok;
    ok, nodes := VisitDirectory(v, SourceOf(Here, dir.stream, dir'), cl');
  }

  lemma RenamedDir(g: Geometry, bm: seq<nat>, v: View, mid: View, pub: View, w: View, table: seq<nat>, src: seq<nat>,
                   leaf: seq<nat>, record: Record, dir: FileNode, cl: seq<nat>, pcl: seq<nat>, scl: seq<nat>,
                   dir': FileNode, cl': seq<nat>, slot: nat, es: seq<Byte>, es': seq<Byte>)
    requires Layout(g) && ValidTable(table)
    requires Renamed(g, bm, v, mid, pub, w, table, Here, src, leaf, record, dir, cl, pcl, scl, dir', cl', slot, es, es')
    ensures DirIs(g, w, SourceOf(Here, dir.stream, dir'), cl')
  {
    hide Multiples, Places, Addresses, ClustersFor, ParentSays, Placed, Live, BitmapIs, Listing, Found, Encodes,
         Complete, SetNow, HasSet, NameTaken, Within, Shaped, Kept;
  }
}
