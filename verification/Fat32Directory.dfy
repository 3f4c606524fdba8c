/** Directories of a FAT32 volume: scanning clusters and sectors for names and for free slots.  The
    scans take 16 entries from every sector, so sectors have 512 bytes here. */
module Fat32Directory {
  import opened Bytes
  import opened VolumeLayout
  import opened Fat32Volume
  import opened Fat32Chains
  import opened Fat32Allocator
  import opened Fat32Files
  import opened Fat32Names

  /** The directory made of the clusters cl. */
  ghost predicate IsDir(g: Geometry, v: View, dir: nat, cl: seq<nat>) {
    Layout(g) && Shaped(g, v) && g.sectorSize == 512 && ChainFrom(g, v, dir, cl) && Clusters(g, cl)
  }

  /** n slots lie before sector j of cluster q; j may stand behind the last sector. */
  ghost predicate Cursor(g: Geometry, cl: seq<nat>, q: nat, j: nat, n: nat) {
    && Layout(g) && Clusters(g, cl) && q < |cl| && j <= g.sectorsPerCluster && g.sectorSize == 512
    && (j < g.sectorsPerCluster ==> 32 * n < |g.place| && g.place[32 * n] == Place(q, j, 0))
    && (j == g.sectorsPerCluster ==> 32 * n == g.capacity[q + 1])
  }

  lemma CursorStart(g: Geometry, cl: seq<nat>)
    requires Layout(g) && Clusters(g, cl) && g.sectorSize == 512
    ensures Cursor(g, cl, 0, 0, 0)
  {
    hide Multiples, Addresses, Places;
    ClusterStart(g, |cl|, 0);
  }

  lemma CursorSector(g: Geometry, v: View, cl: seq<nat>, q: nat, j: nat, n: nat)
    requires Cursor(g, cl, q, j, n) && Shaped(g, v) && j < g.sectorsPerCluster
    ensures Cursor(g, cl, q, j + 1, n + 16) && ValidCluster(g, cl[q])
    ensures n + 16 <= |DirSlots(g, v, cl)| && |v.heap[cl[q]][j]| == 512
    ensures forall i :: 0 <= i < 16 ==> DirSlots(g, v, cl)[n + i] == v.heap[cl[q]][j][32 * i..32 * i + 32]
    ensures forall i :: 0 <= i < 16 ==> SlotAt(g, cl, n + i, Position(cl[q], j, 32 * i))
  {
    hide Multiples, Addresses, Places, DirSlots;
    NextSector(g, q, j, 32 * n);
    SectorHasSlots(g, v, cl, q, j, n);
    forall i | 0 <= i < 16
      ensures SlotAt(g, cl, n + i, Position(cl[q], j, 32 * i))
    {
      SectorPosition(g, cl, q, j, n, i);
    }
  }

  lemma SectorPosition(g: Geometry, cl: seq<nat>, q: nat, j: nat, n: nat, i: nat)
    requires Cursor(g, cl, q, j, n) && j < g.sectorsPerCluster && i < 16 && 32 * n + 512 <= g.capacity[|cl|]
    ensures SlotAt(g, cl, n + i, Position(cl[q], j, 32 * i))
  {
    hide Multiples, Addresses;
    assert g.place[32 * n].r + (32 * (n + i) - 32 * n) < g.sectorSize;
    assert g.place[32 * (n + i)] == g.place[32 * n].(r := 32 * i);
  }

  lemma CursorCluster(g: Geometry, v: View, cl: seq<nat>, q: nat, n: nat)
    requires Cursor(g, cl, q, g.sectorsPerCluster, n) && Shaped(g, v)
    ensures q + 1 < |cl| ==> Cursor(g, cl, q + 1, 0, n)
    ensures q + 1 == |cl| ==> n == |DirSlots(g, v, cl)|
  {
    hide Multiples, Addresses, Places;
    if q + 1 < |cl| {
      ClusterStart(g, |cl|, q + 1);
    }
  }

  lemma DirStep(g: Geometry, v: View, dir: nat, cl: seq<nat>, q: nat)
    requires IsDir(g, v, dir, cl) && q < |cl| && g.clusterCount + 2 <= RESERVED_START
    ensures ValidCluster(g, cl[q]) && Step(g, v.fat[cl[q]]) == Some(if q + 1 < |cl| then cl[q + 1] else EOC)
    ensures q + 1 < |cl| ==> ValidCluster(g, cl[q + 1])
  {
    ChainStep(g, v, v, cl, q);
  }

  lemma DirMeans(g: Geometry, v: View, dir: nat, cl: seq<nat>)
    requires IsDir(g, v, dir, cl)
    ensures Layout(g) && Shaped(g, v) && Clusters(g, cl) && Chain(g, v, cl) && g.sectorSize == 512
    ensures 1 <= |cl| <= g.clusterCount && ValidCluster(g, dir) && cl[0] == dir
  {
  }

  // ----- finding a name

  /** The search state after n slots, with the positions of the long name entries collected so far. */
  ghost predicate Sought(g: Geometry, v: View, cl: seq<nat>, leaf: seq<Byte>, n: nat, st: Seek,
                         positions: seq<Position>)
    requires Layout(g) && Shaped(g, v) && Clusters(g, cl)
  {
    && n <= |DirSlots(g, v, cl)| && Find(DirSlots(g, v, cl), leaf, n) == Going(st)
    && |positions| == st.count <= n && forall i :: 0 <= i < |positions| ==>
         SlotAt(g, cl, n - |positions| + i, positions[i])
  }

  /** The search found the entry that ends at the last of the positions. */
  ghost predicate FoundAt(g: Geometry, v: View, cl: seq<nat>, leaf: seq<Byte>, k: nat, entry: Slot,
                          positions: seq<Position>)
    requires Layout(g) && Shaped(g, v) && Clusters(g, cl)
  {
    && 1 <= |positions| <= k + 1
    && Find(DirSlots(g, v, cl), leaf, |DirSlots(g, v, cl)|) == Found(k, entry, |positions| - 1)
    && forall i :: 0 <= i < |positions| ==> SlotAt(g, cl, k + 1 - |positions| + i, positions[i])
  }

  /** One slot of the scan. */
  lemma SoughtSlot(g: Geometry, v: View, cl: seq<nat>, leaf: seq<Byte>, n: nat, st: Seek, positions: seq<Position>,
                   p: Position)
    requires Layout(g) && Shaped(g, v) && Clusters(g, cl) && Sought(g, v, cl, leaf, n, st, positions)
    requires n < |DirSlots(g, v, cl)| && SlotAt(g, cl, n, p) && ValidSeek(st)
    ensures var slots := DirSlots(g, v, cl);
            var r := SeekSlot(st, slots[n], n, leaf);
            && (r.Ended? ==> !Find(slots, leaf, |slots|).Found?)
            && (r.Found? ==> FoundAt(g, v, cl, leaf, n, slots[n], positions + [p]))
            && (r.Going? ==> Sought(g, v, cl, leaf, n + 1, r.st, if r.st.count > 0 then positions + [p] else []))
  {
    hide Layout, Shaped, Clusters, SlotAt, Named, Accept, DirSlots, Bit;
    var slots := DirSlots(g, v, cl);
    assert Find(slots, leaf, n + 1) == SeekSlot(st, slots[n], n, leaf);
    var r := SeekSlot(st, slots[n], n, leaf);
    if !r.Going? {
      FindOver(slots, leaf, n + 1, |slots|);
    }
  }

  /** The 16 entries of a sector. */
  method SeekSector(sector: Sector, c: nat, j: nat, n: nat, leaf: seq<Byte>, st0: Seek, positions0: seq<Position>,
                    ghost g: Geometry, ghost v: View, ghost cl: seq<nat>, ghost q: nat)
    returns (r: Search, positions: seq<Position>)
    requires Layout(g) && Clusters(g, cl) && Cursor(g, cl, q, j, n) && Shaped(g, v) && j < g.sectorsPerCluster
             && c == cl[q]
    requires ValidCluster(g, c) && sector == v.heap[c][j]
    requires Sought(g, v, cl, leaf, n, st0, positions0) && ValidSeek(st0)
    ensures r.Going? ==> Sought(g, v, cl, leaf, n + 16, r.st, positions) && ValidSeek(r.st)
    ensures r.Ended? ==> !Find(DirSlots(g, v, cl), leaf, |DirSlots(g, v, cl)|).Found?
    ensures r.Found? ==> FoundAt(g, v, cl, leaf, r.slot, r.entry, positions)
  {
    hide Multiples, Addresses, Places, Capacities, Shaped, SlotAt, DirSlots, Find, Named, Accept, Cursor, Sought,
         FoundAt;
    CursorSector(g, v, cl, q, j, n);
    var st := st0;
    positions := positions0;
    for e := 0 to 16
      invariant Sought(g, v, cl, leaf, n + e, st, positions) && ValidSeek(st)
    {
      var entry: Slot := sector[32 * e..32 * e + 32];
      SoughtSlot(g, v, cl, leaf, n + e, st, positions, Position(c, j, 32 * e));
      r := SeekSlot(st, entry, n + e, leaf);
      if r.Ended? {
        return;
      }
      positions := if r.Found? || r.st.count > 0 then positions + [Position(c, j, 32 * e)] else [];
      if r.Found? {
        return;
      }
      st := r.st;
    }
    r := Going(st);
  }

  /** fat32_find_named_entry: the entry with the given name and the positions of all its slots.  Without
      device errors it finds the name exactly when the search over the directory's slots does. */
  method FindNamedEntry(x: Context, dir: nat, leaf: seq<Byte>, ghost cl: seq<nat>)
    returns (found: bool, k: nat, entry: Slot, positions: seq<Position>)
    requires x.Valid() && IsDir(x.G(), x.V(), dir, cl)
    modifies x.m`faults
    ensures x.Valid() && x.m.faults >= old(x.m.faults)
    ensures found ==> FoundAt(x.G(), x.V(), cl, leaf, k, entry, positions)
    ensures !found && x.m.faults == old(x.m.faults) ==>
              !Find(DirSlots(x.G(), x.V(), cl), leaf, |DirSlots(x.G(), x.V(), cl)|).Found?
  {
    hide Multiples, Addresses, Places, Capacities, Shaped, SlotAt, DirSlots, Find, Cursor, Sought, FoundAt, ViewOf,
         StateOf, Traced, IsDir, Step;
    ghost var g, v := x.G(), x.V();
    DirMeans(g, v, dir, cl);
    found, k, entry, positions := false, 0, Zeros(32), [];
    var st, n, current, hops := Idle(), 0, dir, 0;
    IdleIsValid();
    SoughtNone(g, v, cl, leaf);
    CursorStart(g, cl);
    while ValidCluster(x.copies[0], current) && hops < x.copies[0].clusterCount
      invariant x.Valid() && x.m.faults >= old(x.m.faults) && x.V() == v && hops <= |cl| && ValidSeek(st)
      invariant Sought(g, v, cl, leaf, n, st, positions)
      invariant ValidCluster(g, current) ==> hops < |cl| && current == cl[hops] && Cursor(g, cl, hops, 0, n)
      invariant !ValidCluster(g, current) && x.m.faults == old(x.m.faults) ==> n == |DirSlots(g, v, cl)|
      decreases |cl| - hops
    {
      ghost var q := hops;
      hops := hops + 1;
      for s := 0 to x.copies[0].sectorsPerCluster
        invariant x.Valid() && x.m.faults >= old(x.m.faults) && x.V() == v && ValidSeek(st)
        invariant Sought(g, v, cl, leaf, n, st, positions) && Cursor(g, cl, q, s, n)
      {
        var ok, sector := x.ReadCluster(current, s);
        if !ok {
          return;
        }
        CursorSector(g, v, cl, q, s, n);
        var r;
        r, positions := SeekSector(sector, current, s, n, leaf, st, positions, g, v, cl, q);
        if r.Ended? {
          return;
        }
        if r.Found? {
          return true, r.slot, r.entry, positions;
        }
        st, n := r.st, n + 16;
      }
      CursorCluster(g, v, cl, q, n);
      DirStep(g, v, dir, cl, q);
      var ok;
      ok, current := ChainAdvance(x, current);
      if !ok {
        return;
      }
    }
    SoughtAll(g, v, cl, leaf, n, st, positions);
  }

  lemma SoughtNone(g: Geometry, v: View, cl: seq<nat>, leaf: seq<Byte>)
    requires Layout(g) && Shaped(g, v) && Clusters(g, cl)
    ensures Sought(g, v, cl, leaf, 0, Idle(), [])
  {
  }

  lemma SoughtAll(g: Geometry, v: View, cl: seq<nat>, leaf: seq<Byte>, n: nat, st: Seek, positions: seq<Position>)
    requires Layout(g) && Shaped(g, v) && Clusters(g, cl) && Sought(g, v, cl, leaf, n, st, positions)
    ensures n == |DirSlots(g, v, cl)| ==> !Find(DirSlots(g, v, cl), leaf, |DirSlots(g, v, cl)|).Found?
  {
  }

  // ----- is a short name taken?

  /** Some entry in use, other than a part of a long name, carries the short name among the first n. */
  ghost predicate Taken(slots: seq<Slot>, name: ShortName, n: nat) {
    exists i :: 0 <= i < n <= |slots| && !IsFree(slots[i]) && !IsLfn(slots[i]) && slots[i][..11] == name
  }

  /** fat32_short_name_available: a directory that cannot be read counts as not having the name. */
  method ShortNameAvailable(x: Context, dir: nat, name: ShortName, ghost cl: seq<nat>) returns (free: bool)
    requires x.Valid() && IsDir(x.G(), x.V(), dir, cl)
    modifies x.m`faults
    ensures x.Valid() && x.m.faults >= old(x.m.faults)
    ensures !free ==> Taken(DirSlots(x.G(), x.V(), cl), name, |DirSlots(x.G(), x.V(), cl)|)
    ensures free && x.m.faults == old(x.m.faults) ==>
              !Taken(DirSlots(x.G(), x.V(), cl), name, |DirSlots(x.G(), x.V(), cl)|)
  {
    hide Multiples, Addresses, Places, Capacities, Shaped, SlotAt, DirSlots, Cursor, ViewOf, StateOf, Traced, IsDir,
         Step;
    ghost var g, v := x.G(), x.V();
    DirMeans(g, v, dir, cl);
    ghost var slots, n := DirSlots(g, v, cl), 0;
    var current, hops := dir, 0;
    CursorStart(g, cl);
    while ValidCluster(x.copies[0], current) && hops < x.copies[0].clusterCount
      invariant x.Valid() && x.m.faults >= old(x.m.faults) && x.V() == v && hops <= |cl| && 0 <= n <= |slots|
      invariant !Taken(slots, name, n)
      invariant ValidCluster(g, current) ==> hops < |cl| && current == cl[hops] && Cursor(g, cl, hops, 0, n)
      invariant !ValidCluster(g, current) && x.m.faults == old(x.m.faults) ==> n == |slots|
      decreases |cl| - hops
    {
      ghost var q := hops;
      hops := hops + 1;
      for s := 0 to x.copies[0].sectorsPerCluster
        invariant x.Valid() && x.m.faults >= old(x.m.faults) && x.V() == v && 0 <= n <= |slots|
        invariant !Taken(slots, name, n) && Cursor(g, cl, q, s, n)
      {
        var ok, sector := x.ReadCluster(current, s);
        if !ok {
          return true;
        }
        CursorSector(g, v, cl, q, s, n);
        for e := 0 to 16
          invariant !Taken(slots, name, n + e)
        {
          var entry: Slot := sector[32 * e..32 * e + 32];
          assert slots[n + e] == entry;
          if !IsFree(entry) && !IsLfn(entry) && entry[..11] == name {
            return false;
          }
        }
        n := n + 16;
      }
      CursorCluster(g, v, cl, q, n);
      DirStep(g, v, dir, cl, q);
      var ok;
      ok, current := ChainAdvance(x, current);
      if !ok {
        return true;
      }
    }
    free := true;
  }

  // ----- free slots

  /** The positions are the last |positions| of the first n slots, all free, and the slot before them
      is not. */
  ghost predicate FreeRun(g: Geometry, cl: seq<nat>, slots: seq<Slot>, n: nat, positions: seq<Position>) {
    && Layout(g) && Clusters(g, cl) && |positions| <= n <= |slots|
    && (forall i :: 0 <= i < |positions| ==> SlotAt(g, cl, n - |positions| + i, positions[i]))
    && (forall i :: n - |positions| <= i < n ==> IsFree(slots[i]))
    && (|positions| < n ==> !IsFree(slots[n - |positions| - 1]))
  }

  /** The positions are valid and in clusters of h. */
  ghost predicate Inside(g: Geometry, positions: seq<Position>, h: set<nat>) {
    forall i :: 0 <= i < |positions| ==> ValidPosition(g, positions[i]) && positions[i].cluster in h
  }

  lemma FreeRunInside(g: Geometry, cl: seq<nat>, slots: seq<Slot>, n: nat, positions: seq<Position>, h: set<nat>)
    requires FreeRun(g, cl, slots, n, positions) && Members(cl) <= h
    ensures Inside(g, positions, h)
  {
    hide Layout, Clusters, SlotAt, IsFree;
    forall i | 0 <= i < |positions|
      ensures ValidPosition(g, positions[i]) && positions[i].cluster in h
    {
      SlotPlace(g, cl, n - |positions| + i, positions[i]);
      assert positions[i].cluster in Members(cl);
    }
  }

  lemma FreeRunMore(g: Geometry, cl: seq<nat>, slots: seq<Slot>, n: nat, positions: seq<Position>, p: Position)
    requires FreeRun(g, cl, slots, n, positions) && n < |slots| && SlotAt(g, cl, n, p)
    ensures FreeRun(g, cl, slots, n + 1, if IsFree(slots[n]) then positions + [p] else [])
  {
    hide Layout, Clusters, SlotAt, IsFree;
  }

  lemma FreeRunNone(g: Geometry, cl: seq<nat>, slots: seq<Slot>)
    requires Layout(g) && Clusters(g, cl)
    ensures FreeRun(g, cl, slots, 0, [])
  {
  }

  /** The scan of fat32_reserve_entries: the first run of free slots that is long enough, or all that
      is free at the end of the first m clusters, where the directory ends or a refused read seems to end it. */
  method ScanForRun(x: Context, dir: nat, needed: nat, ghost cl: seq<nat>)
    returns (ok: bool, positions: seq<Position>, last: nat, ghost n: nat, ghost m: nat)
    requires x.Valid() && IsDir(x.G(), x.V(), dir, cl) && needed > 0
    modifies x.m`faults
    ensures x.Valid() && x.m.faults >= old(x.m.faults)
    ensures |positions| <= needed && 0 < m <= |cl|
    ensures ok ==> FreeRun(x.G(), cl, DirSlots(x.G(), x.V(), cl), n, positions)
    ensures ok && |positions| < needed ==> last == cl[m - 1] && FirstHold(x.G(), cl, m, n)
    ensures |positions| == needed || x.m.faults == old(x.m.faults) ==> m == |cl|
    ensures !ok ==> x.m.faults > old(x.m.faults)
  {
    hide Multiples, Addresses, Places, Capacities, Shaped, SlotAt, DirSlots, Cursor, ViewOf, StateOf, Traced, IsDir,
         Step, FreeRun, IsFree;
    ghost var g, v := x.G(), x.V();
    DirMeans(g, v, dir, cl);
    ghost var slots := DirSlots(g, v, cl);
    ok, positions, last, n, m := true, [], dir, 0, |cl|;
    var current, hops := dir, 0;
    CursorStart(g, cl);
    FreeRunNone(g, cl, slots);
    while ValidCluster(x.copies[0], current) && hops < x.copies[0].clusterCount
      invariant x.Valid() && x.m.faults >= old(x.m.faults) && x.V() == v && hops <= |cl| && m == |cl|
      invariant FreeRun(g, cl, slots, n, positions) && |positions| < needed && ok
      invariant ValidCluster(g, current) ==> hops < |cl| && current == cl[hops] && Cursor(g, cl, hops, 0, n)
      invariant !ValidCluster(g, current) ==> 0 < hops && last == cl[hops - 1] && FirstHold(g, cl, hops, n)
      invariant !ValidCluster(g, current) && x.m.faults == old(x.m.faults) ==> hops == |cl|
      decreases |cl| - hops
    {
      ghost var q := hops;
      hops := hops + 1;
      last := current;
      for s := 0 to x.copies[0].sectorsPerCluster
        invariant x.Valid() && x.m.faults >= old(x.m.faults) && x.V() == v
        invariant FreeRun(g, cl, slots, n, positions) && |positions| < needed && Cursor(g, cl, q, s, n) && ok
      {
        var sector;
        ok, sector := x.ReadCluster(current, s);
        if !ok {
          return;
        }
        CursorSector(g, v, cl, q, s, n);
        ghost var n0 := n;
        for e := 0 to 16
          invariant x.Valid() && x.m.faults >= old(x.m.faults) && x.V() == v
          invariant n == n0 + e && FreeRun(g, cl, slots, n, positions) && |positions| < needed
        {
          var entry: Slot := sector[32 * e..32 * e + 32];
          FreeRunMore(g, cl, slots, n, positions, Position(current, s, 32 * e));
          n := n + 1;
          if IsFree(entry) {
            positions := positions + [Position(current, s, 32 * e)];
            if |positions| == needed {
              return;
            }
          } else {
            positions := [];
          }
        }
      }
      CursorCluster(g, v, cl, q, n);
      CursorFilled(g, cl, q, n);
      DirStep(g, v, dir, cl, q);
      ok, current := ChainAdvance(x, current);
      if !ok {
        return;
      }
    }
    m := hops;
  }

  lemma CursorFilled(g: Geometry, cl: seq<nat>, q: nat, n: nat)
    requires Cursor(g, cl, q, g.sectorsPerCluster, n)
    ensures FirstHold(g, cl, q + 1, n)
  {
    hide Multiples, Addresses, Places;
  }

  /** A free run at the end of the first clusters of a directory is one at the end of these alone. */
  lemma RunOfPart(g: Geometry, v: View, cl: seq<nat>, m: nat, n: nat, positions: seq<Position>)
    requires Layout(g) && Shaped(g, v) && Clusters(g, cl) && 0 < m && FirstHold(g, cl, m, n)
    requires FreeRun(g, cl, DirSlots(g, v, cl), n, positions)
    ensures Clusters(g, cl[..m]) && n == |DirSlots(g, v, cl[..m])|
            && FreeRun(g, cl[..m], DirSlots(g, v, cl[..m]), n, positions)
    ensures n <= |DirSlots(g, v, cl)| && DirSlots(g, v, cl[..m]) == DirSlots(g, v, cl)[..n]
  {
    hide Multiples, Addresses, SectorOrder, Shaped, DirSlots, SlotAt;
    PartSlots(g, v, cl, m, n);
    forall i | 0 <= i < |positions|
      ensures SlotAt(g, cl[..m], n - |positions| + i, positions[i])
    {
      PartPosition(g, cl, m, n, n - |positions| + i, positions[i]);
    }
  }

  lemma PartPosition(g: Geometry, cl: seq<nat>, m: nat, n: nat, k: nat, p: Position)
    requires Layout(g) && Clusters(g, cl) && FirstHold(g, cl, m, n) && Clusters(g, cl[..m]) && k < n
             && SlotAt(g, cl, k, p)
    ensures SlotAt(g, cl[..m], k, p)
  {
    hide Multiples, Addresses, SectorOrder;
  }

  // ----- growing a directory

  /** w is v with the free cluster c cleared and hung behind the chain cl. */
  ghost predicate Grown(g: Geometry, v: View, w: View, cl: seq<nat>, c: nat) {
    && Shaped(g, v) && Shaped(g, w) && InRange(g, cl) && |cl| > 0 && c in Free(g, v)
    && w == Extend(g, v, cl, c)
  }

  /** A directory, or the first clusters of one. */
  ghost predicate IsPart(g: Geometry, v: View, dir: nat, cl: seq<nat>) {
    && Layout(g) && Shaped(g, v) && g.sectorSize == 512 && g.clusterCount + 2 <= RESERVED_START
    && Walk(g, v, cl) && cl[0] == dir && Clusters(g, cl) && Members(cl) !! Free(g, v)
  }

  lemma PartOf(g: Geometry, v: View, dir: nat, cl: seq<nat>, m: nat)
    requires IsDir(g, v, dir, cl) && 0 < m <= |cl| && g.clusterCount + 2 <= RESERVED_START
    ensures IsPart(g, v, dir, cl[..m])
  {
    hide Multiples, Addresses, Places, Capacities, Entry, Free;
    ChainNotFree(g, v, cl);
    assert forall c :: c in Members(cl[..m]) ==> c in Members(cl);
  }

  lemma GrownChain(g: Geometry, v: View, w: View, dir: nat, cl: seq<nat>, c: nat)
    requires Grown(g, v, w, cl, c) && IsPart(g, v, dir, cl)
    ensures Chain(g, w, cl + [c]) && c !in cl && Free(g, w) <= Free(g, v)
  {
    hide Merge, Entry, Blank, Layout;
    assert c !in cl by { assert c !in Members(cl); }
    ExtendAt(g, v, cl, c);
    var last := |cl| - 1;
    forall i | 0 <= i < last
      ensures Entry(w.fat[cl[i]]) == cl[i + 1]
    {
      assert cl[i] != cl[last];
    }
    assert Entry(w.fat[cl[last]]) == c;
    forall d | d in Free(g, w)
      ensures d in Free(g, v)
    {
    }
  }

  /** The slots of a grown directory: the old ones, then empty ones. */
  ghost predicate SlotsGrown(a: seq<Slot>, b: seq<Slot>) {
    |a| <= |b| && b[..|a|] == a && forall i :: |a| <= i < |b| ==> b[i] == Zeros(32)
  }

  lemma GrownSlots(g: Geometry, v: View, w: View, cl: seq<nat>, c: nat)
    requires Layout(g) && Grown(g, v, w, cl, c) && Clusters(g, cl) && Clusters(g, cl + [c])
    ensures SlotsGrown(DirSlots(g, v, cl), DirSlots(g, w, cl + [c]))
    ensures |DirSlots(g, w, cl + [c])| > |DirSlots(g, v, cl)|
  {
    hide Multiples, Addresses, Places, Capacities, DirSlots, Merge, ByteAt;
    var a, b := DirSlots(g, v, cl), DirSlots(g, w, cl + [c]);
    SlotCount(g, |cl|);
    SlotCount(g, |cl| + 1);
    forall i | 0 <= i < |b|
      ensures b[i] == if i < |a| then a[i] else Zeros(32)
    {
      GrownSlot(g, v, w, cl, c, i);
    }
    assert b[..|a|] == a;
  }

  lemma GrownSlot(g: Geometry, v: View, w: View, cl: seq<nat>, c: nat, i: nat)
    requires Layout(g) && Grown(g, v, w, cl, c) && Clusters(g, cl) && Clusters(g, cl + [c])
             && i < g.capacity[|cl| + 1] / 32
    ensures DirSlots(g, w, cl + [c])[i] == if i < g.capacity[|cl|] / 32 then DirSlots(g, v, cl)[i] else Zeros(32)
  {
    hide Multiples, Addresses, Places, Capacities, Merge, ByteAt, Grown, Shaped;
    SlotCount(g, |cl|);
    SlotCount(g, |cl| + 1);
    GrownShape(g, v, w, cl, c);
    var s := SlotOf(g, w, cl + [c], i);
    forall r | 0 <= r < 32
      ensures s[r] == if i < g.capacity[|cl|] / 32 then SlotOf(g, v, cl, i)[r] else 0
    {
      GrownByte(g, v, w, cl, c, 32 * i + r);
    }
  }

  lemma GrownShape(g: Geometry, v: View, w: View, cl: seq<nat>, c: nat)
    requires Grown(g, v, w, cl, c)
    ensures Shaped(g, v) && Shaped(g, w)
  {
  }

  lemma GrownByte(g: Geometry, v: View, w: View, cl: seq<nat>, c: nat, o: nat)
    requires Layout(g) && Grown(g, v, w, cl, c) && Clusters(g, cl) && Clusters(g, cl + [c]) && o < g.capacity[|cl| + 1]
    ensures ByteAt(g, w, cl + [c], o) == if o < g.capacity[|cl|] then ByteAt(g, v, cl, o) else 0
  {
    hide Multiples, Addresses, SectorOrder, Merge;
    assert c != cl[0] by { assert (cl + [c])[|cl|] == c && (cl + [c])[0] == cl[0]; }
    GrownHeap(g, v, w, cl, c);
    assert g.place[o].q < |cl| + 1;
    assert g.place[o].q < |cl| <==> o < g.capacity[|cl|];
  }

  lemma GrownHeap(g: Geometry, v: View, w: View, cl: seq<nat>, c: nat)
    requires Grown(g, v, w, cl, c) && Clusters(g, cl + [c])
    ensures w.heap[c] == Blank(g) && forall i :: 0 <= i < |cl| ==> w.heap[cl[i]] == v.heap[cl[i]]
  {
    forall i | 0 <= i < |cl|
      ensures cl[i] != c
    {
      assert (cl + [c])[|cl|] == c && (cl + [c])[i] == cl[i];
    }
    ExtendAt(g, v, cl, c);
  }

  /** Positions stay where they are when a directory grows. */
  lemma SlotAtGrown(g: Geometry, cl: seq<nat>, c: nat, k: nat, p: Position)
    requires Layout(g) && Clusters(g, cl) && Clusters(g, cl + [c]) && SlotAt(g, cl, k, p)
    ensures SlotAt(g, cl + [c], k, p)
  {
    hide Multiples, Addresses, Places;
    assert g.capacity[|cl| + 1] == g.capacity[|cl|] + g.clusterSize;
  }

  /** Allocate a cluster and hang it behind last. */
  method AddCluster(x: Context, last: nat, ghost cl: seq<nat>, ghost free: set<nat>) returns (c: nat)
    requires x.Valid() && ValidCluster(x.G(), last) && last !in Free(x.G(), x.V()) && Free(x.G(), x.V()) <= free
    modifies x`trail, x`freeCount, x`nextFree, x.m
    ensures x.Valid() && x.m.faults >= old(x.m.faults)
    ensures Trail(x.G(), old(x.trail), x.trail, free + {last}, free)
    ensures c != 0 ==> c in Free(x.G(), old(x.V())) && x.V() == Put(x.G(), Claim(x.G(), old(x.V()), c), last, c)
    ensures c == 0 && x.m.faults == old(x.m.faults) ==> Free(x.G(), old(x.V())) == {}
  {
    hide Layout, ViewOf, StateOf, Traced, Shaped, Copies, Trail, Claim;
    ghost var g, t, v := x.G(), x.trail, x.V();
    c := AllocateCluster(x);
    ghost var t1 := x.trail;
    if c == 0 {
      TrailWiden(g, t, t1, Free(g, v), Free(g, v), free + {last}, free);
      return;
    }
    TrailWiden(g, t, t1, {c}, {c}, free + {last}, free);
    var linked := x.SetCluster(last, c);
    ghost var t2 := x.trail;
    TrailMore(g, t, t1, t2, free + {last}, free, {last}, {});
    if !linked {
      AloneClosed(g, v, x.V(), c, last);
      var freed := FreeChain(x, c, {c});
      TrailMore(g, t, t2, x.trail, free + {last}, free, {c}, {});
      c := 0;
    }
  }

  lemma AloneClosed(g: Geometry, v: View, w: View, c: nat, last: nat)
    requires Shaped(g, v) && ValidCluster(g, c) && ValidCluster(g, last) && last != c
             && g.clusterCount + 2 <= RESERVED_START
    requires w == Claim(g, v, c) || w == Put(g, Claim(g, v, c), last, c)
    ensures Closed(g, w, {c})
  {
  }

  lemma ClearAgain(g: Geometry, v: View, c: nat, j: nat)
    requires Shaped(g, v) && ValidCluster(g, c) && j < g.sectorsPerCluster && v.heap[c] == Blank(g)
    ensures PutSector(g, v, c, j, Zeros(g.sectorSize)) == v
  {
    assert v.heap[c][j := Zeros(g.sectorSize)] == v.heap[c];
    assert v.heap[c := v.heap[c]] == v.heap;
  }

  /** Clear the new cluster once more and reserve its slots as far as they are needed. */
  method ReserveNew(x: Context, c: nat, needed: nat, positions0: seq<Position>,
                    ghost cl: seq<nat>, ghost n0: nat)
    returns (ok: bool, positions: seq<Position>, ghost n: nat)
    requires x.Valid() && ValidCluster(x.G(), c) && x.V().heap[c] == Blank(x.G()) && |positions0| < needed
    requires x.G().sectorSize == 512
    requires Clusters(x.G(), cl) && Cursor(x.G(), cl, |cl| - 1, 0, n0) && c == cl[|cl| - 1]
    requires FreeRun(x.G(), cl, DirSlots(x.G(), x.V(), cl), n0, positions0)
    requires forall i :: n0 <= i < |DirSlots(x.G(), x.V(), cl)| ==> IsFree(DirSlots(x.G(), x.V(), cl)[i])
    modifies x`trail, x.m
    ensures x.Valid() && x.m.faults >= old(x.m.faults)
    ensures Trail(x.G(), old(x.trail), x.trail, {}, {c}) && x.V() == old(x.V())
    ensures ok ==> |positions0| < |positions| <= needed
    ensures ok ==> |positions| == needed || |positions| >= |positions0| + 16
    ensures !ok ==> x.m.faults > old(x.m.faults)
    ensures forall h :: c in h && Inside(x.G(), positions0, h) ==> Inside(x.G(), positions, h)
    ensures ok ==>
              FreeRun(x.G(), cl, DirSlots(x.G(), x.V(), cl), n, positions) && n >= n0
              && n - |positions| == n0 - |positions0|
    ensures ok && |positions| < needed ==> n == |DirSlots(x.G(), x.V(), cl)|
  {
    hide Multiples, Addresses, Places, Capacities, Shaped, SlotAt, DirSlots, Cursor, ViewOf, StateOf, Traced, Copies,
         FreeRun, IsFree, Trail, Blank;
    ghost var g, v, t := x.G(), x.V(), x.trail;
    TrailStay(g, t);
    TrailWiden(g, t, t, {}, {}, {}, {c});
    ok, positions, n := true, positions0, n0;
    for s := 0 to x.copies[0].sectorsPerCluster
      invariant x.Valid() && x.m.faults >= old(x.m.faults) && x.V() == v && Trail(g, t, x.trail, {}, {c})
      invariant |positions0| <= |positions| <= needed && (s > 0 ==> |positions0| < |positions|) && n >= n0
      invariant s == 0 ==> positions == positions0
      invariant s > 0 ==> |positions| == needed || |positions| >= |positions0| + 16
      invariant ok
      invariant forall h :: c in h && Inside(g, positions0, h) ==> Inside(g, positions, h)
      invariant FreeRun(g, cl, DirSlots(g, v, cl), n, positions) && n - |positions| == n0 - |positions0|
      invariant |positions| < needed ==> Cursor(g, cl, |cl| - 1, s, n)
    {
      ghost var t1 := x.trail;
      ok := x.WriteCluster(c, s, Zeros(x.copies[0].sectorSize));
      TrailMore(g, t, t1, x.trail, {}, {c}, {}, {c});
      if ok {
        ClearAgain(g, v, c, s);
      }
      assert x.V() == v;
      if |positions| < needed {
        CursorSector(g, v, cl, |cl| - 1, s, n);
      }
      if !ok {
        return;
      }
      ghost var n1, more := n, |positions| < needed;
      var e := 0;
      while e < 16 && |positions| < needed
        invariant x.Valid() && x.m.faults >= old(x.m.faults) && x.V() == v && Trail(g, t, x.trail, {}, {c})
        invariant e <= 16 && |positions0| <= |positions| <= needed && n >= n0 && (e > 0 ==> |positions0| < |positions|)
        invariant e == 0 && s == 0 ==> |positions| < needed
        invariant forall h :: c in h && Inside(g, positions0, h) ==> Inside(g, positions, h)
        invariant (more ==> n == n1 + e) && (|positions| < needed ==> more)
        invariant s > 0 ==> |positions0| < |positions|
        invariant s == 0 ==> |positions| == |positions0| + e
        invariant s > 0 ==> |positions| == needed || |positions| >= |positions0| + 16
        invariant FreeRun(g, cl, DirSlots(g, v, cl), n, positions) && n - |positions| == n0 - |positions0|
      {
        FreeRunMore(g, cl, DirSlots(g, v, cl), n, positions, Position(c, s, 32 * e));
        positions := positions + [Position(c, s, 32 * e)];
        n := n + 1;
        e := e + 1;
      }
    }
    if |positions| < needed {
      CursorCluster(g, v, cl, |cl| - 1, n);
    }
  }

  /** A free cluster hung behind cluster i of a directory: the directory is now its clusters up to i and
      the new one.  So its old clusters are kept if and only if i was the last one. */
  lemma CutOff(g: Geometry, v: View, w: View, dir: nat, cl: seq<nat>, i: nat, c: nat)
    requires IsDir(g, v, dir, cl) && Shaped(g, w) && g.clusterCount + 2 <= RESERVED_START && i < |cl|
    requires c in Free(g, v) && w == Put(g, Claim(g, v, c), cl[i], c)
    ensures Clusters(g, cl[..i + 1] + [c]) && IsDir(g, w, dir, cl[..i + 1] + [c]) && Clusters(g, cl[..i + 1])
    ensures SlotsGrown(DirSlots(g, v, cl[..i + 1]), DirSlots(g, w, cl[..i + 1] + [c]))
    ensures var n := g.capacity[i + 1] / 32;
            n <= |DirSlots(g, v, cl)| && DirSlots(g, v, cl[..i + 1]) == DirSlots(g, v, cl)[..n]
    ensures (exists cl' :: IsDir(g, w, dir, cl') && cl <= cl') <==> i == |cl| - 1
  {
    hide Multiples, Addresses, Places, DirSlots, Put, Claim, SlotsGrown, Shaped, Chain, Free;
    var part := cl[..i + 1];
    PartOf(g, v, dir, cl, i + 1);
    GrownFirst(g, v, w, dir, part, c);
    FirstWhole(g, cl, i + 1);
    PartSlots(g, v, cl, i + 1, g.capacity[i + 1] / 32);
    ChainNotFree(g, v, cl);
    assert c !in Members(cl);
    CutOffOnly(g, w, dir, cl, i, c);
  }

  lemma CutOffOnly(g: Geometry, w: View, dir: nat, cl: seq<nat>, i: nat, c: nat)
    requires i < |cl| && IsDir(g, w, dir, cl[..i + 1] + [c]) && c !in cl && g.clusterCount + 2 <= RESERVED_START
    ensures (exists cl' :: IsDir(g, w, dir, cl') && cl <= cl') <==> i == |cl| - 1
  {
    hide Layout, Shaped, Clusters;
    if i == |cl| - 1 {
      assert cl <= cl[..i + 1] + [c];
    }
    forall cl' | IsDir(g, w, dir, cl') && cl <= cl'
      ensures i == |cl| - 1
    {
      ChainUnique(g, w, cl', cl[..i + 1] + [c]);
      assert |cl| <= |cl'| && cl[|cl| - 1] == cl'[|cl| - 1];
    }
  }

  /** fat32_reserve_entries: positions of free slots next to each other, at the end of a directory that
      grows if it has to.  It grows from its first m clusters.  Without device errors these are all; a
      refused read of a link makes the scan stop earlier, and what lies behind is cut off by the growth. */
  method ReserveEntries(x: Context, dir: nat, needed: nat, ghost cl0: seq<nat>)
    returns (ok: bool, positions: seq<Position>, ghost cl: seq<nat>, ghost n: nat, ghost m: nat)
    requires x.Valid() && IsDir(x.G(), x.V(), dir, cl0) && needed > 0
    modifies x`trail, x`freeCount, x`nextFree, x.m
    ensures x.Valid() && x.m.faults >= old(x.m.faults)
    ensures Trail(x.G(), old(x.trail), x.trail, Free(x.G(), old(x.V())) + Members(cl0), Free(x.G(), old(x.V())))
    ensures ok ==> |positions| == needed && Inside(x.G(), positions, Free(x.G(), old(x.V())) + Members(cl0))
    ensures ok ==>
              && 0 < m <= |cl0| && cl0[..m] <= cl && IsDir(x.G(), x.V(), dir, cl) && Clusters(x.G(), cl0[..m])
              && SlotsGrown(DirSlots(x.G(), old(x.V()), cl0[..m]), DirSlots(x.G(), x.V(), cl))
              && FreeRun(x.G(), cl, DirSlots(x.G(), x.V(), cl), n, positions)
              && n - needed <= |DirSlots(x.G(), old(x.V()), cl0[..m])|
    ensures ok && (x.m.faults == old(x.m.faults) || |cl| == m) ==> m == |cl0|
    ensures !ok && x.m.faults == old(x.m.faults) ==> 16 * |Free(x.G(), old(x.V()))| < needed
  {
    hide Multiples, Addresses, Places, Capacities, Shaped, SlotAt, DirSlots, Cursor, ViewOf, StateOf, Traced, Copies,
         FreeRun, IsFree, Trail, Blank, IsDir, SlotsGrown, Put, Claim, Free, Inside, IsPart, Reserving;
    ghost var g, v0, t := x.G(), x.V(), x.trail;
    ghost var free := Free(g, v0);
    DirMeans(g, v0, dir, cl0);
    TrailStay(g, t);
    TrailWiden(g, t, t, {}, {}, free + Members(cl0), free);
    cl := cl0;
    var last;
    ok, positions, last, n, m := ScanForRun(x, dir, needed, cl);
    if !ok {
      return;
    }
    FreeRunInside(g, cl, DirSlots(g, v0, cl0), n, positions, free + Members(cl0));
    ReservingStarts(g, v0, dir, cl0, m, needed, n, positions, last);
    cl := cl0[..m];
    while |positions| < needed
      invariant x.Valid() && x.m.faults >= old(x.m.faults) && |positions| <= needed && ok
      invariant Trail(g, t, x.trail, free + Members(cl0), free) && Inside(g, positions, free + Members(cl0))
      invariant Free(g, x.V()) <= free && (|positions| < needed ==> last in free + Members(cl0)) && 0 < m <= |cl0|
      invariant Reserving(g, v0, x.V(), dir, cl0[..m], cl, needed, n, positions, last)
      invariant x.m.faults == old(x.m.faults) || (|positions| == needed && |cl| == m) ==> m == |cl0|
      invariant |Free(g, x.V())| + |cl| >= |free| + m && |cl| >= m
      invariant |positions| == needed || |positions| >= 16 * (|cl| - m)
    {
      ghost var t1, v1 := x.trail, x.V();
      ReservingLast(g, v0, v1, dir, cl0[..m], cl, needed, n, positions, last);
      var c := AddCluster(x, last, cl, free);
      ghost var t2, v2 := x.trail, x.V();
      TrailMore(g, t, t1, t2, free + Members(cl0), free, free + {last}, free);
      if c == 0 {
        return false, positions, cl, n, m;
      }
      Linked(g, v1, v2, c, last);
      LinkedFree(g, v1, v2, c, last);
      GrownDir(g, v1, v2, dir, cl, c, DirSlots(g, v0, cl0[..m]), positions, n);
      cl := cl + [c];
      last := c;
      ok, positions, n := ReserveNew(x, c, needed, positions, cl, n);
      TrailMore(g, t, t2, x.trail, free + Members(cl0), free, {}, {c});
      if !ok {
        return;
      }
      ReservingMore(g, v0, x.V(), dir, cl0[..m], cl, needed, n, positions);
    }
    ReservingEnds(g, v0, x.V(), dir, cl0[..m], cl, needed, n, positions, last);
  }

  /** How the search stands: the directory, once its first clusters cl1, is now cl, and the positions are
      the free slots before slot n; with fewer than needed, n is the end of the directory and last its last
      cluster. */
  ghost predicate Reserving(g: Geometry, v: View, w: View, dir: nat, cl1: seq<nat>, cl: seq<nat>, needed: nat, n: nat,
                            positions: seq<Position>, last: nat) {
    && Layout(g) && Shaped(g, v) && Clusters(g, cl1) && IsPart(g, w, dir, cl) && cl1 <= cl
    && SlotsGrown(DirSlots(g, v, cl1), DirSlots(g, w, cl)) && FreeRun(g, cl, DirSlots(g, w, cl), n, positions)
    && n - |positions| <= |DirSlots(g, v, cl1)|
    && (if |positions| < needed then n == |DirSlots(g, w, cl)| && last == cl[|cl| - 1] else IsDir(g, w, dir, cl))
  }

  lemma ReservingStarts(g: Geometry, v: View, dir: nat, cl: seq<nat>, m: nat, needed: nat, n: nat,
                        positions: seq<Position>, last: nat)
    requires IsDir(g, v, dir, cl) && 0 < m <= |cl| && g.clusterCount + 2 <= RESERVED_START && |positions| <= needed
    requires FreeRun(g, cl, DirSlots(g, v, cl), n, positions)
    requires if |positions| < needed then last == cl[m - 1] && FirstHold(g, cl, m, n) else m == |cl|
    ensures Reserving(g, v, v, dir, cl[..m], cl[..m], needed, n, positions, last)
    ensures |positions| < needed ==> last in Members(cl)
  {
    hide Multiples, Addresses, Places, Capacities, DirSlots, SlotAt, IsFree, Chain, Clusters, Shaped, Free;
    PartOf(g, v, dir, cl, m);
    if |positions| < needed {
      RunOfPart(g, v, cl, m, n, positions);
      assert cl[m - 1] in Members(cl);
    } else {
      assert cl[..m] == cl;
    }
    DirSlotsSelf(g, v, cl[..m]);
    RunStart(g, cl[..m], DirSlots(g, v, cl[..m]), n, positions);
  }

  lemma ReservingLast(g: Geometry, v: View, w: View, dir: nat, cl1: seq<nat>, cl: seq<nat>, needed: nat, n: nat,
                      positions: seq<Position>, last: nat)
    requires Reserving(g, v, w, dir, cl1, cl, needed, n, positions, last) && |positions| < needed
    ensures Shaped(g, w) && Clusters(g, cl) && ValidCluster(g, last) && last !in Free(g, w) && last == cl[|cl| - 1]
            && IsPart(g, w, dir, cl)
    ensures Clusters(g, cl1) && Shaped(g, v) && Layout(g) && cl1 <= cl
            && SlotsGrown(DirSlots(g, v, cl1), DirSlots(g, w, cl))
    ensures FreeRun(g, cl, DirSlots(g, w, cl), n, positions) && n == |DirSlots(g, w, cl)|
            && n - |positions| <= |DirSlots(g, v, cl1)|
  {
    hide Multiples, Addresses, Places, Capacities, DirSlots, SlotAt, IsFree, Clusters, Shaped, Free, SlotsGrown,
         FreeRun;
    assert last in Members(cl);
  }

  lemma ReservingMore(g: Geometry, v: View, w: View, dir: nat, cl1: seq<nat>, cl: seq<nat>, needed: nat, n: nat,
                      positions: seq<Position>)
    requires Layout(g) && Shaped(g, v) && Clusters(g, cl1) && IsDir(g, w, dir, cl) && cl1 <= cl
             && g.clusterCount + 2 <= RESERVED_START
    requires SlotsGrown(DirSlots(g, v, cl1), DirSlots(g, w, cl)) && FreeRun(g, cl, DirSlots(g, w, cl), n, positions)
    requires n - |positions| <= |DirSlots(g, v, cl1)| && (|positions| < needed ==> n == |DirSlots(g, w, cl)|)
    ensures Reserving(g, v, w, dir, cl1, cl, needed, n, positions, cl[|cl| - 1])
  {
    hide Multiples, Addresses, Places, Capacities, DirSlots, SlotAt, IsFree, Clusters, Shaped, Free, SlotsGrown,
         FreeRun;
    ChainNotFree(g, w, cl);
  }

  lemma ReservingEnds(g: Geometry, v: View, w: View, dir: nat, cl1: seq<nat>, cl: seq<nat>, needed: nat, n: nat,
                      positions: seq<Position>, last: nat)
    requires Reserving(g, v, w, dir, cl1, cl, needed, n, positions, last) && |positions| == needed
    ensures Layout(g) && Shaped(g, v) && Clusters(g, cl1) && cl1 <= cl && IsDir(g, w, dir, cl) && Shaped(g, w)
            && Clusters(g, cl)
    ensures SlotsGrown(DirSlots(g, v, cl1), DirSlots(g, w, cl)) && FreeRun(g, cl, DirSlots(g, w, cl), n, positions)
    ensures n - needed <= |DirSlots(g, v, cl1)|
  {
    hide Multiples, Addresses, Places, Capacities, DirSlots, SlotAt, IsFree, Clusters, Shaped, Free, SlotsGrown,
         FreeRun;
  }

  lemma DirSlotsSelf(g: Geometry, v: View, cl: seq<nat>)
    requires Layout(g) && Shaped(g, v) && Clusters(g, cl)
    ensures SlotsGrown(DirSlots(g, v, cl), DirSlots(g, v, cl))
  {
  }

  lemma RunStart(g: Geometry, cl: seq<nat>, slots: seq<Slot>, n: nat, positions: seq<Position>)
    requires FreeRun(g, cl, slots, n, positions)
    ensures |positions| <= n <= |slots|
  {
  }

  /** What AddCluster leaves. */
  lemma Linked(g: Geometry, v: View, w: View, c: nat, last: nat)
    requires Shaped(g, v) && ValidCluster(g, last) && g.clusterCount + 2 <= RESERVED_START
    requires c in Free(g, v) && last !in Free(g, v) && w == Put(g, Claim(g, v, c), last, c)
    ensures |w.fat| == |w.heap| == g.clusterCount + 2
    ensures ValidCluster(g, c) && c !in Free(g, w) && Free(g, w) <= Free(g, v) && w.heap[c] == Blank(g)
  {
    hide Merge, Entry, Blank;
    assert Entry(w.fat[c]) == EOC_MARK && Entry(w.fat[last]) == c;
  }

  lemma LinkedFree(g: Geometry, v: View, w: View, c: nat, last: nat)
    requires Shaped(g, v) && ValidCluster(g, last) && g.clusterCount + 2 <= RESERVED_START
    requires c in Free(g, v) && last !in Free(g, v) && w == Put(g, Claim(g, v, c), last, c)
    ensures |w.fat| == g.clusterCount + 2 && |Free(g, w)| == |Free(g, v)| - 1
  {
    hide Merge, Entry, Blank;
    assert Entry(w.fat[c]) == EOC_MARK && Entry(w.fat[last]) == c;
    assert Free(g, w) == Free(g, v) - {c};
  }

  /** The directory with its new cluster, ready for more reservations. */
  lemma GrownDir(g: Geometry, v: View, w: View, dir: nat, cl: seq<nat>, c: nat, slots0: seq<Slot>,
                 positions: seq<Position>, n: nat)
    requires IsPart(g, v, dir, cl) && Shaped(g, w) && c in Free(g, v)
    requires ValidCluster(g, cl[|cl| - 1]) && w == Put(g, Claim(g, v, c), cl[|cl| - 1], c)
    requires SlotsGrown(slots0, DirSlots(g, v, cl)) && FreeRun(g, cl, DirSlots(g, v, cl), n, positions)
             && n == |DirSlots(g, v, cl)|
    ensures Clusters(g, cl + [c]) && IsDir(g, w, dir, cl + [c]) && SlotsGrown(slots0, DirSlots(g, w, cl + [c]))
    ensures FreeRun(g, cl + [c], DirSlots(g, w, cl + [c]), n, positions) && Cursor(g, cl + [c], |cl|, 0, n)
    ensures forall i :: n <= i < |DirSlots(g, w, cl + [c])| ==> IsFree(DirSlots(g, w, cl + [c])[i])
  {
    hide Multiples, Addresses, Places, Capacities, Chain, DirSlots, Put, Claim, SlotAt, IsFree, Grown, SlotsGrown,
         FreeRun, Cursor, Clusters;
    GrownFirst(g, v, w, dir, cl, c);
    var a, b := DirSlots(g, v, cl), DirSlots(g, w, cl + [c]);
    SlotsGrownMore(slots0, a, b);
    FreeRunGrown(g, cl, c, a, b, n, positions);
    CursorGrown(g, v, cl, c);
  }

  lemma GrownFirst(g: Geometry, v: View, w: View, dir: nat, cl: seq<nat>, c: nat)
    requires IsPart(g, v, dir, cl) && Shaped(g, w) && c in Free(g, v)
    requires ValidCluster(g, cl[|cl| - 1]) && w == Put(g, Claim(g, v, c), cl[|cl| - 1], c)
    ensures Clusters(g, cl + [c]) && IsDir(g, w, dir, cl + [c])
            && SlotsGrown(DirSlots(g, v, cl), DirSlots(g, w, cl + [c]))
  {
    hide Multiples, Addresses, Places, Chain, DirSlots, Put, Claim, Grown, SlotsGrown;
    IsGrown(g, v, w, cl, c);
    GrownChain(g, v, w, dir, cl, c);
    ChainClusters(g, w, cl + [c]);
    GrownSlots(g, v, w, cl, c);
  }

  lemma SlotsGrownMore(slots0: seq<Slot>, a: seq<Slot>, b: seq<Slot>)
    requires SlotsGrown(slots0, a) && SlotsGrown(a, b)
    ensures SlotsGrown(slots0, b)
  {
    assert b[..|slots0|] == b[..|a|][..|slots0|];
    forall i | |slots0| <= i < |b|
      ensures b[i] == Zeros(32)
    {
      if i < |a| {
        assert b[i] == b[..|a|][i];
      }
    }
  }

  lemma FreeRunGrown(g: Geometry, cl: seq<nat>, c: nat, a: seq<Slot>, b: seq<Slot>, n: nat, positions: seq<Position>)
    requires FreeRun(g, cl, a, n, positions) && n == |a| && SlotsGrown(a, b) && Clusters(g, cl + [c])
    ensures FreeRun(g, cl + [c], b, n, positions)
    ensures forall i :: n <= i < |b| ==> IsFree(b[i])
  {
    hide Layout, Clusters, SlotAt;
    forall i | 0 <= i < |positions|
      ensures SlotAt(g, cl + [c], n - |positions| + i, positions[i])
    {
      SlotAtGrown(g, cl, c, n - |positions| + i, positions[i]);
    }
    forall i | 0 <= i < |a|
      ensures b[i] == a[i]
    {
      assert b[i] == b[..|a|][i];
    }
    ZeroIsFree();
  }

  lemma CursorGrown(g: Geometry, v: View, cl: seq<nat>, c: nat)
    requires Layout(g) && Shaped(g, v) && Clusters(g, cl) && Clusters(g, cl + [c]) && g.sectorSize == 512
    ensures Cursor(g, cl + [c], |cl|, 0, |DirSlots(g, v, cl)|)
  {
    hide Multiples, Addresses, Places, Capacities, DirSlots, Shaped;
    SlotCount(g, |cl|);
    ClusterStart(g, |cl| + 1, |cl|);
  }

  lemma IsGrown(g: Geometry, v: View, w: View, cl: seq<nat>, c: nat)
    requires Shaped(g, v) && Shaped(g, w) && Clusters(g, cl) && g.clusterCount + 2 <= RESERVED_START && c in Free(g, v)
    requires w == Put(g, Claim(g, v, c), cl[|cl| - 1], c)
    ensures Grown(g, v, w, cl, c)
  {
  }

  lemma ZeroIsFree()
    ensures IsFree(Zeros(32))
  {
  }
}
