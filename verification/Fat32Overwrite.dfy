/** Overwriting a FAT32 file: new clusters first, then one sector write that swaps the directory entry,
    then the old clusters are freed.  Every state of the disk on the way shows the old or the new file. */
module Fat32Overwrite {
  import Counting
  import opened Bytes
  import opened VolumeLayout
  import opened Fat32Volume
  import opened Fat32Chains
  import opened Fat32Allocator
  import opened Fat32Files

  /** The file of entry e reads as b (see Fat32Files.ReadFile). */
  ghost predicate Reads(g: Geometry, v: View, e: Slot, b: seq<Byte>)
    requires Layout(g) && Shaped(g, v)
  {
    if ValidCluster(g, First(e)) then
      exists cl ::
        ChainFrom(g, v, First(e), cl) && Clusters(g, cl) && b == BytesAt(g, v, cl, 0, Min(Size(e), g.capacity[|cl|]))
    else b == []
  }

  /** What ReadFile returns for an entry, without device errors and with room for all, is what the file
      reads as. */
  lemma ReadFileReads(g: Geometry, v: View, e: Slot, cl: seq<nat>, out: seq<Byte>)
    requires Layout(g) && Shaped(g, v)
    requires if ValidCluster(g, First(e)) then
               ChainFrom(g, v, First(e), cl) && ReadSoFar(g, v, cl, out) && |out| == Min(Size(e), g.capacity[|cl|])
             else out == []
    ensures Reads(g, v, e, out)
  {
  }

  /** A file reads as one thing only. */
  lemma ReadsOnce(g: Geometry, v: View, e: Slot, a: seq<Byte>, b: seq<Byte>)
    requires Layout(g) && Shaped(g, v) && g.clusterCount + 2 <= EOC && Reads(g, v, e, a) && Reads(g, v, e, b)
    ensures a == b
  {
    hide Multiples, Places, Addresses, Chain, BytesAt, Shaped;
    if ValidCluster(g, First(e)) {
      var x :| ChainFrom(g, v, First(e), x) && Clusters(g, x)
          && a == BytesAt(g, v, x, 0, Min(Size(e), g.capacity[|x|]));
      var y :| ChainFrom(g, v, First(e), y) && Clusters(g, y)
          && b == BytesAt(g, v, y, 0, Min(Size(e), g.capacity[|y|]));
      ChainUnique(g, v, x, y);
    }
  }

  /** The clusters of the file of entry e. */
  ghost predicate FileChain(g: Geometry, v: View, e: Slot, cl: seq<nat>) {
    if First(e) >= 2 then ChainFrom(g, v, First(e), cl) else cl == []
  }

  /** w shows the directory dcl of v with nothing but slot k changed, and the file of slot k reads as it
      did in v or as data. */
  ghost predicate OldOrNew(g: Geometry, v: View, w: View, dcl: seq<nat>, k: nat, data: seq<Byte>)
    requires Layout(g) && Shaped(g, v) && Clusters(g, dcl) && k < g.capacity[|dcl|] / 32
  {
    && Shaped(g, w) && Chain(g, w, dcl)
    && var slots, slots' := DirSlots(g, v, dcl), DirSlots(g, w, dcl);
       && slots' == slots[k := slots'[k]]
       && ((slots'[k] == slots[k] && forall b :: Reads(g, v, slots[k], b) ==> Reads(g, w, slots[k], b))
           || (slots'[k][..11] == slots[k][..11] && slots'[k][11] == ARCHIVE && Reads(g, w, slots'[k], data)))
  }

  /** Every chain of v apart from the clusters in x is still a chain and holds the same bytes. */
  ghost predicate OthersKept(g: Geometry, v: View, w: View, x: set<nat>)
    requires Layout(g) && Shaped(g, v) && Shaped(g, w)
  {
    forall cl {:trigger Chain(g, w, cl)} :: Chain(g, v, cl) && Clusters(g, cl) && Members(cl) !! x ==>
      Chain(g, w, cl) && BytesAt(g, w, cl, 0, g.capacity[|cl|]) == BytesAt(g, v, cl, 0, g.capacity[|cl|])
  }

  lemma OthersKeptWithin(g: Geometry, v: View, w: View, x: set<nat>)
    requires Layout(g) && Shaped(g, v) && Shaped(g, w) && Within(g, v, w, Free(g, v) + x, Free(g, v) + x)
    ensures OthersKept(g, v, w, x)
  {
    hide Multiples, Places, Addresses, Within, Chain, BytesAt, Members;
    forall cl | Chain(g, v, cl) && Clusters(g, cl) && Members(cl) !! x
      ensures Chain(g, w, cl) && BytesAt(g, w, cl, 0, g.capacity[|cl|]) == BytesAt(g, v, cl, 0, g.capacity[|cl|])
    {
      ChainNotFree(g, v, cl);
      ChainKept(g, v, w, Free(g, v) + x, Free(g, v) + x, cl);
      ContentKept(g, v, w, Free(g, v) + x, Free(g, v) + x, cl, g.capacity[|cl|]);
    }
  }

  /** A file apart from the changed clusters reads as before. */
  lemma ReadsKept(g: Geometry, v: View, w: View, f: set<nat>, h: set<nat>, e: Slot, cl: seq<nat>, b: seq<Byte>)
    requires Layout(g) && Shaped(g, v) && Shaped(g, w) && g.clusterCount + 2 <= EOC
    requires FileChain(g, v, e, cl) && Within(g, v, w, f, h) && Members(cl) !! f + h && Reads(g, v, e, b)
    ensures Reads(g, w, e, b)
  {
    hide Multiples, Places, Addresses, Within, Chain, BytesAt, Members, Shaped;
    if ValidCluster(g, First(e)) {
      var cl' :| ChainFrom(g, v, First(e), cl') && Clusters(g, cl')
          && b == BytesAt(g, v, cl', 0, Min(Size(e), g.capacity[|cl'|]));
      ChainUnique(g, v, cl, cl');
      ChainKept(g, v, w, f, h, cl);
      ContentKept(g, v, w, f, h, cl, Min(Size(e), g.capacity[|cl|]));
    }
  }

  lemma SlotsKept(g: Geometry, v: View, w: View, f: set<nat>, h: set<nat>, cl: seq<nat>)
    requires Layout(g) && Shaped(g, v) && Shaped(g, w) && Clusters(g, cl)
    requires Within(g, v, w, f, h) && h !! Members(cl)
    ensures DirSlots(g, w, cl) == DirSlots(g, v, cl)
  {
    hide Multiples, Places, Addresses, ByteAt, Within, Shaped, SlotOf;
    forall i | 0 <= i < |DirSlots(g, v, cl)|
      ensures DirSlots(g, w, cl)[i] == DirSlots(g, v, cl)[i]
    {
      forall o | 32 * i <= o < 32 * i + 32
        ensures ByteAt(g, w, cl, o) == ByteAt(g, v, cl, o)
      {
        BytesKept(g, v, w, f, h, cl, o);
      }
      SlotsSame(g, v, w, cl, i);
    }
  }

  /** Before the swap only free clusters have changed: the old file is there. */
  lemma StillOld(g: Geometry, v: View, w: View, dcl: seq<nat>, k: nat, ocl: seq<nat>, data: seq<Byte>)
    requires Layout(g) && Shaped(g, v) && Shaped(g, w) && Clusters(g, dcl) && k < g.capacity[|dcl|] / 32
    requires g.clusterCount + 2 <= EOC && Chain(g, v, dcl) && FileChain(g, v, DirSlots(g, v, dcl)[k], ocl)
    requires Within(g, v, w, Free(g, v), Free(g, v))
    ensures OldOrNew(g, v, w, dcl, k, data)
    ensures OthersKept(g, v, w, Members(ocl) + Members(dcl))
  {
    hide Multiples, Places, Addresses, Within, Chain, Clusters, Members, Reads, DirSlots, OthersKept;
    var f, e := Free(g, v), DirSlots(g, v, dcl)[k];
    ChainNotFree(g, v, dcl);
    ChainKept(g, v, w, f, f, dcl);
    SlotsKept(g, v, w, f, f, dcl);
    assert Members(ocl) !! f + f by {
      if First(e) >= 2 {
        ChainNotFree(g, v, ocl);
      } else {
        NoMembers();
      }
    }
    forall b | Reads(g, v, e, b)
      ensures Reads(g, w, e, b)
    {
      ReadsKept(g, v, w, f, f, e, ocl, b);
    }
    WidenOthers(g, v, w, Members(ocl) + Members(dcl));
  }

  lemma NoMembers()
    ensures Members([]) == {}
  {
  }

  lemma WidenOthers(g: Geometry, v: View, w: View, x: set<nat>)
    requires Layout(g) && Shaped(g, v) && Shaped(g, w) && Within(g, v, w, Free(g, v), Free(g, v))
    ensures OthersKept(g, v, w, x)
  {
    OthersKeptWithin(g, v, w, x);
  }

  /** The new file, once its entry is in place, reads as data. */
  lemma StoredReads(g: Geometry, s: State, t: State, w: View, f: set<nat>, h: set<nat>, cl: seq<nat>, e: Slot,
                    data: seq<Byte>)
    requires Stored(g, s, t, First(e), cl, data) && Size(e) == |data| && g.clusterCount + 2 <= EOC
    requires Shaped(g, w) && Within(g, t[0], w, f, h) && Members(cl) !! f + h
    ensures Reads(g, w, e, data)
  {
    hide Layout, Within, Shaped, Chain, Clusters, Free, Members;
    if data != [] {
      ChainKept(g, t[0], w, f, h, cl);
      ContentKept(g, t[0], w, f, h, cl, |data|);
      HoldsBytes(g, t[0], cl, data);
      ChainStart(g, w, cl);
    }
  }

  lemma ChainStart(g: Geometry, v: View, cl: seq<nat>)
    requires Chain(g, v, cl)
    ensures ValidCluster(g, cl[0])
  {
  }

  lemma HoldsBytes(g: Geometry, v: View, cl: seq<nat>, data: seq<Byte>)
    requires Layout(g) && Shaped(g, v) && Clusters(g, cl) && |data| <= g.capacity[|cl|] && Holds(g, v, cl, data)
    ensures BytesAt(g, v, cl, 0, |data|) == data
  {
    hide Multiples, Places, Addresses, ByteAt, Shaped;
    forall o | 0 <= o < |data|
      ensures BytesAt(g, v, cl, 0, |data|)[o] == data[o]
    {
      assert ByteAt(g, v, cl, 0 + o) == data[o];
    }
  }

  /** The swap and what it leads to. */
  lemma NowNew(g: Geometry, s: State, t: State, u: View, w: View, dcl: seq<nat>, k: nat, p: Position, ocl: seq<nat>,
               ncl: seq<nat>, e: Slot, data: seq<Byte>)
    requires Stored(g, s, t, First(e), ncl, data) && Size(e) == |data| && g.clusterCount + 2 <= EOC
    requires Clusters(g, dcl) && SlotAt(g, dcl, k, p) && Chain(g, s[0], dcl)
             && FileChain(g, s[0], DirSlots(g, s[0], dcl)[k], ocl)
    requires Members(ocl) !! Members(dcl) && e[..11] == DirSlots(g, s[0], dcl)[k][..11] && e[11] == ARCHIVE
    requires Within(g, s[0], t[0], Free(g, s[0]), Free(g, s[0]))
    requires Shaped(g, u) && Within(g, t[0], u, {}, {p.cluster})
             && DirSlots(g, u, dcl) == DirSlots(g, t[0], dcl)[k := e]
    requires Shaped(g, w) && Within(g, u, w, Members(ocl), {})
    ensures DirSlots(g, w, dcl) == DirSlots(g, s[0], dcl)[k := e] && Reads(g, w, e, data)
    ensures OldOrNew(g, s[0], w, dcl, k, data)
    ensures OthersKept(g, s[0], w, Members(ocl) + Members(dcl))
  {
    hide Multiples, Places, Addresses, Within, Chain, Clusters, Members, Reads, DirSlots, OthersKept, Stored, Free;
    StoredShape(g, s, t, First(e), ncl, data);
    var v, f := s[0], Free(g, s[0]);
    SlotPlace(g, dcl, k, p);
    MemberOf(dcl, p.cluster);
    ChainNotFree(g, v, dcl);
    OldApart(g, v, DirSlots(g, v, dcl)[k], ocl);
    SlotsKept(g, v, t[0], f, f, dcl);
    SlotsKept(g, u, w, Members(ocl), {}, dcl);
    WithinTrans(g, t[0], u, w, {}, {p.cluster}, Members(ocl), {});
    WithinTrans(g, v, t[0], w, f, f, {} + Members(ocl), {p.cluster} + {});
    ChainKept(g, v, w, f + ({} + Members(ocl)), f + ({p.cluster} + {}), dcl);
    StoredReads(g, s, t, w, {} + Members(ocl), {p.cluster} + {}, ncl, e, data);
    NewOthers(g, v, w, ocl, dcl, p.cluster);
  }

  lemma MemberOf(cl: seq<nat>, c: nat)
    requires c in cl
    ensures c in Members(cl)
  {
  }

  lemma OldApart(g: Geometry, v: View, e: Slot, cl: seq<nat>)
    requires Shaped(g, v) && FileChain(g, v, e, cl)
    ensures Members(cl) !! Free(g, v)
  {
    if First(e) >= 2 {
      ChainNotFree(g, v, cl);
    }
  }

  lemma StoredShape(g: Geometry, s: State, t: State, first: nat, cl: seq<nat>, data: seq<Byte>)
    requires Stored(g, s, t, first, cl, data)
    ensures Layout(g) && |s| >= 1 && |t| == |s| && Shaped(g, s[0]) && Shaped(g, t[0]) && Members(cl) <= Free(g, s[0])
    ensures |s[0].fat| == |t[0].fat| == g.clusterCount + 2 && Free(g, t[0]) == Free(g, s[0]) - Members(cl)
    ensures |cl| == ClustersFor(g, |data|) && |Free(g, t[0])| == |Free(g, s[0])| - |cl|
  {
    assert Shaped(g, s[0]) && Shaped(g, t[0]);
  }

  lemma NewOthers(g: Geometry, v: View, w: View, ocl: seq<nat>, dcl: seq<nat>, c: nat)
    requires Layout(g) && Shaped(g, v) && Shaped(g, w) && c in dcl
    requires Within(g, v, w, Free(g, v) + ({} + Members(ocl)), Free(g, v) + ({c} + {}))
    ensures OthersKept(g, v, w, Members(ocl) + Members(dcl))
  {
    hide Layout, OthersKept, Free;
    var x := Members(ocl) + Members(dcl);
    assert Within(g, v, w, Free(g, v) + x, Free(g, v) + x);
    OthersKeptWithin(g, v, w, x);
  }

  /** Everything that every state from the end of t0 to the end of t1 shows. */
  ghost predicate AllOldOrNew(g: Geometry, v: View, t0: seq<State>, t1: seq<State>, dcl: seq<nat>, k: nat,
                              ocl: seq<nat>, data: seq<Byte>)
    requires Layout(g) && Shaped(g, v) && Clusters(g, dcl) && k < g.capacity[|dcl|] / 32
  {
    && 0 < |t0| <= |t1| && t1[..|t0|] == t0
    && forall i :: |t0| - 1 <= i < |t1| ==> ShownBy(g, v, t1[i], dcl, k, ocl, data)
  }

  ghost predicate ShownBy(g: Geometry, v: View, s: State, dcl: seq<nat>, k: nat, ocl: seq<nat>, data: seq<Byte>)
    requires Layout(g) && Shaped(g, v) && Clusters(g, dcl) && k < g.capacity[|dcl|] / 32
  {
    && |s| >= 1 && OldOrNew(g, v, s[0], dcl, k, data) && OthersKept(g, v, s[0], Members(ocl) + Members(dcl))
  }

  /** Writes to clusters that were free show the old file all the time. */
  lemma AllOld(g: Geometry, t0: seq<State>, t1: seq<State>, dcl: seq<nat>, k: nat, ocl: seq<nat>, data: seq<Byte>)
    requires Layout(g) && g.clusterCount + 2 <= EOC && Clusters(g, dcl) && k < g.capacity[|dcl|] / 32
    requires |t0| > 0 && (forall i :: 0 <= i < |t1| ==> ShapedState(g, t1[i])) && ShapedState(g, t0[|t0| - 1])
    requires var v := t0[|t0| - 1][0];
             && Trail(g, t0, t1, Free(g, v), Free(g, v)) && Chain(g, v, dcl)
                && FileChain(g, v, DirSlots(g, v, dcl)[k], ocl)
    ensures AllOldOrNew(g, t0[|t0| - 1][0], t0, t1, dcl, k, ocl, data)
  {
    hide Multiples, Places, Addresses, Chain, DirSlots, OldOrNew, OthersKept, Free, FileChain, Within;
    assert Shaped(g, t0[|t0| - 1][0]);
    var v := t0[|t0| - 1][0];
    forall i | |t0| - 1 <= i < |t1|
      ensures ShownBy(g, v, t1[i], dcl, k, ocl, data)
    {
      assert Moved(g, t0[|t0| - 1], t1[i], Free(g, v), Free(g, v));
      StillOld(g, v, t1[i][0], dcl, k, ocl, data);
    }
  }

  /** After the swap, the new file all the time. */
  lemma AllNew(g: Geometry, t0: seq<State>, t1: seq<State>, t2: seq<State>, t3: seq<State>, dcl: seq<nat>, k: nat,
               p: Position, ocl: seq<nat>, ncl: seq<nat>, e: Slot, data: seq<Byte>)
    requires |t0| > 0 && |t1| > 0 && |t3| > 0 && g.clusterCount + 2 <= EOC
    requires forall i :: 0 <= i < |t3| ==> ShapedState(g, t3[i])
    requires Stored(g, t0[|t0| - 1], t1[|t1| - 1], First(e), ncl, data) && Size(e) == |data|
    requires var v := t0[|t0| - 1][0];
             && Trail(g, t0, t1, Free(g, v), Free(g, v)) && Clusters(g, dcl) && SlotAt(g, dcl, k, p) && Chain(g, v, dcl)
             && FileChain(g, v, DirSlots(g, v, dcl)[k], ocl) && Members(ocl) !! Members(dcl)
             && e[..11] == DirSlots(g, v, dcl)[k][..11] && e[11] == ARCHIVE
    requires |t2| == |t1| + 1 && t2[..|t1|] == t1 && ShapedState(g, t2[|t1|]) && Trail(g, t2, t3, Members(ocl), {})
    requires Moved(g, t1[|t1| - 1], t2[|t1|], {}, {p.cluster})
    requires DirSlots(g, t2[|t1|][0], dcl) == DirSlots(g, t1[|t1| - 1][0], dcl)[k := e]
    requires AllOldOrNew(g, t0[|t0| - 1][0], t0, t1, dcl, k, ocl, data)
    ensures AllOldOrNew(g, t0[|t0| - 1][0], t0, t3, dcl, k, ocl, data)
    ensures var v, w := t0[|t0| - 1][0], t3[|t3| - 1][0];
            DirSlots(g, w, dcl) == DirSlots(g, v, dcl)[k := e] && Reads(g, w, e, data)
  {
    hide Multiples, Places, Addresses, Capacities, Chain, DirSlots, Shaped, ShownBy, Free, Within, Stored, Members,
         Clusters, Reads, FileChain;
    var s, t := t0[|t0| - 1], t1[|t1| - 1];
    StoredShape(g, s, t, First(e), ncl, data);
    assert Moved(g, s, t, Free(g, s[0]), Free(g, s[0]));
    forall i | |t2| - 1 <= i < |t3|
      ensures ShownBy(g, s[0], t3[i], dcl, k, ocl, data)
      ensures DirSlots(g, t3[i][0], dcl) == DirSlots(g, s[0], dcl)[k := e] && Reads(g, t3[i][0], e, data)
    {
      assert Moved(g, t2[|t1|], t3[i], Members(ocl), {});
      NowNew(g, s, t, t2[|t1|][0], t3[i][0], dcl, k, p, ocl, ncl, e, data);
      Shows(g, s[0], t3[i], dcl, k, ocl, data);
    }
    forall i | |t0| - 1 <= i < |t3|
      ensures ShownBy(g, s[0], t3[i], dcl, k, ocl, data)
    {
      if i < |t1| {
        assert t3[i] == t3[..|t2|][i] == t2[..|t1|][i] == t1[i];
      }
    }
    assert t3[..|t0|] == t3[..|t2|][..|t1|][..|t0|];
  }

  lemma Shows(g: Geometry, v: View, s: State, dcl: seq<nat>, k: nat, ocl: seq<nat>, data: seq<Byte>)
    requires Layout(g) && Shaped(g, v) && Clusters(g, dcl) && k < g.capacity[|dcl|] / 32
    requires |s| >= 1 && Shaped(g, s[0]) && OldOrNew(g, v, s[0], dcl, k, data)
    requires OthersKept(g, v, s[0], Members(ocl) + Members(dcl))
    ensures ShownBy(g, v, s, dcl, k, ocl, data)
  {
  }

  lemma TrailShaped(x: Context)
    requires x.Valid()
    ensures forall i :: 0 <= i < |x.trail| ==> ShapedState(x.G(), x.trail[i])
  {
    hide Layout, Shaped;
  }

  lemma StoredFirst(g: Geometry, s: State, t: State, first: nat, cl: seq<nat>, data: seq<Byte>)
    requires Stored(g, s, t, first, cl, data) && g.clusterCount + 2 <= RESERVED_START
    ensures Layout(g) && ShapedState(g, s) && ShapedState(g, t) && first < 0x1_0000_0000
    ensures |s[0].fat| == g.clusterCount + 2 && Members(cl) <= Free(g, s[0])
    ensures first != 0 ==> first in Members(cl) && Closed(g, t[0], Members(cl))
  {
    hide Multiples, Places, Addresses, Holds;
    assert Shaped(g, s[0]);
    if data != [] {
      ChainSpan(g, t[0], t[0], cl);
    }
  }

  /** What is free once the old chain is freed: nothing is lost and nothing is freed twice. */
  lemma Conserved(g: Geometry, s: State, t: State, u: View, w: View, first: nat, ncl: seq<nat>, e: Slot,
                  ocl: seq<nat>, data: seq<Byte>)
    requires Stored(g, s, t, first, ncl, data) && Moved(g, s, t, Free(g, s[0]), Free(g, s[0]))
    requires g.clusterCount + 2 <= EOC && First(e) != 1 && FileChain(g, s[0], e, ocl) && Shaped(g, u)
             && u.fat == t[0].fat
    requires if ocl == [] then w == u else Freed(g, u, w, ocl)
    ensures |w.fat| == g.clusterCount + 2
    ensures |Free(g, w)| == |Free(g, s[0])| + |ocl| - ClustersFor(g, |data|)
  {
    hide Multiples, Places, Addresses, Capacities, Chain, Shaped, Within, Freed, Stored, Free, ClustersFor, Members;
    StoredShape(g, s, t, first, ncl, data);
    SameFatFree(g, t[0], u);
    if First(e) >= 2 {
      OldStands(g, s, t, u, e, ocl);
      FreedCount(g, u, w, ocl);
    }
  }

  lemma OldStands(g: Geometry, s: State, t: State, u: View, e: Slot, ocl: seq<nat>)
    requires |s| >= 1 && |s[0].fat| == g.clusterCount + 2 && Moved(g, s, t, Free(g, s[0]), Free(g, s[0]))
    requires First(e) >= 2 && FileChain(g, s[0], e, ocl) && u.fat == t[0].fat
    ensures ChainFrom(g, u, First(e), ocl)
  {
    ChainNotFree(g, s[0], ocl);
    assert Within(g, s[0], t[0], Free(g, s[0]), Free(g, s[0]));
    ChainKept(g, s[0], t[0], Free(g, s[0]), Free(g, s[0]), ocl);
    SameFatChain(g, t[0], u, ocl);
  }

  /** The old chain, when there is one, still stands after the swap. */
  lemma OldOrNone(g: Geometry, s: State, t: State, u: View, e: Slot, ocl: seq<nat>)
    requires |s| >= 1 && |s[0].fat| == g.clusterCount + 2 && Moved(g, s, t, Free(g, s[0]), Free(g, s[0]))
    requires FileChain(g, s[0], e, ocl) && u.fat == t[0].fat
    ensures FileChain(g, u, e, ocl)
  {
    if First(e) >= 2 {
      OldStands(g, s, t, u, e, ocl);
    }
  }

  /** The entry's clusters do not form a finite chain. */
  ghost predicate Broken(g: Geometry, v: View, e: Slot) {
    First(e) >= 2 && !exists cl :: ChainFrom(g, v, First(e), cl)
  }

  /** Free the chain of the entry that was replaced, when it had one. */
  method FreeOld(x: Context, e: Slot, ghost whole: bool, ghost ocl: seq<nat>) returns (ok: bool)
    requires x.Valid() && (whole ==> FileChain(x.G(), x.V(), e, ocl))
    modifies x`trail, x`freeCount, x`nextFree, x.m
    ensures x.Valid() && x.m.faults >= old(x.m.faults)
    ensures whole ==> Trail(x.G(), old(x.trail), x.trail, Members(ocl), {})
    ensures whole && x.m.faults == old(x.m.faults) ==> (ok <==> First(e) != 1)
    ensures whole && ok && x.m.faults == old(x.m.faults) ==>
              if ocl == [] then x.V() == old(x.V()) else Freed(x.G(), old(x.V()), x.V(), ocl)
  {
    hide Layout, ViewOf, StateOf, Traced, Shaped, Copies, Trail, Chain, Free, Members, Freed, Closed;
    ghost var t, v := x.trail, x.V();
    ok := true;
    if First(e) == 0 {
      TrailStay(x.G(), t);
      TrailWiden(x.G(), t, t, {}, {}, Members(ocl), {});
    } else {
      if whole && First(e) >= 2 {
        ChainSpan(x.G(), v, v, ocl);
      }
      AllClosed(x);
      ok := FreeChain(x, First(e), if whole then Members(ocl) else Counting.Range(2, x.G().clusterCount));
      NoChainOutside(x.G(), v, 1);
    }
  }

  lemma AllClosed(x: Context)
    requires x.Valid()
    ensures Closed(x.G(), x.V(), Counting.Range(2, x.G().clusterCount))
    ensures forall c :: ValidCluster(x.G(), c) ==> c in Counting.Range(2, x.G().clusterCount)
  {
  }

  /** Give the new chain back when the entry could not be written. */
  method GiveUp(x: Context, first: nat, ghost ncl: seq<nat>, ghost s: State, ghost data: seq<Byte>)
    requires x.Valid() && |s| >= 1 && Stored(x.G(), s, x.S(), first, ncl, data)
    requires ValidCluster(x.G(), first) ==> first in Members(ncl) && Closed(x.G(), x.V(), Members(ncl))
    modifies x`trail, x`freeCount, x`nextFree, x.m
    ensures x.Valid() && x.m.faults >= old(x.m.faults)
    ensures first == 0 ==> x.trail == old(x.trail)
    ensures first != 0 ==> Trail(x.G(), old(x.trail), x.trail, Members(ncl), {})
    ensures |s[0].fat| == x.G().clusterCount + 2
    ensures x.m.faults == old(x.m.faults) ==> Free(x.G(), x.V()) == Free(x.G(), s[0])
  {
    hide Multiples, Places, Addresses, Capacities, ViewOf, StateOf, Traced, Shaped, Copies, Trail, Chain, Free, Stored,
         Members, FreedState, Freed;
    ghost var u := x.S();
    NotSwapped(x.G(), s, u, u, first, ncl, data);
    if first != 0 {
      var freed := FreeChain(x, first, Members(ncl));
      if x.m.faults == old(x.m.faults) {
        NotSwapped(x.G(), s, u, x.S(), first, ncl, data);
      }
    }
  }

  /** The swap: write the new entry over the old one, then free the old chain. */
  method SwapIn(x: Context, p: Position, entry: Slot, data: seq<Byte>, stamp: Stamp, first: nat, ghost ncl: seq<nat>,
                ghost t0: seq<State>, ghost dcl: seq<nat>, ghost k: nat, ghost whole: bool, ghost ocl: seq<nat>)
                returns (ok: bool, ghost swapped: bool)
    requires x.Valid() && |data| <= 0xFFFF_FFFF && |t0| > 0 && ShapedState(x.G(), t0[|t0| - 1])
    requires Clusters(x.G(), dcl) && SlotAt(x.G(), dcl, k, p) && Chain(x.G(), t0[|t0| - 1][0], dcl)
    requires entry == DirSlots(x.G(), t0[|t0| - 1][0], dcl)[k]
    requires whole ==> FileChain(x.G(), t0[|t0| - 1][0], entry, ocl) && Members(ocl) !! Members(dcl)
    requires Stored(x.G(), t0[|t0| - 1], x.S(), first, ncl, data)
    requires Trail(x.G(), t0, x.trail, Free(x.G(), t0[|t0| - 1][0]), Free(x.G(), t0[|t0| - 1][0]))
    modifies x`trail, x`freeCount, x`nextFree, x.m
    ensures x.Valid() && x.m.faults >= old(x.m.faults)
    ensures whole ==> AllOldOrNew(x.G(), t0[|t0| - 1][0], t0, x.trail, dcl, k, ocl, data)
    ensures whole && ok ==> Reads(x.G(), x.V(), DirSlots(x.G(), x.V(), dcl)[k], data)
    ensures whole && ok ==> NewChain(x.G(), t0[|t0| - 1][0], x.V(), DirSlots(x.G(), x.V(), dcl)[k], dcl, ncl)
    ensures whole && ok && x.m.faults == old(x.m.faults) ==>
              |Free(x.G(), x.V())| == |Free(x.G(), t0[|t0| - 1][0])| + |ocl| - ClustersFor(x.G(), |data|)
    ensures whole && x.m.faults == old(x.m.faults) ==> (ok <==> First(entry) != 1)
    ensures !swapped ==> !ok && x.m.faults > old(x.m.faults)
    ensures whole && swapped ==> First(DirSlots(x.G(), x.V(), dcl)[k]) == first
    ensures !swapped && x.m.faults == old(x.m.faults) + 1 ==>
              |x.V().fat| == x.G().clusterCount + 2 && Free(x.G(), x.V()) == Free(x.G(), t0[|t0| - 1][0])
  {
    hide Multiples, Places, Addresses, Capacities, ViewOf, StateOf, Traced, Shaped, Copies, Trail, Chain, DirSlots,
         Free, Stored, Members, Clusters, AllOldOrNew, Reads, Moved, FileChain, SlotAt, ClustersFor, FreedState,
         Freed, NewChain;
    ghost var g, s, t1 := x.G(), t0[|t0| - 1], x.trail;
    ghost var u := x.S();
    StoredFirst(g, s, u, first, ncl, data);
    ghost var free := Free(g, s[0]);
    SlotPlace(g, dcl, k, p);
    TrailShaped(x);
    if whole {
      AllOld(g, t0, t1, dcl, k, ocl, data);
    }
    var target := NewEntry(entry, first, |data|, stamp);
    ok := PositionWrite(x, p, target, dcl, k);
    swapped := ok;
    if !ok {
      GiveUp(x, first, ncl, s, data);
      if first != 0 {
        TrailMore(g, t0, t1, x.trail, free, free, Members(ncl), {});
        TrailShaped(x);
        if whole {
          AllOld(g, t0, x.trail, dcl, k, ocl, data);
        }
      }
      return;
    }
    ghost var t2, v2 := x.trail, x.V();
    TrailShaped(x);
    TrailEnd(g, t0, t1, free, free);
    if whole {
      OldOrNone(g, s, u, v2, entry, ocl);
    }
    ok := FreeOld(x, entry, whole, ocl);
    if whole {
      TrailEnd(g, t2, x.trail, Members(ocl), {});
      TrailShaped(x);
      AllNew(g, t0, t1, t2, x.trail, dcl, k, p, ocl, ncl, target, data);
      NewStands(g, s, u, t2[|t2| - 1], x.S(), target, dcl, entry, ocl, ncl, data);
      if ok && x.m.faults == old(x.m.faults) {
        Conserved(g, s, u, v2, x.V(), first, ncl, entry, ocl, data);
      }
    }
  }

  /** Without data, or with its chain given back, the free clusters are those there were. */
  lemma NotSwapped(g: Geometry, s: State, u: State, w: State, first: nat, ncl: seq<nat>, data: seq<Byte>)
    requires Stored(g, s, u, first, ncl, data) && |s| >= 1 && |w| >= 1 && g.clusterCount + 2 <= EOC
    requires FreedState(g, u, w, ncl) || w == u
    ensures |s[0].fat| == |u[0].fat| == |w[0].fat| == g.clusterCount + 2
    ensures first == 0 || FreedState(g, u, w, ncl) ==> Free(g, w[0]) == Free(g, s[0])
    ensures first != 0 ==> ChainFrom(g, u[0], first, ncl)
  {
    hide Multiples, Places, Addresses, Capacities, Holds, Free, Chain, Freed;
    StoredNumbers(g, s, u, first, ncl, data);
    assert Members([]) == {};
    if w != u || (first != 0 && FreedState(g, u, w, ncl)) {
      assert Freed(g, u[0], w[0], ncl);
      if first == 0 {
        FreedNothing(g, u[0], w[0], ncl);
        SameFatFree(g, u[0], w[0]);
      } else {
        FreedCount(g, u[0], w[0], ncl);
      }
    }
  }

  lemma FreedNothing(g: Geometry, v: View, w: View, ncl: seq<nat>)
    requires Freed(g, v, w, ncl) && ncl == []
    ensures w.fat == v.fat
  {
  }

  lemma StoredNumbers(g: Geometry, s: State, u: State, first: nat, ncl: seq<nat>, data: seq<Byte>)
    requires Stored(g, s, u, first, ncl, data) && |s| >= 1
    ensures |u| >= 1 && |s[0].fat| == |u[0].fat| == g.clusterCount + 2 && (first == 0 ==> ncl == [])
    ensures Free(g, s[0]) == Free(g, u[0]) + Members(ncl) && (first != 0 ==> ChainFrom(g, u[0], first, ncl))
  {
    hide Multiples, Places, Addresses, Capacities, Holds, Free, Chain;
    assert Shaped(g, s[0]) && Shaped(g, u[0]);
  }

  /** The clusters of the new contents were free and lie apart from the directory. */
  ghost predicate NewChain(g: Geometry, v: View, w: View, e: Slot, dcl: seq<nat>, ncl: seq<nat>) {
    && |v.fat| == g.clusterCount + 2 && (if First(e) >= 2 then ChainFrom(g, w, First(e), ncl) else ncl == [])
    && Members(ncl) <= Free(g, v) && Members(ncl) !! Members(dcl) && First(e) != 1
  }

  lemma NewStands(g: Geometry, s: State, t: State, u: State, w: State, e: Slot, dcl: seq<nat>, e0: Slot,
                  ocl: seq<nat>, ncl: seq<nat>, data: seq<Byte>)
    requires Stored(g, s, t, First(e), ncl, data) && g.clusterCount + 2 <= RESERVED_START
    requires |u| >= 1 && u[0].fat == t[0].fat && Chain(g, s[0], dcl) && Moved(g, u, w, Members(ocl), {})
    requires FileChain(g, s[0], e0, ocl)
    ensures NewChain(g, s[0], w[0], e, dcl, ncl)
  {
    hide Multiples, Places, Addresses, Capacities, Holds, Free;
    ChainNotFree(g, s[0], dcl);
    assert |w| >= 1 && Within(g, u[0], w[0], Members(ocl), {});
    if First(e0) >= 2 {
      ChainNotFree(g, s[0], ocl);
    }
    if data != [] {
      assert Members(ncl) !! Members(ocl);
      forall i | 0 <= i < |ncl|
        ensures w[0].fat[ncl[i]] == t[0].fat[ncl[i]]
      {
        assert ncl[i] in Members(ncl);
      }
    }
  }

  /** fat32_context_write_file on a file that exists: entry is slot k, at position p, of the directory
      made of the clusters dcl, and ocl are the clusters of the file.  Whatever the device refuses, and
      wherever the run is cut, the file reads as its old or its new contents and all others are as they
      were.  When the call succeeds, it is the new contents, in clusters ncl that were free.  A file whose
      chain is broken is refused.  Without refused requests the call succeeds exactly when the entry is no
      directory, not read-only and not broken, the data is short enough and there is room for it. */
  method Overwrite(x: Context, p: Position, entry: Slot, data: seq<Byte>, stamp: Stamp,
                   ghost dcl: seq<nat>, ghost k: nat, ghost ocl: seq<nat>) returns (ok: bool, ghost ncl: seq<nat>)
    requires x.Valid() && Clusters(x.G(), dcl) && Chain(x.G(), x.V(), dcl) && SlotAt(x.G(), dcl, k, p)
    requires entry == DirSlots(x.G(), x.V(), dcl)[k]
    requires !Broken(x.G(), x.V(), entry) ==> FileChain(x.G(), x.V(), entry, ocl) && Members(ocl) !! Members(dcl)
    modifies x`trail, x`freeCount, x`nextFree, x.m
    ensures x.Valid() && x.m.faults >= old(x.m.faults)
    ensures !old(Broken(x.G(), x.V(), entry)) ==>
              AllOldOrNew(x.G(), old(x.V()), old(x.trail), x.trail, dcl, k, ocl, data)
    ensures !old(Broken(x.G(), x.V(), entry)) && ok ==>
              && Reads(x.G(), x.V(), DirSlots(x.G(), x.V(), dcl)[k], data)
              && NewChain(x.G(), old(x.V()), x.V(), DirSlots(x.G(), x.V(), dcl)[k], dcl, ncl)
    ensures !old(Broken(x.G(), x.V(), entry)) && ok && x.m.faults == old(x.m.faults) ==>
              |Free(x.G(), x.V())| == |Free(x.G(), old(x.V()))| + |ocl| - ClustersFor(x.G(), |data|)
    ensures Bit(entry[11], DIRECTORY) || Bit(entry[11], READ_ONLY) || |data| > 0xFFFF_FFFF ==>
              !ok && x.trail == old(x.trail)
    ensures old(Broken(x.G(), x.V(), entry)) && x.m.faults == old(x.m.faults) ==> !ok && x.trail == old(x.trail)
    ensures x.m.faults == old(x.m.faults) ==>
              (ok <==> && !Bit(entry[11], DIRECTORY) && !Bit(entry[11], READ_ONLY) && |data| <= 0xFFFF_FFFF
                       && !old(Broken(x.G(), x.V(), entry)) && First(entry) != 1
                       && !old(Scarce(x, ClustersFor(x.G(), |data|))))
  {
    hide Multiples, Places, Addresses, Capacities, ViewOf, StateOf, Traced, Shaped, Copies, Trail, Chain, DirSlots,
         Free, Stored, Members, Clusters, AllOldOrNew, Reads, Moved, FileChain, SlotAt, Bit, ClustersFor, NewChain;
    ghost var g, t0, v := x.G(), x.trail, x.V();
    ghost var free, whole := Free(g, v), !Broken(g, v, entry);
    ncl := [];
    SlotPlace(g, dcl, k, p);
    TrailStay(g, t0);
    TrailWiden(g, t0, t0, {}, {}, free, free);
    TrailShaped(x);
    if whole {
      AllOld(g, t0, t0, dcl, k, ocl, data);
    }
    if |data| > 0xFFFF_FFFF || Bit(entry[11], DIRECTORY) || Bit(entry[11], READ_ONLY) {
      return false, ncl;
    }
    if First(entry) >= 2 {
      ok := ChainValid(x, First(entry));
      if !ok {
        return;
      }
    }
    var first;
    ok, first, ncl := StoreData(x, data);
    if !ok {
      TrailShaped(x);
      if whole {
        AllOld(g, t0, x.trail, dcl, k, ocl, data);
      }
      return;
    }
    ghost var swapped;
    ok, swapped := SwapIn(x, p, entry, data, stamp, first, ncl, t0, dcl, k, whole, ocl);
  }

  // ----- files whose chain is broken

  /** A walk from cluster c leads to a cluster in x. */
  ghost predicate LeadsTo(g: Geometry, v: View, c: nat, x: set<nat>) {
    exists w :: Walk(g, v, w) && w[0] == c && w[|w| - 1] in x
  }

  /** When a refused read has hidden the break of a chain, the new data is stored and the old chain freed.
      There is a chain to free if and only if the broken one leads into the clusters of the new data, free
      until then; and that chain takes some of them along. */
  lemma BrokenIff(g: Geometry, s: State, t: State, e: Slot, first: nat, ncl: seq<nat>, data: seq<Byte>)
    requires Stored(g, s, t, first, ncl, data) && |s| >= 1 && Broken(g, s[0], e)
    ensures (exists cl :: ChainFrom(g, t[0], First(e), cl)) <==> LeadsTo(g, s[0], First(e), Members(ncl))
    ensures forall cl :: ChainFrom(g, t[0], First(e), cl) ==> exists i :: 0 <= i < |ncl| && ncl[i] in cl
  {
    hide Stored, Broken, Free, Chain, Walk, First;
    StoredFats(g, s, t, first, ncl, data);
    forall cl | ChainFrom(g, t[0], First(e), cl)
      ensures LeadsTo(g, s[0], First(e), Members(ncl)) && exists i :: 0 <= i < |ncl| && ncl[i] in cl
    {
      var w := MeetsNew(g, s[0], t[0], e, ncl, cl);
    }
    if LeadsTo(g, s[0], First(e), Members(ncl)) {
      var cl := RunsOn(g, s[0], t[0], first, ncl, First(e));
    }
  }

  /** A chain that was broken before begins with a walk to a cluster of the new data. */
  lemma MeetsNew(g: Geometry, v: View, w: View, e: Slot, ncl: seq<nat>, cl: seq<nat>) returns (walk: seq<nat>)
    requires |v.fat| == |w.fat| == g.clusterCount + 2 && forall c :: ValidCluster(g, c) && c !in ncl ==>
               w.fat[c] == v.fat[c]
    requires Broken(g, v, e) && ChainFrom(g, w, First(e), cl)
    ensures Walk(g, v, walk) && walk[0] == First(e) && walk[|walk| - 1] in Members(ncl)
    ensures exists i :: 0 <= i < |ncl| && ncl[i] in cl
  {
    hide Entry, First;
    var i := FirstIn(cl, ncl, |cl|);
    walk := [First(e)];
    if i == |cl| {
      ApartChain(g, v, w, ncl, cl);
    } else {
      walk := cl[..i + 1];
      assert forall k :: 0 <= k < i ==> cl[k] !in ncl;
      var j :| 0 <= j < |ncl| && ncl[j] == cl[i];
    }
  }

  lemma ApartChain(g: Geometry, v: View, w: View, ncl: seq<nat>, cl: seq<nat>)
    requires |v.fat| == |w.fat| == g.clusterCount + 2 && forall c :: ValidCluster(g, c) && c !in ncl ==>
               w.fat[c] == v.fat[c]
    requires Chain(g, w, cl) && forall k :: 0 <= k < |cl| ==> cl[k] !in ncl
    ensures ChainFrom(g, v, cl[0], cl)
  {
    hide Entry;
  }

  lemma StoredFats(g: Geometry, s: State, t: State, first: nat, ncl: seq<nat>, data: seq<Byte>)
    requires Stored(g, s, t, first, ncl, data) && |s| >= 1
    ensures |t| == |s| && |s[0].fat| == |t[0].fat| == g.clusterCount + 2 && Members(ncl) <= Free(g, s[0])
    ensures forall c :: ValidCluster(g, c) && c !in ncl ==> t[0].fat[c] == s[0].fat[c]
    ensures ncl != [] ==> ChainFrom(g, t[0], first, ncl)
  {
    assert Shaped(g, s[0]) && Shaped(g, t[0]);
  }

  /** The first of the first n elements of a that b contains, or n. */
  lemma {:induction false} FirstIn(a: seq<nat>, b: seq<nat>, n: nat) returns (i: nat)
    requires n <= |a|
    ensures i <= n && (i < n ==> a[i] in b) && forall k :: 0 <= k < i ==> a[k] !in b
  {
    i := 0;
    if n > 0 {
      i := FirstIn(a, b, n - 1);
      if i == n - 1 && a[n - 1] !in b {
        i := n;
      }
    }
  }

  /** A walk that ends in the new data goes on to the end of it. */
  lemma RunsOn(g: Geometry, v: View, t: View, first: nat, ncl: seq<nat>, c: nat) returns (cl: seq<nat>)
    requires |v.fat| == |t.fat| == g.clusterCount + 2 && forall c :: ValidCluster(g, c) && c !in ncl ==>
               t.fat[c] == v.fat[c]
    requires Members(ncl) <= Free(g, v) && (ncl != [] ==> ChainFrom(g, t, first, ncl)) && LeadsTo(g, v, c, Members(ncl))
    ensures ChainFrom(g, t, c, cl)
  {
    hide Entry;
    var w :| Walk(g, v, w) && w[0] == c && w[|w| - 1] in Members(ncl);
    var i :| 0 <= i < |ncl| && ncl[i] == w[|w| - 1];
    WalkKept(g, v, t, ncl, w);
    cl := w + ncl[i + 1..];
    WalkThenChain(g, t, w, ncl, i);
  }

  lemma WalkKept(g: Geometry, v: View, t: View, ncl: seq<nat>, w: seq<nat>)
    requires |v.fat| == |t.fat| == g.clusterCount + 2 && forall c :: ValidCluster(g, c) && c !in ncl ==>
               t.fat[c] == v.fat[c]
    requires Members(ncl) <= Free(g, v) && Walk(g, v, w)
    ensures Walk(g, t, w)
  {
    hide Entry;
    forall k | 0 <= k < |w| - 1
      ensures w[k] !in ncl
    {
      assert Entry(v.fat[w[k]]) == w[k + 1] && w[k] !in Members(ncl);
    }
  }

  lemma WalkThenChain(g: Geometry, t: View, w: seq<nat>, ncl: seq<nat>, i: nat)
    requires Walk(g, t, w) && Chain(g, t, ncl) && i < |ncl| && w[|w| - 1] == ncl[i]
    ensures ChainFrom(g, t, w[0], w + ncl[i + 1..])
  {
    hide Entry;
    var cl := w + ncl[i + 1..];
    forall k | 0 <= k < |cl|
      ensures cl[k] == if k < |w| then w[k] else ncl[i + 1 + (k - |w|)]
    {
    }
    forall k | 0 <= k < |cl| - 1
      ensures Entry(t.fat[cl[k]]) == cl[k + 1]
    {
      if k >= |w| - 1 {
        var j := i + (k - (|w| - 1));
        assert Entry(t.fat[ncl[j]]) == ncl[j + 1];
      }
    }
    assert cl[|cl| - 1] == ncl[|ncl| - 1];
  }

  /** Once clusters of a chain have been freed along with another one, no chain is left at its start. */
  lemma NoChainLeft(g: Geometry, v: View, w: View, ncl: seq<nat>, cl: seq<nat>, e: Slot)
    requires Chain(g, v, ncl) && Freed(g, v, w, cl) && First(e) == ncl[0] && g.clusterCount + 2 <= EOC
    requires exists i :: 0 <= i < |ncl| && ncl[i] in cl
    ensures Broken(g, w, e)
  {
    hide Merge, Entry;
    var i := FirstIn(ncl, cl, |ncl|);
    var part := ncl[..i + 1];
    assert part[0] == ncl[0] && part[i] == ncl[i];
    assert forall k :: 0 <= k < i ==> part[k] == ncl[k] && ncl[k] !in cl;
    assert Walk(g, w, part);
    MergedFree(v.fat[ncl[i]]);
    forall c2 | ChainFrom(g, w, First(e), c2)
      ensures ncl[i] !in Free(g, w)
    {
      WalkInChain(g, w, part, c2);
      ChainNotFree(g, w, c2);
      assert c2[i] in Members(c2);
    }
    assert ncl[i] in Free(g, w);
  }

  lemma MergedFree(word: nat)
    requires word < 0x1_0000_0000
    ensures Entry(Merge(word, 0)) == 0
  {
  }

  /** A run of the overwrite on a file whose chain is broken, which takes a refused read to get past the
      check.  When the chain leads into the new data and the freeing of the old chain meets no refusal,
      the file that was just written has no chain any more. */
  method BrokenRun(x: Context, p: Position, entry: Slot, data: seq<Byte>, stamp: Stamp, ghost dcl: seq<nat>,
                   ghost k: nat)
    returns (ok: bool, freed: bool, ghost leads: bool, ghost quiet: bool)
    requires x.Valid() && Clusters(x.G(), dcl) && Chain(x.G(), x.V(), dcl) && SlotAt(x.G(), dcl, k, p)
    requires entry == DirSlots(x.G(), x.V(), dcl)[k] && Broken(x.G(), x.V(), entry) && 0 < |data| <= 0xFFFF_FFFF
    modifies x`trail, x`freeCount, x`nextFree, x.m
    ensures x.Valid() && (ok ==> x.m.faults > old(x.m.faults))
    ensures ok && quiet ==> (freed <==> leads)
    ensures ok && quiet && leads ==> Broken(x.G(), x.V(), DirSlots(x.G(), x.V(), dcl)[k])
  {
    hide Multiples, Places, Addresses, Capacities, ViewOf, StateOf, Traced, Shaped, Copies, Trail, Chain, DirSlots,
         Free, Stored, Members, Clusters, SlotAt, ClustersFor, FreedState, Moved, Broken, LeadsTo, NewEntry, First;
    ghost var g, s := x.G(), x.S();
    freed, leads, quiet := false, false, false;
    SlotPlace(g, dcl, k, p);
    BrokenMeans(g, s[0], entry);
    ok := ChainValid(x, First(entry));
    if !ok {
      return;
    }
    var first;
    ghost var ncl;
    ok, first, ncl := StoreData(x, data);
    if !ok {
      return;
    }
    ghost var t := x.S();
    StoredFirst(g, s, t, first, ncl, data);
    var target := NewEntry(entry, first, |data|, stamp);
    ok := PositionWrite(x, p, target, dcl, k);
    if !ok {
      return;
    }
    ghost var u, before := x.S(), x.m.faults;
    leads := LeadsTo(g, s[0], First(entry), Members(ncl));
    AllClosed(x);
    freed := FreeChain(x, First(entry), Counting.Range(2, g.clusterCount));
    quiet := x.m.faults == before;
    BrokenIff(g, s, t, entry, first, ncl, data);
    StoredFats(g, s, t, first, ncl, data);
    StoredSome(g, s, t, first, ncl, data);
    SameFatChains(g, t[0], u[0]);
    if quiet && leads {
      ghost var cl :| ChainFrom(g, u[0], First(entry), cl);
      FreedFirst(g, u, x.S(), cl);
      FreedSlots(g, u[0], x.V(), dcl, k, cl);
      NoChainLeft(g, u[0], x.V(), ncl, cl, target);
    }
  }

  lemma BrokenMeans(g: Geometry, v: View, e: Slot)
    requires Broken(g, v, e)
    ensures !exists cl :: ChainFrom(g, v, First(e), cl)
  {
  }

  lemma StoredSome(g: Geometry, s: State, t: State, first: nat, ncl: seq<nat>, data: seq<Byte>)
    requires Stored(g, s, t, first, ncl, data) && data != []
    ensures ncl != []
  {
  }

  /** Chains depend on the FAT only. */
  lemma SameFatChains(g: Geometry, v: View, w: View)
    requires w.fat == v.fat
    ensures forall c, cl :: ChainFrom(g, w, c, cl) <==> ChainFrom(g, v, c, cl)
  {
  }

  lemma FreedFirst(g: Geometry, s: State, t: State, cl: seq<nat>)
    requires FreedState(g, s, t, cl) && |s| >= 1
    ensures Freed(g, s[0], t[0], cl)
  {
  }

  lemma FreedSlots(g: Geometry, v: View, w: View, dcl: seq<nat>, k: nat, cl: seq<nat>)
    requires Layout(g) && Shaped(g, v) && Shaped(g, w) && Clusters(g, dcl) && Freed(g, v, w, cl)
    ensures DirSlots(g, w, dcl) == DirSlots(g, v, dcl)
  {
    hide Multiples, Places, Addresses, Capacities, DirSlots, Shaped;
    WithinFreed(g, v, w, cl);
    SlotsKept(g, v, w, Members(cl), {}, dcl);
  }

  lemma WithinFreed(g: Geometry, v: View, w: View, cl: seq<nat>)
    requires Freed(g, v, w, cl)
    ensures Within(g, v, w, Members(cl), {})
  {
  }
}
