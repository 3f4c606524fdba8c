/** The undo journal of the exFAT driver and everything that writes through it: FAT entries, stream
    bytes and allocation bits. */
module ExfatVolume {
  import Arithmetic
  import opened Bytes
  import opened Machines
  import opened VolumeLayout
  import opened ExfatLayout

  const MAX_TRANSACTION_SECTORS: nat := 256

  datatype JournalEntry = JournalEntry(lba: nat, before: Sector)

  predicate Noted(journal: seq<JournalEntry>, lba: nat) {
    exists i :: 0 <= i < |journal| && journal[i].lba == lba
  }

  /** Sector lba belongs to a cluster that was free in the given view. */
  ghost predicate Spare(g: Geometry, v: View, bm: seq<nat>, lba: nat)
    requires Layout(g) && BitmapIs(g, v, bm)
  {
    exists c :: InCluster(g, lba, c) && !Allocated(g, v, bm, c)
  }

  /** Every sector of img, outside clusters that were free in base, is as it was in base. */
  ghost predicate Restored(g: Geometry, bm: seq<nat>, base: Image, img: Image)
    requires Layout(g)
  {
    && Fits(g, base) && Fits(g, img) && |base| == |img| && BitmapIs(g, ViewOf(g, base), bm)
    && forall lba :: 0 <= lba < |img| && !Spare(g, ViewOf(g, base), bm, lba) ==> img[lba] == base[lba]
  }

  /** The journal suffices to undo everything that happened since base. */
  ghost predicate Undoable(g: Geometry, bm: seq<nat>, base: Image, img: Image, journal: seq<JournalEntry>)
    requires Layout(g)
  {
    && Fits(g, base) && Fits(g, img) && |base| == |img| && BitmapIs(g, ViewOf(g, base), bm)
    && (forall i :: 0 <= i < |journal| ==> journal[i].lba < |img| && |journal[i].before| == g.sectorSize)
    && (forall i, k :: 0 <= i < k < |journal| ==> journal[i].lba != journal[k].lba)
    && (forall i :: 0 <= i < |journal| && !Spare(g, ViewOf(g, base), bm, journal[i].lba) ==>
          journal[i].before == base[journal[i].lba])
    && (forall lba :: 0 <= lba < |img| && !Spare(g, ViewOf(g, base), bm, lba) && !Noted(journal, lba) ==>
          img[lba] == base[lba])
  }

  /** Boot sector b is a with the VolumeDirty flag set or cleared; nothing else differs. */
  ghost predicate FlagIs(a: Sector, b: Sector, on: bool) {
    && |a| == |b| >= 512 && (b[106] / 2 % 2 == 1 <==> on) && b[106] % 2 == a[106] % 2 && b[106] / 4 == a[106] / 4
    && forall i :: 0 <= i < |a| && i != 106 ==> b[i] == a[i]
  }

  function WithPercent(s: Sector, percent: Option<Byte>): (r: Sector) {
    if percent.Some? && |s| >= 512 then s[112 := percent.value] else s
  }

  /** From a to b both boot sectors have received the percentage, if any, and the flag; nothing else differs. */
  ghost predicate Stamped(a: Image, b: Image, percent: Option<Byte>, on: bool) {
    && |a| == |b| && |a| > 12
    && FlagIs(WithPercent(a[0], percent), b[0], on) && FlagIs(WithPercent(a[12], percent), b[12], on)
    && forall lba :: 0 <= lba < |a| && lba != 0 && lba != 12 ==> b[lba] == a[lba]
  }

  lemma FlagSector(s: Sector, on: bool)
    requires |s| >= 512
    ensures FlagIs(s, Splice(s, 106, Le16(WithFlag(U16(s, 106), on))), on)
  {
    hide WithFlag;
    var r := Splice(s, 106, Le16(WithFlag(U16(s, 106), on)));
    FlagBytes(s[106], s[107], on);
    assert r[106] == Le16(WithFlag(U16(s, 106), on))[0] && r[107] == Le16(WithFlag(U16(s, 106), on))[1];
  }

  lemma FlagBytes(low: nat, high: nat, on: bool)
    requires low < 256 && high < 256
    ensures var r := WithFlag(low + 256 * high, on);
            && r / 256 % 256 == high && (r % 256 / 2 % 2 == 1 <==> on) && r % 256 % 2 == low % 2
               && r % 256 / 4 == low / 4
  {
    hide WithFlag;
    var a, b, c: nat := low / 4, if on then 1 else 0, low % 2;
    FlagWord(low, high, on);
    FlagParts(a, b, c, high);
  }

  lemma FlagWord(low: nat, high: nat, on: bool)
    ensures WithFlag(low + 256 * high, on) == 4 * (low / 4) + (if on then 2 else 0) + low % 2 + 256 * high
  {
    Arithmetic.DivUnique(low + 256 * high, 4, low / 4 + 64 * high, low % 4);
    Arithmetic.DivUnique(low + 256 * high, 2, low / 2 + 128 * high, low % 2);
  }

  lemma FlagParts(a: nat, b: nat, c: nat, high: nat)
    requires a < 64 && b <= 1 && c <= 1 && high < 256
    ensures var q := 4 * a + 2 * b + c;
            var n := q + 256 * high;
            n / 256 % 256 == high && n % 256 == q && q / 2 % 2 == b && q % 2 == c && q / 4 == a
  {
    var q := 4 * a + 2 * b + c;
    Arithmetic.DivUnique(q + 256 * high, 256, high, q);
    Arithmetic.DivUnique(q, 4, a, 2 * b + c);
    Arithmetic.DivUnique(q, 2, 2 * a + b, c);
    Arithmetic.DivUnique(2 * a + b, 2, a, b);
  }

  /** A restored image has the FAT of base and the contents of every cluster allocated in base. */
  lemma RestoredView(g: Geometry, bm: seq<nat>, base: Image, img: Image)
    requires Layout(g) && Restored(g, bm, base, img)
    ensures var v, w := ViewOf(g, base), ViewOf(g, img);
            w.fat == v.fat && forall c :: ValidCluster(g, c) && Allocated(g, v, bm, c) ==> w.heap[c] == v.heap[c]
  {
    hide Multiples, Places, Allocated;
    var v, w := ViewOf(g, base), ViewOf(g, img);
    forall c | 0 <= c < g.clusterCount + 2
      ensures w.fat[c] == v.fat[c]
    {
      if HasFatEntry(g, c) {
        assert !Spare(g, v, bm, g.fatLba[c]);
      }
    }
    forall c | ValidCluster(g, c) && Allocated(g, v, bm, c)
      ensures w.heap[c] == v.heap[c]
    {
      forall j | 0 <= j < g.sectorsPerCluster
        ensures w.heap[c][j] == v.heap[c][j]
      {
        assert !Spare(g, v, bm, g.clusterLba[c] + j);
      }
    }
  }

  lemma NotedBefore(journal: seq<JournalEntry>, lba: nat)
    requires |journal| > 0 && Noted(journal, lba) && lba != journal[|journal| - 1].lba
    ensures Noted(journal[..|journal| - 1], lba)
  {
    var i :| 0 <= i < |journal| && journal[i].lba == lba;
    assert journal[..|journal| - 1][i].lba == lba;
  }

  /** Writing the last before-image back leaves a state that the shorter journal can undo. */
  lemma UndoLast(g: Geometry, bm: seq<nat>, base: Image, img: Image, journal: seq<JournalEntry>)
    requires Layout(g) && |journal| > 0 && Undoable(g, bm, base, img, journal)
    ensures var entry := journal[|journal| - 1];
            Undoable(g, bm, base, img[entry.lba := entry.before], journal[..|journal| - 1])
  {
    hide Multiples, Places, Shaped, StreamIs, Allocated;
    var entry, rest := journal[|journal| - 1], journal[..|journal| - 1];
    var img' := img[entry.lba := entry.before];
    forall lba | 0 <= lba < |img'| && !Spare(g, ViewOf(g, base), bm, lba) && !Noted(rest, lba)
      ensures img'[lba] == base[lba]
    {
      if Noted(journal, lba) && lba != entry.lba {
        NotedBefore(journal, lba);
        assert false;
      }
    }
  }

  class Volume {
    const g: Geometry
    const m: Machine
    /** The clusters of the allocation bitmap. */
    ghost const bm: seq<nat>
    var journal: seq<JournalEntry>
    var active: bool
    var dirty: bool
    /** A sector could not be journaled in this transaction because the journal was full. */
    ghost var full: bool
    /** The image that the open transaction started from. */
    ghost var base: Image

    ghost predicate Closed()
      reads this, m
    {
      Layout(g) && g.bootSectors >= 24 && Fits(g, m.image) && !active && journal == []
    }

    ghost predicate Open()
      reads this, m
    {
      && Layout(g) && g.bootSectors >= 24 && Fits(g, m.image) && active && |journal| <= MAX_TRANSACTION_SECTORS
      && Undoable(g, bm, base, m.image, journal) && (full ==> |journal| == MAX_TRANSACTION_SECTORS)
    }

    /** A request was refused, or the journal was full: what may make an operation fail at any point. */
    ghost predicate Hindered(faults: nat)
      reads this, m
    {
      m.faults > faults || full
    }

    ghost function V(): View
      requires Layout(g) && Fits(g, m.image)
      reads this, m
    {
      ViewOf(g, m.image)
    }

    constructor (g: Geometry, m: Machine, ghost bm: seq<nat>)
      requires Layout(g) && g.bootSectors >= 24 && Fits(g, m.image)
      ensures Closed() && this.g == g && this.m == m && this.bm == bm
    {
      this.g, this.m, this.bm := g, m, bm;
      journal, active, dirty, full, base := [], false, false, false, [];
    }

    method ReadSector(lba: nat) returns (ok: bool, data: Sector)
      requires Layout(g) && Fits(g, m.image)
      modifies m`faults
      ensures ok ==> lba < g.volumeLength && data == m.image[lba] && m.faults == old(m.faults)
      ensures !ok ==> lba >= g.volumeLength || m.faults > old(m.faults)
      ensures m.faults >= old(m.faults)
    {
      ok, data := false, [];
      if lba < g.volumeLength {
        ok, data := m.Read(lba);
      }
    }

    /** Keep the before-image of a sector, once per transaction. */
    method JournalSector(lba: nat) returns (ok: bool)
      requires Open() && lba < g.volumeLength
      modifies this`journal, this`full, m`faults
      ensures Open() && old(journal) <= journal
      ensures ok ==> Noted(journal, lba)
      ensures !ok ==> journal == old(journal)
      ensures !ok ==> |journal| == MAX_TRANSACTION_SECTORS || m.faults > old(m.faults)
      ensures !ok ==> Hindered(old(m.faults))
      ensures m.faults >= old(m.faults)
    {
      hide Multiples, Places, Shaped, StreamIs;
      for index := 0 to |journal|
        invariant forall i :: 0 <= i < index ==> journal[i].lba != lba
      {
        if journal[index].lba == lba {
          return true;
        }
      }
      if !active || |journal| >= MAX_TRANSACTION_SECTORS {
        full := true;
        return false;
      }
      var granted := m.Allocate();
      if !granted {
        return false;
      }
      var before;
      ok, before := ReadSector(lba);
      if !ok {
        return;
      }
      ghost var was := journal;
      journal := journal + [JournalEntry(lba, before)];
      assert journal[|was|].lba == lba;
      forall x | 0 <= x < |m.image| && Noted(was, x)
        ensures Noted(journal, x)
      {
        var i :| 0 <= i < |was| && was[i].lba == x;
        assert journal[i].lba == x;
      }
    }

    /** A journaled write either happens as a whole or changes nothing. */
    method WriteSector(lba: nat, data: Sector) returns (ok: bool)
      requires Open() && |data| == g.sectorSize
      modifies this`journal, this`full, m
      ensures Open() && m.faults >= old(m.faults)
      ensures ok ==> lba < g.volumeLength && m.image == old(m.image)[lba := data]
      ensures !ok ==> m.image == old(m.image)
      ensures !ok ==> lba >= g.volumeLength || |journal| == MAX_TRANSACTION_SECTORS || m.faults > old(m.faults)
      ensures !ok ==> lba >= g.volumeLength || Hindered(old(m.faults))
    {
      hide Multiples, Places, Shaped, StreamIs;
      ok := false;
      if lba < g.volumeLength {
        ok := JournalSector(lba);
        if ok {
          ok := m.Write(lba, data);
        }
      }
    }

    /** Unjournaled write to a cluster that was free when the transaction began. */
    method WriteSpare(c: nat, j: nat, data: Sector) returns (ok: bool)
      requires Open() && |data| == g.sectorSize && ValidCluster(g, c) && j < g.sectorsPerCluster
      requires !Allocated(g, ViewOf(g, base), bm, c)
      modifies m
      ensures Open() && m.faults >= old(m.faults)
      ensures ok ==> V() == old(V().(heap := V().heap[c := V().heap[c][j := data]]))
      ensures !ok ==> m.image == old(m.image) && m.faults > old(m.faults)
    {
      hide Multiples, Places;
      SetHeapView(g, m.image, c, j, data);
      assert InCluster(g, SectorOf(g, c, j), c);
      ok := m.Write(SectorOf(g, c, j), data);
    }

    /** Set or clear the VolumeDirty flag in both boot regions. */
    method SetVolumeDirty(on: bool) returns (ok: bool)
      requires Open()
      modifies this`journal, this`full, this`dirty, m
      ensures Open() && V() == old(V()) && m.faults >= old(m.faults)
      ensures ok ==> dirty == on && Stamped(old(m.image), m.image, None, on)
      ensures !ok ==> Hindered(old(m.faults))
    {
      hide Multiples, Places, Undoable, Shaped, FlagIs;
      for copy := 0 to 2
        invariant Open() && V() == old(V()) && m.faults >= old(m.faults)
        invariant copy > 0 ==> FlagIs(old(m.image[0]), m.image[0], on)
        invariant copy > 1 ==> FlagIs(old(m.image[12]), m.image[12], on)
        invariant |m.image| == |old(m.image)|
        invariant forall x :: 0 <= x < |m.image| && !(x == 0 && copy > 0) && !(x == 12 && copy > 1) ==>
                    m.image[x] == old(m.image)[x]
      {
        var lba := if copy == 0 then 0 else 12;
        var sector;
        ok, sector := ReadSector(lba);
        if !ok {
          return;
        }
        var flags := WithFlag(U16(sector, 106), on);
        FlagSector(sector, on);
        SetBootView(g, m.image, lba, Splice(sector, 106, Le16(flags)));
        ok := WriteSector(lba, Splice(sector, 106, Le16(flags)));
        if !ok {
          return;
        }
      }
      dirty := on;
      ok := m.Flush();
    }

    method Begin() returns (ok: bool, restored: bool)
      requires Closed() && BitmapIs(g, V(), bm)
      modifies this, m
      ensures base == old(m.image) && m.faults >= old(m.faults)
      ensures ok ==> Open() && V() == old(V()) && Stamped(base, m.image, None, true)
      ensures !ok ==> Closed() && (restored ==> Restored(g, bm, base, m.image)) && Hindered(old(m.faults))
    {
      active, journal, full, restored := true, [], false, false;
      base := m.image;
      ok := SetVolumeDirty(true);
      if !ok {
        restored := Rollback();
      }
    }

    method Release()
      requires Open()
      modifies this`journal, this`active
      ensures Closed()
    {
      while |journal| != 0
        invariant Layout(g) && Fits(g, m.image)
      {
        journal := journal[..|journal| - 1];
      }
      active := false;
    }

    /** Put every before-image back, last one first.  When each of those writes succeeds, the volume
        is what it was when the transaction began. */
    method Rollback() returns (restored: bool)
      requires Open()
      modifies this`journal, this`active, this`dirty, m
      ensures Closed() && !dirty && m.faults >= old(m.faults)
      ensures restored ==> Restored(g, bm, base, m.image)
      ensures !restored ==> m.faults > old(m.faults)
    {
      hide Multiples, Places, Shaped, BitmapIs;
      restored := true;
      while |journal| != 0
        invariant Layout(g) && Fits(g, m.image) && |m.image| == |base|
        invariant forall i :: 0 <= i < |journal| ==> journal[i].lba < |m.image| && |journal[i].before| == g.sectorSize
        invariant restored ==> Undoable(g, bm, base, m.image, journal)
        invariant m.faults >= old(m.faults)
        invariant !restored ==> m.faults > old(m.faults)
      {
        var entry := journal[|journal| - 1];
        if restored {
          UndoLast(g, bm, base, m.image, journal);
        }
        journal := journal[..|journal| - 1];
        var ok := m.Write(entry.lba, entry.before);
        if !ok {
          restored := false;
        }
      }
      var flushed := m.Flush();
      if !flushed {
        restored := false;
      }
      active, dirty := false, false;
    }

    // ----- FAT entries

    method ReadFat(c: nat) returns (ok: bool, next: nat)
      requires Layout(g) && Fits(g, m.image)
      modifies m`faults
      ensures ok ==> Link(g, V(), c) == Some(next) && m.faults == old(m.faults)
      ensures !ok ==> Link(g, V(), c) == None || m.faults > old(m.faults)
      ensures m.faults >= old(m.faults)
    {
      hide Multiples, Places;
      ok, next := false, 0;
      if HasFatEntry(g, c) {
        var sector;
        ok, sector := ReadSector(g.fatLba[c]);
        if ok {
          next := U32(sector, g.fatByte[c]);
          ok := !(next == BAD_CLUSTER || (next < EOC && !ValidCluster(g, next)));
        }
      }
    }

    method WriteFat(c: nat, value: nat) returns (ok: bool)
      requires Open() && value < 0x1_0000_0000
      modifies this`journal, this`full, m
      ensures Open() && m.faults >= old(m.faults)
      ensures ok ==>
                HasFatEntry(g, c) && V() == old(V().(fat := if c < |V().fat| then V().fat[c := value] else V().fat))
      ensures !ok ==> m.image == old(m.image) && (!HasFatEntry(g, c) || Hindered(old(m.faults)))
    {
      hide Multiples, Places;
      ok := false;
      if HasFatEntry(g, c) {
        var sector;
        ok, sector := ReadSector(g.fatLba[c]);
        if ok {
          SetFatView(g, m.image, c, value);
          ok := WriteSector(g.fatLba[c], Splice(sector, g.fatByte[c], Le32(value)));
        }
      }
    }

    // ----- streams

    method FindCluster(first: nat, contiguous: bool, index: nat) returns (ok: bool, c: nat)
      requires Layout(g) && Fits(g, m.image)
      modifies m`faults
      ensures ok ==> StreamCluster(g, V(), first, contiguous, index) == Some(c) && m.faults == old(m.faults)
      ensures !ok ==> StreamCluster(g, V(), first, contiguous, index) == None || m.faults > old(m.faults)
      ensures m.faults >= old(m.faults)
    {
      hide Multiples, Places;
      c := first;
      if !ValidCluster(g, first) || index >= g.clusterCount {
        return false, c;
      }
      if contiguous {
        if c - 2 > g.clusterCount - 1 - index {
          return false, c;
        }
        return true, c + index;
      }
      for step := 0 to index
        invariant Walk(g, V(), first, index) == Walk(g, V(), c, index - step)
        invariant m.faults == old(m.faults)
      {
        var next;
        ok, next := ReadFat(c);
        if !ok || next >= EOC {
          return false, c;
        }
        c := next;
      }
      ok := true;
    }

    /** Read as many of the bytes wanted as lie in the one sector that holds offset off of the stream. */
    method ReadChunk(first: nat, contiguous: bool, off: nat, want: nat, ghost cl: seq<nat>)
      returns (ok: bool, chunk: seq<Byte>)
      requires Layout(g) && Fits(g, m.image) && StreamIs(g, V(), first, contiguous, cl)
      requires 0 < want && off + want <= g.capacity[|cl|]
      modifies m`faults
      ensures m.faults >= old(m.faults)
      ensures ok ==> 0 < |chunk| <= want && m.faults == old(m.faults)
      ensures ok ==> forall i :: 0 <= i < |chunk| ==> chunk[i] == ByteAt(g, V(), cl, off + i)
      ensures !ok ==> m.faults > old(m.faults)
    {
      hide Multiples, Places, ByteAt, ViewOf;
      chunk := [];
      PlaceInside(g, |cl|, off);
      var p := g.place[off];
      var copy := Min(g.sectorSize - p.r, want);
      StreamClusterIs(g, V(), first, contiguous, cl, p.q);
      var c;
      ok, c := FindCluster(first, contiguous, p.q);
      if !ok {
        return;
      }
      var sector;
      ok, sector := ReadSector(SectorOf(g, c, p.j));
      if !ok {
        return;
      }
      HeapSector(g, m.image, c, p.j);
      SectorBytes(g, V(), cl, off, copy);
      chunk := sector[p.r..p.r + copy];
    }

    /** Read bytes of a stream, stopping early when a sector cannot be reached. */
    method ReadStream(first: nat, contiguous: bool, length: nat, offset: nat, capacity: nat, ghost cl: seq<nat>)
      returns (out: seq<Byte>)
      requires Layout(g) && Fits(g, m.image) && StreamIs(g, V(), first, contiguous, cl)
      requires length <= g.capacity[|cl|]
      modifies m`faults
      ensures |out| <= capacity && (|out| > 0 ==> offset + |out| <= length)
      ensures forall i :: 0 <= i < |out| ==> out[i] == ByteAt(g, V(), cl, offset + i)
      ensures m.faults == old(m.faults) ==> |out| == if offset >= length then 0 else Min(capacity, length - offset)
      ensures m.faults >= old(m.faults)
    {
      hide Multiples, Places, Addresses, ByteAt, ViewOf, Shaped;
      out := [];
      if offset >= length || capacity == 0 {
        return;
      }
      var limit := Min(capacity, length - offset);
      while |out| < limit
        invariant |out| <= limit
        invariant forall i :: 0 <= i < |out| ==> out[i] == ByteAt(g, V(), cl, offset + i)
        invariant m.faults == old(m.faults)
      {
        var ok, chunk := ReadChunk(first, contiguous, offset + |out|, limit - |out|, cl);
        if !ok {
          return;
        }
        out := out + chunk;
      }
    }

    /** Read, modify and write the one sector that holds offset off of the stream. */
    method WriteChunk(first: nat, contiguous: bool, off: nat, chunk: seq<Byte>, ghost cl: seq<nat>) returns (ok: bool)
      requires Open() && StreamIs(g, V(), first, contiguous, cl)
      requires off < g.capacity[|cl|] && g.place[off].r + |chunk| <= g.sectorSize
      modifies this`journal, this`full, m
      ensures Open() && m.faults >= old(m.faults)
      ensures ok ==> V() == old(PutChunk(g, V(), cl, off, chunk))
      ensures !ok ==> m.image == old(m.image) && Hindered(old(m.faults))
    {
      hide Multiples, Places, Addresses, Undoable, ViewOf, StreamCluster, PutChunk, Fits, SectorOf, Shaped;
      PlaceInside(g, |cl|, off);
      var p := g.place[off];
      StreamClusterIs(g, V(), first, contiguous, cl, p.q);
      PutChunkIs(g, V(), cl, off, chunk);
      var c;
      ok, c := FindCluster(first, contiguous, p.q);
      if !ok {
        return;
      }
      var sector;
      ok, sector := ReadSector(SectorOf(g, c, p.j));
      if !ok {
        return;
      }
      HeapSector(g, m.image, c, p.j);
      SetHeapView(g, m.image, c, p.j, Splice(sector, p.r, chunk));
      ok := WriteSector(SectorOf(g, c, p.j), Splice(sector, p.r, chunk));
    }

    /** Journaled write of buf at an offset of a stream; the first done bytes reached the disk. */
    method WriteStream(first: nat, contiguous: bool, offset: nat, buf: seq<Byte>, ghost cl: seq<nat>)
      returns (ok: bool, done: nat)
      requires Open() && StreamIs(g, V(), first, contiguous, cl)
      requires offset + |buf| <= g.capacity[|cl|]
      modifies this`journal, this`full, m
      ensures Open() && m.faults >= old(m.faults)
      ensures done <= |buf| && ok == (done == |buf|) && (!ok ==> Hindered(old(m.faults)))
      ensures done == 0 ==> m.image == old(m.image)
      ensures Within(g, old(V()), V(), {}, Members(cl)) && Overlaid(g, old(V()), V(), cl, offset, buf[..done])
    {
      hide Written, Undoable, ViewOf, PutChunk, Layout, StreamIs, Shaped, Fits, Within, Overlaid, Clusters;
      ok, done := true, 0;
      ghost var v0 := V();
      WrittenNothing(g, v0, first, contiguous, cl, offset, buf);
      while done < |buf| && ok
        invariant Open() && m.faults >= old(m.faults)
        invariant done <= |buf| && (!ok ==> done < |buf| && Hindered(old(m.faults)))
        invariant done == 0 ==> m.image == old(m.image)
        invariant Written(g, v0, V(), first, contiguous, cl, offset, buf, done)
        decreases |buf| - done, ok
      {
        WrittenPlace(g, v0, V(), first, contiguous, cl, offset, buf, done);
        var copy := Min(g.sectorSize - g.place[offset + done].r, |buf| - done);
        WrittenMore(g, v0, V(), first, contiguous, cl, offset, buf, done, copy);
        ok := WriteChunk(first, contiguous, offset + done, buf[done..done + copy], cl);
        if ok {
          done := done + copy;
        }
      }
      WrittenMeans(g, v0, V(), first, contiguous, cl, offset, buf, done);
    }
  }

  /** flags | 2, or flags & 0xFFFD. */
  function WithFlag(flags: nat, on: bool): (r: nat)
    ensures r / 2 % 2 == 1 <==> on
    ensures r % 2 == flags % 2 && r / 4 == flags / 4
  {
    flags / 4 * 4 + (if on then 2 else 0) + flags % 2
  }
}
