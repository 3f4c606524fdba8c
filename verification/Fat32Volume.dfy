/** A mounted FAT32 volume: the FAT copies and the clusters, and the two ways of changing them. */
module Fat32Volume {
  import Arithmetic
  import opened Bytes
  import opened Machines
  import opened VolumeLayout

  const EOC: nat := 0x0FFF_FFF8
  const EOC_MARK: nat := 0x0FFF_FFFF
  const BAD_CLUSTER: nat := 0x0FFF_FFF7
  const RESERVED_START: nat := 0x0FFF_FFF0
  const UNKNOWN: nat := 0xFFFF_FFFF

  /** The volume as each FAT copy shows it; the driver follows copy 0. */
  type State = seq<View>

  /** One geometry per FAT copy.  They agree on everything but the FAT sectors, no two copies share a
      sector, every cluster has an entry, and no cluster number looks like a mark. */
  ghost predicate Copies(copies: seq<Geometry>) {
    && |copies| >= 1 && Layout(copies[0])
    && copies[0].clusterCount + 2 <= RESERVED_START && copies[0].clusterCount + 2 <= copies[0].fatReach
    && (forall k :: 0 <= k < |copies| ==> Layout(copies[k]) && copies[k] == copies[0].(fatLba := copies[k].fatLba))
    && (forall k, l, c, d {:trigger copies[k].fatLba[c], copies[l].fatLba[d]} ::
          0 <= k < |copies| && 0 <= l < |copies| && k != l && ValidCluster(copies[0], c)
          && ValidCluster(copies[0], d) ==>
          copies[k].fatLba[c] != copies[l].fatLba[d])
  }

  /** The BIOS parameter block fields that matter here. */
  datatype Bpb = Bpb(
    bytesPerSector: nat, sectorsPerCluster: nat, reservedSectors: nat, fatCount: nat, sectorsPerFat: nat,
    totalSectors: nat)

  /** data_start */
  function DataStart(b: Bpb): nat {
    b.reservedSectors + b.fatCount * b.sectorsPerFat
  }

  /** fat32_max_cluster, less the two reserved numbers. */
  function DataClusters(b: Bpb): nat {
    if b.totalSectors <= DataStart(b) || b.sectorsPerCluster == 0 then 0
    else (b.totalSectors - DataStart(b)) / b.sectorsPerCluster
  }

  /** What fat32_initialize_context accepts, with what it takes for granted: there is a FAT, it has an
      entry for every cluster, and there are no more clusters than 28 bits can name. */
  ghost predicate MountableBpb(b: Bpb) {
    && b.bytesPerSector in {512, 1024, 2048, 4096} && b.sectorsPerCluster != 0 && b.sectorsPerFat != 0
    && DataClusters(b) > 0
    && b.fatCount >= 1 && DataClusters(b) + 2 <= RESERVED_START
    && 4 * (DataClusters(b) + 2) <= b.sectorsPerFat * b.bytesPerSector
  }

  /** The geometry seen through FAT copy k. */
  function CopyBoot(b: Bpb, k: nat): BootSector {
    BootSector(b.reservedSectors, b.bytesPerSector, b.sectorsPerCluster, b.totalSectors,
               b.reservedSectors + k * b.sectorsPerFat, b.sectorsPerFat, DataStart(b), DataClusters(b), 0, 0)
  }

  lemma CopyMountable(b: Bpb, k: nat)
    requires MountableBpb(b) && k < b.fatCount
    ensures Mountable(CopyBoot(b, k))
  {
    Arithmetic.MulMono(b.sectorsPerFat, k, b.fatCount);
    Arithmetic.MulMono(b.sectorsPerFat, 0, k);
    var n, spc := b.totalSectors - DataStart(b), b.sectorsPerCluster;
    assert n == spc * (n / spc) + n % spc;
  }

  function MountCopies(b: Bpb): (copies: seq<Geometry>)
    requires MountableBpb(b)
  {
    seq(b.fatCount, k requires 0 <= k < b.fatCount => CopyMountable(b, k); Mount(CopyBoot(b, k)))
  }

  /** Two copies agree on everything but the FAT sectors, and share none of these. */
  lemma CopyPair(b: Bpb, k: nat, l: nat)
    requires MountableBpb(b) && k < b.fatCount && l < b.fatCount
    ensures Mountable(CopyBoot(b, k)) && Mountable(CopyBoot(b, l))
    ensures var g, h := Mount(CopyBoot(b, k)), Mount(CopyBoot(b, l));
            && h == g.(fatLba := h.fatLba) && |g.fatLba| == |h.fatLba| == g.clusterCount + 2
            && (k < l ==> forall c, d :: ValidCluster(g, c) && ValidCluster(g, d) ==> g.fatLba[c] < h.fatLba[d])
  {
    CopyMountable(b, k);
    CopyMountable(b, l);
    var x, y := CopyBoot(b, k), CopyBoot(b, l);
    var g, h := Mount(x), Mount(y);
    assert g.place == h.place;
    if k < l {
      forall c, d | ValidCluster(g, c) && ValidCluster(g, d)
        ensures g.fatLba[c] < h.fatLba[d]
      {
        Arithmetic.MulMono(b.sectorsPerFat, k, l);
        Arithmetic.DivBelow(4 * c, b.bytesPerSector, b.sectorsPerFat);
      }
    }
  }

  /** The geometry g of FAT copy k: it starts k FAT lengths behind the reserved sectors, with entry c at byte 4 c;
      n clusters start behind the last copy, one after the other. */
  ghost predicate CopyPlaces(b: Bpb, k: nat, n: nat, g: Geometry) {
    && |g.clusterLba| == |g.fatLba| == |g.fatByte| == n + 2 && g.clusterCount == n && n > 0
    && g.clusterLba[2] == b.reservedSectors + b.fatCount * b.sectorsPerFat
    && (forall c :: 2 <= c <= n ==> g.clusterLba[c + 1] == g.clusterLba[c] + b.sectorsPerCluster)
    && (forall c :: 0 <= c < n + 2 ==>
          && g.fatByte[c] < b.bytesPerSector
          && b.bytesPerSector * (g.fatLba[c] - (b.reservedSectors + k * b.sectorsPerFat)) + g.fatByte[c] == 4 * c)
  }

  lemma CopyIsPlaced(b: Bpb, k: nat)
    requires MountableBpb(b) && k < b.fatCount
    ensures Mountable(CopyBoot(b, k)) && CopyPlaces(b, k, DataClusters(b), Mount(CopyBoot(b, k)))
  {
    hide Mount, Mountable, DataClusters;
    CopyMountable(b, k);
    CopyCount(b, k);
    MountFormulas(CopyBoot(b, k));
  }

  /** There are as many clusters as fit the volume. */
  lemma ClustersFit(b: Bpb)
    requires MountableBpb(b)
    ensures var start, n := b.reservedSectors + b.fatCount * b.sectorsPerFat, b.sectorsPerCluster * DataClusters(b);
            start + n <= b.totalSectors < start + n + b.sectorsPerCluster
  {
    var n := b.totalSectors - DataStart(b);
    assert n == b.sectorsPerCluster * (n / b.sectorsPerCluster) + n % b.sectorsPerCluster;
  }

  /** So the FAT copies and the clusters of a volume that mounts are where the specification puts them. */
  lemma MountedPlaces(b: Bpb)
    requires MountableBpb(b)
    ensures |MountCopies(b)| == b.fatCount
    ensures forall k :: 0 <= k < b.fatCount ==> CopyPlaces(b, k, DataClusters(b), MountCopies(b)[k])
    ensures var start, n := b.reservedSectors + b.fatCount * b.sectorsPerFat, b.sectorsPerCluster * DataClusters(b);
            start + n <= b.totalSectors < start + n + b.sectorsPerCluster
  {
    hide Mount, Mountable, DataClusters, CopyPlaces;
    ClustersFit(b);
    forall k | 0 <= k < b.fatCount
      ensures CopyPlaces(b, k, DataClusters(b), MountCopies(b)[k])
    {
      CopyIsPlaced(b, k);
    }
  }

  lemma CopyCount(b: Bpb, k: nat)
    requires Mountable(CopyBoot(b, k))
    ensures Mount(CopyBoot(b, k)).clusterCount == DataClusters(b)
  {
  }

  /** A volume that mounts has disjoint FAT copies and clusters. */
  lemma MountedCopies(b: Bpb)
    requires MountableBpb(b)
    ensures Copies(MountCopies(b)) && |MountCopies(b)| == b.fatCount
    ensures var g := MountCopies(b)[0];
            && g.clusterCount == DataClusters(b) && g.sectorSize == b.bytesPerSector
            && g.sectorsPerCluster == b.sectorsPerCluster && g.volumeLength == b.totalSectors
  {
    hide Layout, Mount, DataClusters, DataStart;
    var copies := MountCopies(b);
    forall k | 0 <= k < |copies|
      ensures Layout(copies[k]) && copies[k] == copies[0].(fatLba := copies[k].fatLba)
    {
      CopyPair(b, 0, k);
      MountLayout(CopyBoot(b, k));
    }
    forall k, l, c, d | 0 <= k < |copies| && 0 <= l < |copies| && k != l && ValidCluster(copies[0], c)
        && ValidCluster(copies[0], d)
      ensures 0 <= c < |copies[k].fatLba| && 0 <= d < |copies[l].fatLba| && copies[k].fatLba[c] != copies[l].fatLba[d]
    {
      CopyPair(b, 0, k);
      CopyPair(b, k, l);
      CopyPair(b, l, k);
    }
    CopyPair(b, 0, 0);
    CopyReach(b);
  }

  lemma CopyReach(b: Bpb)
    requires MountableBpb(b) && Mountable(CopyBoot(b, 0))
    ensures var g := Mount(CopyBoot(b, 0));
            && g.clusterCount == DataClusters(b) && g.clusterCount + 2 <= g.fatReach && g.sectorSize == b.bytesPerSector
            && g.sectorsPerCluster == b.sectorsPerCluster && g.volumeLength == b.totalSectors
  {
  }

  function StateOf(copies: seq<Geometry>, img: Image): (s: State)
    requires Copies(copies) && Fits(copies[0], img)
    ensures |s| == |copies| && forall k :: 0 <= k < |s| ==> Shaped(copies[0], s[k])
  {
    seq(|copies|, k requires 0 <= k < |copies| => ViewOf(copies[k], img))
  }

  /** The 28 bits of a FAT word that name a cluster or a mark. */
  function Entry(word: nat): (e: nat)
    ensures e < 0x1000_0000
  {
    word % 0x1000_0000
  }

  /** A word with its low 28 bits replaced. */
  function Merge(word: nat, value: nat): (r: nat)
    requires word < 0x1_0000_0000 && value < 0x1000_0000
    ensures r < 0x1_0000_0000 && Entry(r) == value && r / 0x1000_0000 == word / 0x1000_0000
  {
    word / 0x1000_0000 * 0x1000_0000 + value
  }

  /** The bytes that fat32_set_cluster stores: three whole bytes and the low half of the fourth. */
  function MergeBytes(b: seq<Byte>, value: nat): (r: seq<Byte>)
    requires |b| == 4 && value < 0x1000_0000
    ensures |r| == 4 && U32(r, 0) == Merge(U32(b, 0), value)
  {
    MergeWord(b[0], b[1], b[2], b[3], value);
    [value % 0x100, value / 0x100 % 0x100, value / 0x1_0000 % 0x100, b[3] / 16 * 16 + value / 0x100_0000 % 16]
  }

  lemma MergeWord(b0: Byte, b1: Byte, b2: Byte, b3: Byte, value: nat)
    requires value < 0x1000_0000
    ensures var low := b0 + 0x100 * (b1 as int) + 0x1_0000 * (b2 + 0x100 * (b3 as int));
            low / 0x1000_0000 == b3 / 16
    ensures value % 0x100 + 0x100 * (value / 0x100 % 0x100) + 0x1_0000 * (value / 0x1_0000 % 0x100)
          + 0x100_0000 * (value / 0x100_0000 % 16) == value
  {
    var high, rest := b3 as int / 16, b0 + 0x100 * (b1 as int) + 0x1_0000 * b2 + 0x100_0000 * (b3 as int % 16);
    Arithmetic.DivUnique(0x1000_0000 * high + rest, 0x1000_0000, high, rest);
    Digits(value);
  }

  lemma Digits(value: nat)
    requires value < 0x1000_0000
    ensures value % 0x100 + 0x100 * (value / 0x100 % 0x100) + 0x1_0000 * (value / 0x1_0000 % 0x100)
          + 0x100_0000 * (value / 0x100_0000 % 16) == value
  {
    var a := value / 0x100;
    var b := a / 0x100;
    assert value / 0x1_0000 == b && value / 0x100_0000 == b / 0x100;
  }

  lemma SameWord(a: seq<Byte>, b: seq<Byte>)
    requires |a| == |b| == 4 && U32(a, 0) == U32(b, 0)
    ensures a == b
  {
    assert U16(a, 0) == U16(b, 0) && U16(a, 2) == U16(b, 2);
    SameHalf(a, b, 0);
    SameHalf(a, b, 2);
  }

  lemma SameHalf(a: seq<Byte>, b: seq<Byte>, p: nat)
    requires p + 2 <= |a| && p + 2 <= |b| && U16(a, p) == U16(b, p)
    ensures a[p] == b[p] && a[p + 1] == b[p + 1]
  {
  }

  /** The sector that fat32_set_cluster writes is the old one with the merged word in it. */
  lemma EntryWritten(g: Geometry, img: Image, c: nat, value: nat)
    requires Layout(g) && Fits(g, img) && HasFatEntry(g, c) && value < 0x1000_0000
    ensures g.fatLba[c] < |img| && g.fatByte[c] + 4 <= |img[g.fatLba[c]]| && FatOf(g, img, c) < 0x1_0000_0000
    ensures var sec, p := img[g.fatLba[c]], g.fatByte[c];
            && SetFat(g, img, c, Merge(FatOf(g, img, c), value))
               == img[g.fatLba[c] := Splice(sec, p, MergeBytes(sec[p..p + 4], value))]
  {
    hide Places, Multiples, Capacities, MergeBytes, Merge, Le32;
    var sec, p := img[g.fatLba[c]], g.fatByte[c];
    assert U32(sec[p..p + 4], 0) == U32(sec, p);
    SameWord(MergeBytes(sec[p..p + 4], value), Le32(Merge(U32(sec, p), value)));
  }

  /** One view with the entry of cluster c replaced. */
  function Put(g: Geometry, v: View, c: nat, value: nat): (r: View)
    requires Shaped(g, v) && c < g.clusterCount + 2 && value < 0x1000_0000
    ensures Shaped(g, r)
  {
    v.(fat := v.fat[c := Merge(v.fat[c], value)])
  }

  /** One view with a sector of cluster c replaced. */
  function PutSector(g: Geometry, v: View, c: nat, j: nat, data: Sector): (r: View)
    requires Shaped(g, v) && ValidCluster(g, c) && j < g.sectorsPerCluster && |data| == g.sectorSize
    ensures Shaped(g, r)
  {
    v.(heap := v.heap[c := v.heap[c][j := data]])
  }

  /** A sector outside the FAT sectors and clusters of one copy is not seen through that copy. */
  lemma OtherSector(g: Geometry, img: Image, lba: nat, data: Sector)
    requires Layout(g) && Fits(g, img) && lba < |img| && |data| == g.sectorSize
    requires forall c :: HasFatEntry(g, c) ==> g.fatLba[c] != lba
    requires forall c :: ValidCluster(g, c) ==> lba < g.clusterLba[c]
    ensures Fits(g, img[lba := data]) && ViewOf(g, img[lba := data]) == ViewOf(g, img)
  {
    hide Places, Multiples, Capacities;
    var v, img' := ViewOf(g, img), img[lba := data];
    forall d | 0 <= d < g.clusterCount + 2
      ensures FatOf(g, img', d) == v.fat[d] && ClusterOf(g, img', d) == v.heap[d]
    {
    }
    assert ViewOf(g, img').fat == v.fat;
    assert ViewOf(g, img').heap == v.heap;
  }

  lemma EntryPlace(copies: seq<Geometry>, img: Image, k: nat, c: nat)
    requires Copies(copies) && Fits(copies[0], img) && k < |copies| && ValidCluster(copies[0], c)
    ensures 0 <= c < |copies[k].fatLba| && copies[k].fatLba[c] < |img|
    ensures HasFatEntry(copies[k], c) && |copies[k].fatLba| == |copies[k].fatByte| == copies[0].clusterCount + 2
  {
    hide Places, Multiples, Capacities;
  }

  /** Writing one entry of copy k changes copy k there and nothing else. */
  lemma SetCopy(copies: seq<Geometry>, img: Image, k: nat, c: nat, word: nat)
    requires Copies(copies) && Fits(copies[0], img) && k < |copies| && ValidCluster(copies[0], c)
             && word < 0x1_0000_0000
    ensures var s := StateOf(copies, img);
            && Fits(copies[0], SetFat(copies[k], img, c, word))
            && StateOf(copies, SetFat(copies[k], img, c, word)) == s[k := s[k].(fat := s[k].fat[c := word])]
  {
    hide Places, Multiples, Capacities, ViewOf;
    var s, g := StateOf(copies, img), copies[k];
    var img' := SetFat(g, img, c, word);
    forall l | 0 <= l < |copies|
      ensures ViewOf(copies[l], img') == s[k := s[k].(fat := s[k].fat[c := word])][l]
    {
      if l == k {
        SetFatView(g, img, c, word);
      } else {
        OtherSector(copies[l], img, g.fatLba[c], img'[g.fatLba[c]]);
      }
    }
  }

  lemma SetClusterSector(copies: seq<Geometry>, img: Image, c: nat, j: nat, data: Sector)
    requires Copies(copies) && Fits(copies[0], img)
    requires ValidCluster(copies[0], c) && j < copies[0].sectorsPerCluster && |data| == copies[0].sectorSize
    ensures var s, img' := StateOf(copies, img), img[SectorOf(copies[0], c, j) := data];
            && Fits(copies[0], img')
            && StateOf(copies, img') == seq(|s|, k requires 0 <= k < |s| => PutSector(copies[0], s[k], c, j, data))
  {
    hide Places, Multiples, Capacities, ViewOf, Shaped;
    var s := StateOf(copies, img);
    forall k | 0 <= k < |copies|
      ensures ViewOf(copies[k], img[SectorOf(copies[0], c, j) := data]) == PutSector(copies[0], s[k], c, j, data)
    {
      SetHeapView(copies[k], img, c, j, data);
    }
  }

  // ----- what a run of device writes may have changed

  /** No copy differs outside the FAT entries of f and the contents of h. */
  ghost predicate Moved(g: Geometry, s: State, t: State, f: set<nat>, h: set<nat>) {
    |t| == |s| && forall k :: 0 <= k < |s| ==> Within(g, s[k], t[k], f, h)
  }

  /** Every state that the disk went through after the end of t0, up to the end of t1. */
  ghost predicate Trail(g: Geometry, t0: seq<State>, t1: seq<State>, f: set<nat>, h: set<nat>) {
    && 0 < |t0| <= |t1| && t1[..|t0|] == t0
    && forall i :: |t0| - 1 <= i < |t1| ==> Moved(g, t0[|t0| - 1], t1[i], f, h)
  }

  ghost predicate ShapedState(g: Geometry, s: State) {
    |s| >= 1 && forall k :: 0 <= k < |s| ==> Shaped(g, s[k])
  }

  lemma MovedTrans(g: Geometry, s: State, t: State, u: State, f: set<nat>, h: set<nat>, f': set<nat>, h': set<nat>)
    requires Moved(g, s, t, f, h) && Moved(g, t, u, f', h')
    ensures Moved(g, s, u, f + f', h + h')
  {
    forall k | 0 <= k < |s|
      ensures Within(g, s[k], u[k], f + f', h + h')
    {
      WithinTrans(g, s[k], t[k], u[k], f, h, f', h');
    }
  }

  lemma MovedWiden(g: Geometry, s: State, t: State, f: set<nat>, h: set<nat>, f': set<nat>, h': set<nat>)
    requires Moved(g, s, t, f, h) && f <= f' && h <= h'
    ensures Moved(g, s, t, f', h')
  {
  }

  lemma TrailStay(g: Geometry, t: seq<State>)
    requires |t| > 0 && ShapedState(g, t[|t| - 1])
    ensures Trail(g, t, t, {}, {})
  {
  }

  lemma TrailTrans(g: Geometry, t0: seq<State>, t1: seq<State>, t2: seq<State>, f: set<nat>, h: set<nat>,
                   f': set<nat>, h': set<nat>)
    requires Trail(g, t0, t1, f, h) && Trail(g, t1, t2, f', h')
    ensures Trail(g, t0, t2, f + f', h + h')
  {
    hide Moved;
    forall i | |t0| - 1 <= i < |t2|
      ensures Moved(g, t0[|t0| - 1], t2[i], f + f', h + h')
    {
      if i < |t1| {
        assert t2[i] == t1[..][i] by { assert t2[..|t1|][i] == t1[i]; }
        MovedWiden(g, t0[|t0| - 1], t1[i], f, h, f + f', h + h');
      } else {
        MovedTrans(g, t0[|t0| - 1], t1[|t1| - 1], t2[i], f, h, f', h');
      }
    }
    assert t2[..|t0|] == t2[..|t1|][..|t0|];
  }

  lemma TrailWiden(g: Geometry, t0: seq<State>, t1: seq<State>, f: set<nat>, h: set<nat>, f': set<nat>, h': set<nat>)
    requires Trail(g, t0, t1, f, h) && f <= f' && h <= h'
    ensures Trail(g, t0, t1, f', h')
  {
    hide Moved;
    forall i | |t0| - 1 <= i < |t1|
      ensures Moved(g, t0[|t0| - 1], t1[i], f', h')
    {
      MovedWiden(g, t0[|t0| - 1], t1[i], f, h, f', h');
    }
  }

  lemma TrailEnd(g: Geometry, t0: seq<State>, t1: seq<State>, f: set<nat>, h: set<nat>)
    requires Trail(g, t0, t1, f, h)
    ensures |t0| > 0 && |t1| > 0 && Moved(g, t0[|t0| - 1], t1[|t1| - 1], f, h)
  {
  }

  /** Further writes inside the same sets. */
  lemma TrailMore(g: Geometry, t0: seq<State>, t1: seq<State>, t2: seq<State>, f: set<nat>, h: set<nat>, f': set<nat>,
                  h': set<nat>)
    requires Trail(g, t0, t1, f, h) && Trail(g, t1, t2, f', h') && f' <= f && h' <= h
    ensures Trail(g, t0, t2, f, h)
  {
    hide Trail;
    TrailTrans(g, t0, t1, t2, f, h, f', h');
    assert f + f' == f && h + h' == h;
  }

  lemma TrailStep(g: Geometry, t0: seq<State>, t1: seq<State>, s: State, f: set<nat>, h: set<nat>)
    requires Trail(g, t0, t1, f, h) && Moved(g, t0[|t0| - 1], s, f, h)
    ensures Trail(g, t0, t1 + [s], f, h)
  {
    hide Moved;
  }

  lemma MovedEntry(g: Geometry, s: State, t: State, c: nat, value: nat)
    requires ShapedState(g, s) && |t| == |s| && c < g.clusterCount + 2 && value < 0x1000_0000
    requires forall k :: 0 <= k < |s| ==> t[k] == s[k] || t[k] == Put(g, s[k], c, value)
    ensures Moved(g, s, t, {c}, {})
  {
    forall k | 0 <= k < |s|
      ensures Within(g, s[k], t[k], {c}, {})
    {
      assert Shaped(g, s[k]);
    }
  }

  lemma MovedSector(g: Geometry, s: State, t: State, c: nat, j: nat, data: Sector)
    requires ShapedState(g, s) && |t| == |s| && ValidCluster(g, c) && j < g.sectorsPerCluster && |data| == g.sectorSize
    requires forall k :: 0 <= k < |s| ==> t[k] == PutSector(g, s[k], c, j, data)
    ensures Moved(g, s, t, {}, {c})
  {
    forall k | 0 <= k < |s|
      ensures Within(g, s[k], t[k], {}, {c})
    {
      assert Shaped(g, s[k]);
    }
  }

  /** trail is what the images of the history look like. */
  ghost predicate Traced(copies: seq<Geometry>, history: seq<Image>, trail: seq<State>)
    requires Copies(copies)
  {
    && |history| == |trail| > 0
    && forall i :: 0 <= i < |history| ==> Fits(copies[0], history[i]) && trail[i] == StateOf(copies, history[i])
  }

  class Context {
    /** fat_start, data_start and the other mount-time fields, once per FAT copy. */
    const copies: seq<Geometry>
    const m: Machine
    var freeCount: nat
    var nextFree: nat
    /** The states of the disk, one per image in the machine's history. */
    ghost var trail: seq<State>

    ghost predicate Valid()
      reads this, m
    {
      && Copies(copies) && Traced(copies, m.history, trail) && m.image == m.history[|m.history| - 1]
      && (freeCount == UNKNOWN || freeCount <= G().clusterCount)
    }

    ghost function G(): (g: Geometry)
      requires Copies(copies)
      ensures Layout(g) && g == copies[0] && g.clusterCount + 2 <= RESERVED_START
    {
      copies[0]
    }

    ghost function S(): (s: State)
      requires Valid()
      reads this, m
      ensures |s| == |copies| && s == StateOf(copies, m.image) && ShapedState(G(), s) && |trail| > 0
              && s == trail[|trail| - 1]
    {
      trail[|trail| - 1]
    }

    /** What the driver reads: FAT copy 0 and the clusters. */
    ghost function V(): (v: View)
      requires Valid()
      reads this, m
      ensures v == ViewOf(copies[0], m.image) && Shaped(G(), v) && v == S()[0]
      ensures |v.fat| == |v.heap| == G().clusterCount + 2
    {
      S()[0]
    }

    constructor (copies: seq<Geometry>, m: Machine, freeCount: nat, nextFree: nat)
      requires Copies(copies) && m.history == [m.image] && Fits(copies[0], m.image)
      requires freeCount == UNKNOWN || freeCount <= copies[0].clusterCount
      ensures Valid() && this.copies == copies && this.m == m && this.freeCount == freeCount
              && this.nextFree == nextFree
    {
      this.copies, this.m, this.freeCount, this.nextFree := copies, m, freeCount, nextFree;
      trail := [StateOf(copies, m.image)];
    }

    /** fat32_next_cluster: a sector that cannot be read counts as the end of a chain. */
    method NextCluster(c: nat) returns (next: nat)
      requires Valid() && ValidCluster(G(), c)
      modifies m`faults
      ensures Valid() && m.faults >= old(m.faults)
      ensures m.faults == old(m.faults) ==> next == Entry(V().fat[c])
      ensures m.faults > old(m.faults) ==> next == EOC
    {
      hide Places, Multiples, Capacities;
      var g := copies[0];
      var ok, sec := m.Read(g.fatLba[c]);
      if !ok {
        return EOC;
      }
      return Entry(U32(sec, g.fatByte[c]));
    }

    /** fat32_set_cluster on one copy. */
    method SetEntry(k: nat, c: nat, value: nat) returns (ok: bool)
      requires Valid() && k < |copies| && ValidCluster(G(), c) && value < 0x1000_0000
      modifies this`trail, m
      ensures Valid() && m.faults >= old(m.faults)
      ensures ok ==> S() == old(S())[k := Put(G(), old(S())[k], c, value)] && trail == old(trail) + [S()]
      ensures !ok ==> trail == old(trail) && m.faults > old(m.faults)
    {
      hide Places, Multiples, Capacities, Addresses, SetFat, MergeBytes, Merge, Splice, U32, U16;
      var g := copies[k];
      EntryPlace(copies, m.image, k, c);
      var sec;
      ok, sec := m.Read(g.fatLba[c]);
      if !ok {
        return;
      }
      var p := g.fatByte[c];
      EntryWritten(g, m.image, c, value);
      SetCopy(copies, m.image, k, c, Merge(FatOf(g, m.image, c), value));
      ok := m.Write(g.fatLba[c], Splice(sec, p, MergeBytes(sec[p..p + 4], value)));
      if ok {
        trail := trail + [StateOf(copies, m.image)];
      }
    }

    /** fat32_set_cluster: the entry in every FAT copy, copy 0 first. */
    method SetCluster(c: nat, value: nat) returns (ok: bool)
      requires Valid() && ValidCluster(G(), c) && value < 0x1000_0000
      modifies this`trail, m
      ensures Valid() && m.faults >= old(m.faults)
      ensures Trail(G(), old(trail), trail, {c}, {})
      ensures ok ==> forall k :: 0 <= k < |copies| ==> S()[k] == Put(G(), old(S())[k], c, value)
      ensures !ok ==> m.faults > old(m.faults) && (V() == old(V()) || V() == Put(G(), old(V()), c, value))
    {
      hide Layout, Shaped, ViewOf, StateOf, Traced, Copies;
      ghost var s, t := S(), trail;
      TrailStay(G(), t);
      ok := true;
      for k := 0 to |copies|
        invariant Valid() && m.faults >= old(m.faults)
        invariant Trail(G(), t, trail, {c}, {})
        invariant forall i :: 0 <= i < |copies| ==> S()[i] == if i < k then Put(G(), s[i], c, value) else s[i]
      {
        ghost var u := trail;
        ok := SetEntry(k, c, value);
        if !ok {
          return;
        }
        MovedEntry(G(), s, S(), c, value);
        TrailStep(G(), t, u, S(), {c}, {});
      }
    }

    /** Read sector j of cluster c. */
    method ReadCluster(c: nat, j: nat) returns (ok: bool, data: Sector)
      requires Valid() && ValidCluster(G(), c) && j < G().sectorsPerCluster
      modifies m`faults
      ensures Valid() && m.faults >= old(m.faults)
      ensures ok ==> data == V().heap[c][j] && |data| == G().sectorSize && m.faults == old(m.faults)
      ensures !ok ==> m.faults > old(m.faults)
    {
      hide Places, Multiples, Capacities;
      HeapSector(copies[0], m.image, c, j);
      ok, data := m.Read(copies[0].clusterLba[c] + j);
    }

    /** Write sector j of cluster c. */
    method WriteCluster(c: nat, j: nat, data: Sector) returns (ok: bool)
      requires Valid() && ValidCluster(G(), c) && j < G().sectorsPerCluster && |data| == G().sectorSize
      modifies this`trail, m
      ensures Valid() && m.faults >= old(m.faults)
      ensures Trail(G(), old(trail), trail, {}, {c})
      ensures ok ==> trail == old(trail) + [S()]
      ensures ok ==> forall k :: 0 <= k < |copies| ==> S()[k] == PutSector(G(), old(S())[k], c, j, data)
      ensures !ok ==> trail == old(trail) && m.faults > old(m.faults)
    {
      hide Places, Multiples, Capacities, ViewOf, Shaped;
      SetClusterSector(copies, m.image, c, j, data);
      TrailStay(G(), trail);
      ok := m.Write(copies[0].clusterLba[c] + j, data);
      if ok {
        trail := trail + [StateOf(copies, m.image)];
        MovedSector(G(), old(S()), S(), c, j, data);
      }
    }
  }
}
