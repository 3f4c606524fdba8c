/** Layout of a FAT family volume: where FAT entries and clusters live, and the bytes of the streams
    that clusters form.  Everything above the sector level is stated over a View, the FAT words and
    cluster contents that an image holds. */
module VolumeLayout {
  import opened Arithmetic
  import opened Bytes
  import opened Machines

  /** Fields of a boot sector that the mount keeps. */
  datatype BootSector = BootSector(
    bootSectors: nat, sectorSize: nat, sectorsPerCluster: nat, volumeLength: nat, fatOffset: nat, fatLength: nat,
    heapOffset: nat, clusterCount: nat, bitmapFirst: nat, bitmapLength: nat)

  /** Cluster index, sector inside the cluster and byte inside the sector of a stream offset. */
  datatype Place = Place(q: nat, j: nat, r: nat)

  /** A mounted geometry with its address arithmetic tabulated.  For every cluster number: its first
      sector, the FAT sector of its entry and the byte position of that entry.  For every number of
      clusters: their size in bytes.  For every stream offset: the place it falls on. */
  datatype Geometry = Geometry(
    bootSectors: nat, sectorSize: nat, sectorsPerCluster: nat, clusterSize: nat, volumeLength: nat, clusterCount: nat,
    fatReach: nat, bitmapFirst: nat, bitmapLength: nat,
    clusterLba: seq<nat>, fatLba: seq<nat>, fatByte: seq<nat>,
    capacity: seq<nat>, place: seq<Place>)

  predicate ValidCluster(g: Geometry, c: int) {
    2 <= c < g.clusterCount + 2
  }

  predicate HasFatEntry(g: Geometry, c: int) {
    ValidCluster(g, c) && c < g.fatReach
  }

  /** Boot sectors, FAT sectors and clusters occupy disjoint places inside the volume, and stream
      offsets walk through the sectors of their clusters in order. */
  ghost predicate Layout(g: Geometry) {
    && g.sectorSize in {512, 1024, 2048, 4096}
    && 1 <= g.sectorsPerCluster && g.sectorSize <= g.clusterSize
    && 1 <= g.clusterCount < 0xFFFF_FFF0 && g.bootSectors <= g.volumeLength
    && Addresses(g) && Capacities(g) && Places(g) && Multiples(g)
  }

  /** n clusters hold n times the cluster size. */
  ghost predicate Multiples(g: Geometry)
    requires Capacities(g)
  {
    forall n {:trigger g.capacity[n]} :: 0 <= n <= g.clusterCount ==> g.capacity[n] == n * g.clusterSize
  }

  /** Boot sectors, FAT entries and clusters do not share bytes. */
  ghost predicate Addresses(g: Geometry) {
    && |g.clusterLba| == |g.fatLba| == |g.fatByte| == g.clusterCount + 2
    && (forall c {:trigger g.clusterLba[c]} :: ValidCluster(g, c) ==>
          g.bootSectors <= g.clusterLba[c] && g.clusterLba[c] + g.sectorsPerCluster <= g.volumeLength)
    && (forall c, d {:trigger g.clusterLba[c], g.clusterLba[d]} :: ValidCluster(g, c) && ValidCluster(g, d) && c < d ==>
          g.clusterLba[c] + g.sectorsPerCluster <= g.clusterLba[d])
    && (forall c {:trigger g.fatLba[c]} {:trigger g.fatByte[c]} :: HasFatEntry(g, c) ==>
          g.bootSectors <= g.fatLba[c] < g.volumeLength && g.fatByte[c] + 4 <= g.sectorSize)
    && (forall c, d {:trigger g.fatLba[c], g.clusterLba[d]} :: HasFatEntry(g, c) && ValidCluster(g, d) ==>
          g.fatLba[c] < g.clusterLba[d])
    && (forall c, d {:trigger g.fatByte[c], g.fatByte[d]} ::
          HasFatEntry(g, c) && HasFatEntry(g, d) && c < d && g.fatLba[c] == g.fatLba[d] ==>
          g.fatByte[c] + 4 <= g.fatByte[d])
  }

  ghost predicate Capacities(g: Geometry) {
    && |g.capacity| == g.clusterCount + 1 && g.capacity[0] == 0 && |g.place| == g.capacity[g.clusterCount]
    && (forall n {:trigger g.capacity[n]} :: 0 <= n <= g.clusterCount ==>
        g.capacity[n] <= |g.place| && g.capacity[n] % 512 == 0)
    && (forall n, k {:trigger g.capacity[n], g.capacity[k]} :: 0 <= n < k <= g.clusterCount ==>
          g.capacity[n] + g.clusterSize <= g.capacity[k])
    && (forall n, k {:trigger g.capacity[n], g.capacity[k]} ::
          0 <= n <= g.clusterCount && k == n + 1 <= g.clusterCount ==>
          g.capacity[k] == g.capacity[n] + g.clusterSize)
  }

  /** Stream offsets fall on distinct places, sector after sector and cluster after cluster. */
  ghost predicate Places(g: Geometry)
    requires Capacities(g)
  {
    && (forall n, o {:trigger g.capacity[n], g.place[o]} :: 0 <= n <= g.clusterCount && 0 <= o < |g.place| ==>
          (g.place[o].q < n <==> o < g.capacity[n]))
    && (forall n {:trigger g.place[g.capacity[n]]} :: 0 <= n < g.clusterCount ==>
          g.capacity[n] < |g.place| && g.place[g.capacity[n]] == Place(n, 0, 0))
    && (forall o {:trigger g.place[o]} :: 0 <= o < |g.place| ==>
          && g.place[o].j < g.sectorsPerCluster && g.place[o].r < g.sectorSize && g.place[o].r <= o
          && o - g.place[o].r + g.sectorSize <= |g.place|
          && (g.place[o].j + 1 < g.sectorsPerCluster ==> o - g.place[o].r + g.sectorSize < |g.place|))
    && SectorOrder(g)
  }

  ghost predicate SectorOrder(g: Geometry) {
    && (forall o, d {:trigger g.place[o], g.place[d]} ::
          0 <= o <= d < |g.place| && (g.place[o].r + (d - o) < g.sectorSize || d - o <= g.place[d].r) ==>
          g.place[d] == g.place[o].(r := g.place[o].r + (d - o)))
    && (forall o, d {:trigger g.place[o], g.place[d]} ::
          0 <= o < |g.place| && 0 <= d < |g.place| && g.place[o] == g.place[d] ==> o == d)
    && (forall o, d {:trigger g.place[o], g.place[d]} ::
          0 <= o < |g.place| && d == o + g.sectorSize < |g.place| && g.place[o].r == 0 ==>
          g.place[d] == if g.place[o].j + 1 < g.sectorsPerCluster then Place(g.place[o].q, g.place[o].j + 1, 0)
                        else Place(g.place[o].q + 1, 0, 0))
  }

  /** What the mount accepts, plus two things it does not check: the heap starts after the FAT, and the
      cluster numbers stay below the reserved link values. */
  ghost predicate Mountable(b: BootSector) {
    && b.sectorSize in {512, 1024, 2048, 4096} && 1 <= b.sectorsPerCluster
    && b.bootSectors <= b.fatOffset && 1 <= b.clusterCount < 0xFFFF_FFF0
    && b.fatOffset + b.fatLength <= b.heapOffset
    && b.heapOffset + b.clusterCount * b.sectorsPerCluster <= b.volumeLength
  }

  /** cluster_lba */
  function ClusterLba(b: BootSector, c: nat): nat {
    if c < 2 then 0 else b.heapOffset + b.sectorsPerCluster * (c - 2)
  }

  /** Sector and byte position of a FAT entry, as read_fat computes them. */
  function FatLba(b: BootSector, c: nat): nat
    requires b.sectorSize > 0
  {
    b.fatOffset + 4 * c / b.sectorSize
  }

  function FatByte(b: BootSector, c: nat): nat
    requires b.sectorSize > 0
  {
    4 * c % b.sectorSize
  }

  function Mount(b: BootSector): (g: Geometry)
    requires Mountable(b)
  {
    Geometry(b.bootSectors, b.sectorSize, b.sectorsPerCluster, ClusterSize(b), b.volumeLength,
             b.clusterCount, Product(b.fatLength, b.sectorSize) / 4, b.bitmapFirst, b.bitmapLength,
             seq(b.clusterCount + 2, c requires 0 <= c => ClusterLba(b, c)),
             seq(b.clusterCount + 2, c requires 0 <= c => FatLba(b, c)),
             seq(b.clusterCount + 2, c requires 0 <= c => FatByte(b, c)),
             seq(b.clusterCount + 1, n requires 0 <= n => Product(n, ClusterSize(b))),
             seq(Product(b.clusterCount, ClusterSize(b)), o requires 0 <= o => PlaceOf(b, o)))
  }

  /** Number of clusters needed for a length in bytes. */
  function ClustersFor(g: Geometry, length: nat): nat
    requires g.clusterSize > 0
  {
    (length + g.clusterSize - 1) / g.clusterSize
  }

  function ClusterSize(b: BootSector): nat {
    b.sectorSize * b.sectorsPerCluster
  }

  /** The position arithmetic of read_stream and stream_byte_location. */
  function PlaceOf(b: BootSector, off: nat): Place
    requires b.sectorSize > 0 && b.sectorsPerCluster > 0
  {
    var size := b.sectorSize * b.sectorsPerCluster;
    Place(off / size, off % size / b.sectorSize, off % size % b.sectorSize)
  }

  /** The first cluster starts the heap and each other one follows the one before; the entry of cluster c is the
      four bytes at 4 c of the FAT, and there is one when these lie in the FAT; byte o of a stream is where
      cluster, sector and byte add up to o. */
  lemma MountFormulas(b: BootSector)
    requires Mountable(b)
    ensures var g := Mount(b);
            && |g.clusterLba| == |g.fatLba| == |g.fatByte| == b.clusterCount + 2 && g.clusterLba[2] == b.heapOffset
            && (forall c :: 2 <= c <= b.clusterCount ==> g.clusterLba[c + 1] == g.clusterLba[c] + b.sectorsPerCluster)
            && (forall c :: 0 <= c < b.clusterCount + 2 ==>
                  g.fatByte[c] < b.sectorSize && b.sectorSize * (g.fatLba[c] - b.fatOffset) + g.fatByte[c] == 4 * c)
            && (forall c :: ValidCluster(g, c) ==> (HasFatEntry(g, c) <==> 4 * c + 4 <= b.fatLength * b.sectorSize))
            && (forall o :: 0 <= o < |g.place| ==>
                  var p := g.place[o];
                  o == b.sectorSize * b.sectorsPerCluster * p.q + b.sectorSize * p.j + p.r)
  {
    hide Mountable;
    var g := Mount(b);
    FirstCluster(b);
    forall c | 2 <= c <= b.clusterCount
      ensures g.clusterLba[c + 1] == g.clusterLba[c] + b.sectorsPerCluster
    {
      assert b.sectorsPerCluster * (c - 1) == b.sectorsPerCluster * (c - 2) + b.sectorsPerCluster;
    }
    forall c | 0 <= c < b.clusterCount + 2
      ensures g.fatByte[c] < b.sectorSize && b.sectorSize * (g.fatLba[c] - b.fatOffset) + g.fatByte[c] == 4 * c
    {
      var n := 4 * c;
      assert n == b.sectorSize * (n / b.sectorSize) + n % b.sectorSize;
    }
    forall o | 0 <= o < |g.place|
      ensures var p := g.place[o]; o == b.sectorSize * b.sectorsPerCluster * p.q + b.sectorSize * p.j + p.r
    {
      AddsUp(o, b.sectorSize, b.sectorsPerCluster);
    }
  }

  lemma FirstCluster(b: BootSector)
    requires Mountable(b)
    ensures b.sectorSize > 0 && b.sectorsPerCluster > 0 && b.clusterCount > 0 && ClusterLba(b, 2) == b.heapOffset
  {
  }

  lemma AddsUp(o: nat, s: nat, k: nat)
    requires s > 0 && k > 0
    ensures s * k > 0 && o == s * k * (o / (s * k)) + s * (o % (s * k) / s) + o % (s * k) % s
  {
    MulMono(s, 1, k);
    var i := o % (s * k);
    assert o == (s * k) * (o / (s * k)) + i && i == s * (i / s) + i % s;
  }

  lemma PlaceBounds(b: BootSector, o: nat)
    requires Mountable(b) && o < Product(b.clusterCount, ClusterSize(b))
    ensures var p := PlaceOf(b, o);
            && p.j < b.sectorsPerCluster && p.r < b.sectorSize && p.r <= o
            && o - p.r + b.sectorSize <= Product(b.clusterCount, ClusterSize(b))
            && (p.j + 1 < b.sectorsPerCluster ==> o - p.r + b.sectorSize < Product(b.clusterCount, ClusterSize(b)))
  {
    SplitBounds(o, b.sectorSize, b.sectorsPerCluster, b.clusterCount);
    ModAtMost(o, ClusterSize(b));
    ModAtMost(o % ClusterSize(b), b.sectorSize);
    UnitEnd(o, b.sectorSize, b.sectorsPerCluster, b.clusterCount);
  }

  lemma PlaceCluster(b: BootSector, n: nat, o: nat)
    requires Mountable(b)
    ensures PlaceOf(b, o).q < n <==> o < Product(n, ClusterSize(b))
  {
    DivLess(o, ClusterSize(b), n);
  }

  lemma PlaceSameSector(b: BootSector, o: nat, d: nat)
    requires Mountable(b) && o <= d
    requires PlaceOf(b, o).r + (d - o) < b.sectorSize || d - o <= PlaceOf(b, d).r
    ensures PlaceOf(b, d) == PlaceOf(b, o).(r := PlaceOf(b, o).r + (d - o))
  {
    if d - o <= PlaceOf(b, d).r {
      SplitBackward(d, d - o, b.sectorSize, b.sectorsPerCluster);
    } else {
      SplitForward(o, d - o, b.sectorSize, b.sectorsPerCluster);
    }
  }

  lemma PlaceNext(b: BootSector, o: nat)
    requires Mountable(b) && PlaceOf(b, o).r == 0
    ensures var p := PlaceOf(b, o);
            PlaceOf(b, o + b.sectorSize) == if p.j + 1 < b.sectorsPerCluster then Place(p.q, p.j + 1, 0)
                else Place(p.q + 1, 0, 0)
  {
    SplitNext(o, b.sectorSize, b.sectorsPerCluster);
  }

  lemma PlaceInjective(b: BootSector, o: nat, d: nat)
    requires Mountable(b) && PlaceOf(b, o) == PlaceOf(b, d)
    ensures o == d
  {
    SplitInjective(o, d, b.sectorSize, ClusterSize(b));
  }

  lemma PlaceStart(b: BootSector, n: nat)
    requires Mountable(b)
    ensures PlaceOf(b, Product(n, ClusterSize(b))) == Place(n, 0, 0)
  {
    SplitStart(n, b.sectorSize, b.sectorsPerCluster);
  }

  lemma MountCapacity(b: BootSector, n: nat, k: nat)
    requires Mountable(b) && n < k
    ensures Product(n, ClusterSize(b)) + ClusterSize(b) <= Product(k, ClusterSize(b))
    ensures k == n + 1 ==> Product(k, ClusterSize(b)) == Product(n, ClusterSize(b)) + ClusterSize(b)
    ensures ClusterSize(b) > 0
  {
    MulMono(ClusterSize(b), n, k);
    MulMono(b.sectorSize, 1, b.sectorsPerCluster);
  }

  lemma MountNone(b: BootSector)
    ensures Product(0, ClusterSize(b)) == 0
  {
  }

  lemma MountWhole(b: BootSector, n: nat)
    requires Mountable(b)
    ensures Product(n, ClusterSize(b)) % 512 == 0
  {
    var m := b.sectorSize / 512;
    assert b.sectorSize == 512 * m;
    WholeUnits(n, m, b.sectorsPerCluster, 512);
  }

  lemma WholeUnits(n: nat, m: nat, k: nat, u: nat)
    requires u > 0
    ensures n * ((u * m) * k) % u == 0
  {
    assert n * ((u * m) * k) == u * (n * (m * k));
    DivUnique(n * ((u * m) * k), u, n * (m * k), 0);
  }

  lemma MountCapacities(b: BootSector)
    requires Mountable(b)
    ensures Capacities(Mount(b))
  {
    hide PlaceOf, Product, ClusterSize, Mountable;
    var g := Mount(b);
    forall n, k | 0 <= n < k <= g.clusterCount
      ensures g.capacity[n] + g.clusterSize <= g.capacity[k]
      ensures k == n + 1 ==> g.capacity[k] == g.capacity[n] + g.clusterSize
    {
      MountCapacity(b, n, k);
    }
    assert Product(0, ClusterSize(b)) == 0 by { MountNone(b); }
    assert g.capacity[g.clusterCount] == Product(b.clusterCount, ClusterSize(b));
    forall n | 0 <= n <= g.clusterCount
      ensures g.capacity[n] <= |g.place| && g.capacity[n] % 512 == 0
    {
      MountWhole(b, n);
      if n < g.clusterCount {
        MountCapacity(b, n, g.clusterCount);
      }
    }
  }

  lemma MountSectorOrder(b: BootSector)
    requires Mountable(b)
    ensures SectorOrder(Mount(b))
  {
    hide PlaceOf, Product, ClusterSize, Mountable;
    var g := Mount(b);
    forall o, d | 0 <= o < |g.place| && 0 <= d < |g.place|
      ensures g.place[o] == g.place[d] ==> o == d
      ensures o <= d && (g.place[o].r + (d - o) < g.sectorSize || d - o <= g.place[d].r) ==>
                g.place[d] == g.place[o].(r := g.place[o].r + (d - o))
      ensures d == o + g.sectorSize && g.place[o].r == 0 ==>
                g.place[d] == if g.place[o].j + 1 < g.sectorsPerCluster then Place(g.place[o].q, g.place[o].j + 1, 0)
                              else Place(g.place[o].q + 1, 0, 0)
    {
      MountPair(b, o, d);
    }
  }

  lemma MountPair(b: BootSector, o: nat, d: nat)
    requires Mountable(b)
    ensures var x, y := PlaceOf(b, o), PlaceOf(b, d);
            && (x == y ==> o == d)
            && (o <= d && (x.r + (d - o) < b.sectorSize || d - o <= y.r) ==> y == x.(r := x.r + (d - o)))
            && (d == o + b.sectorSize && x.r == 0 ==>
                  y == if x.j + 1 < b.sectorsPerCluster then Place(x.q, x.j + 1, 0) else Place(x.q + 1, 0, 0))
  {
    hide PlaceOf;
    var x, y := PlaceOf(b, o), PlaceOf(b, d);
    if x == y {
      PlaceInjective(b, o, d);
    }
    if o <= d && (x.r + (d - o) < b.sectorSize || d - o <= y.r) {
      PlaceSameSector(b, o, d);
    }
    if d == o + b.sectorSize && x.r == 0 {
      PlaceNext(b, o);
    }
  }

  lemma MountPlaces(b: BootSector)
    requires Mountable(b)
    ensures Capacities(Mount(b)) && Places(Mount(b))
  {
    hide PlaceOf, Product, ClusterSize, Mountable, SectorOrder;
    MountCapacities(b);
    MountSectorOrder(b);
    var g := Mount(b);
    forall n, o | 0 <= n <= g.clusterCount && 0 <= o < |g.place|
      ensures g.place[o].q < n <==> o < g.capacity[n]
    {
      PlaceCluster(b, n, o);
    }
    forall o | 0 <= o < |g.place|
      ensures && g.place[o].j < g.sectorsPerCluster && g.place[o].r < g.sectorSize && g.place[o].r <= o
              && o - g.place[o].r + g.sectorSize <= |g.place|
              && (g.place[o].j + 1 < g.sectorsPerCluster ==> o - g.place[o].r + g.sectorSize < |g.place|)
    {
      PlaceBounds(b, o);
    }
    forall n | 0 <= n < g.clusterCount
      ensures g.capacity[n] < |g.place| && g.place[g.capacity[n]] == Place(n, 0, 0)
    {
      PlaceStart(b, n);
      MountCapacity(b, n, g.clusterCount);
    }
  }

  lemma FatByteFits(s: nat, m: nat, c: nat)
    requires s == 4 * m && m > 0
    ensures 4 * c % s + 4 <= s && 4 * c / s >= 0
  {
    assert c == m * (c / m) + c % m;
    DivUnique(4 * c, s, c / m, 4 * (c % m));
  }

  lemma FatEntryInside(s: nat, m: nat, length: nat, c: nat)
    requires s == 4 * m && m > 0
    ensures c < length * s / 4 <==> 4 * c / s < length
  {
    assert length * s == 4 * (length * m);
    assert 4 * c == s * (4 * c / s) + 4 * c % s;
    if length <= 4 * c / s {
      MulMono(s, length, 4 * c / s);
    } else {
      MulMono(s, 4 * c / s, length);
    }
  }

  lemma FatEntriesApart(b: BootSector, c: nat, d: nat)
    requires Mountable(b) && c < d && FatLba(b, c) == FatLba(b, d)
    ensures FatByte(b, c) + 4 <= FatByte(b, d)
  {
  }

  lemma ClustersApart(b: BootSector, c: nat, d: nat)
    requires Mountable(b) && 2 <= c < d < b.clusterCount + 2
    ensures b.heapOffset <= ClusterLba(b, c) && ClusterLba(b, c) + b.sectorsPerCluster <= ClusterLba(b, d)
    ensures ClusterLba(b, d) + b.sectorsPerCluster <= b.volumeLength
  {
    MulMono(b.sectorsPerCluster, 0, c - 2);
    MulMono(b.sectorsPerCluster, c - 2, d - 2);
    MulMono(b.sectorsPerCluster, d - 2, b.clusterCount);
  }

  lemma MountAddresses(b: BootSector)
    requires Mountable(b)
    ensures Addresses(Mount(b))
    ensures forall c: nat :: c < Mount(b).fatReach <==> 4 * c / b.sectorSize < b.fatLength
  {
    hide PlaceOf, ClusterSize, Product, FatLba, FatByte, ClusterLba;
    var g := Mount(b);
    forall c: nat
      ensures c < g.fatReach <==> 4 * c / b.sectorSize < b.fatLength
      ensures c < g.fatReach ==> b.fatOffset <= FatLba(b, c) < b.heapOffset && FatByte(b, c) + 4 <= b.sectorSize
    {
      FatPlace(b, c);
      FatReachIs(b.fatLength, b.sectorSize, c);
    }
    forall c, d | HasFatEntry(g, c) && HasFatEntry(g, d) && c < d && g.fatLba[c] == g.fatLba[d]
      ensures g.fatByte[c] + 4 <= g.fatByte[d]
    {
      FatEntriesApart(b, c, d);
    }
    forall c, d | ValidCluster(g, c) && ValidCluster(g, d) && c < d
      ensures g.clusterLba[c] + g.sectorsPerCluster <= g.clusterLba[d]
    {
      ClustersApart(b, c, d);
    }
    forall c | ValidCluster(g, c)
      ensures b.heapOffset <= g.clusterLba[c] && g.clusterLba[c] + g.sectorsPerCluster <= g.volumeLength
    {
      ClusterFits(b, c);
    }
  }

  lemma FatPlace(b: BootSector, c: nat)
    requires Mountable(b)
    ensures FatByte(b, c) + 4 <= b.sectorSize && FatLba(b, c) == b.fatOffset + 4 * c / b.sectorSize >= b.fatOffset
  {
    FatByteFits(b.sectorSize, b.sectorSize / 4, c);
  }

  lemma FatReachIs(length: nat, s: nat, c: nat)
    requires s in {512, 1024, 2048, 4096}
    ensures c < Product(length, s) / 4 <==> 4 * c / s < length
  {
    FatEntryInside(s, s / 4, length, c);
  }

  lemma ClusterFits(b: BootSector, c: nat)
    requires Mountable(b) && 2 <= c < b.clusterCount + 2
    ensures b.heapOffset <= ClusterLba(b, c) && ClusterLba(b, c) + b.sectorsPerCluster <= b.volumeLength
  {
    MulMono(b.sectorsPerCluster, 0, c - 2);
    MulMono(b.sectorsPerCluster, c - 2, b.clusterCount);
  }

  lemma MountMultiples(b: BootSector)
    requires Mountable(b) && Capacities(Mount(b))
    ensures Multiples(Mount(b)) && Mount(b).sectorSize <= Mount(b).clusterSize
  {
    MulMono(b.sectorSize, 1, b.sectorsPerCluster);
  }

  /** The addresses that the driver computes keep boot, FAT and cluster sectors apart, and an entry
      lies in the FAT exactly when the driver's sector test passes. */
  lemma MountLayout(b: BootSector)
    requires Mountable(b)
    ensures Layout(Mount(b))
    ensures forall c: nat :: c < Mount(b).fatReach <==> 4 * c / b.sectorSize < b.fatLength
  {
    hide Addresses, Places, Capacities, Multiples, PlaceOf, FatLba, FatByte, ClusterLba;
    MountPlaces(b);
    MountMultiples(b);
    MountAddresses(b);
  }

  ghost predicate Fits(g: Geometry, img: Image) {
    && g.volumeLength <= |img|
    && forall i :: 0 <= i < |img| ==> |img[i]| == g.sectorSize
  }

  datatype View = View(fat: seq<nat>, heap: seq<seq<Sector>>)

  ghost predicate Shaped(g: Geometry, v: View) {
    && |v.fat| == |v.heap| == g.clusterCount + 2
    && (forall c {:trigger v.fat[c]} :: 0 <= c < |v.fat| ==> v.fat[c] < 0x1_0000_0000)
    && (forall c {:trigger v.heap[c]} :: ValidCluster(g, c) ==> |v.heap[c]| == g.sectorsPerCluster)
    && (forall c, j {:trigger v.heap[c][j]} :: ValidCluster(g, c) && 0 <= j < g.sectorsPerCluster ==>
          |v.heap[c][j]| == g.sectorSize)
  }

  function FatOf(g: Geometry, img: Image, c: nat): (w: nat)
    requires Layout(g) && Fits(g, img)
    ensures w < 0x1_0000_0000
  {
    if HasFatEntry(g, c) then U32(img[g.fatLba[c]], g.fatByte[c]) else 0
  }

  function ClusterOf(g: Geometry, img: Image, c: nat): seq<Sector>
    requires Layout(g) && Fits(g, img)
  {
    if ValidCluster(g, c) then img[g.clusterLba[c]..g.clusterLba[c] + g.sectorsPerCluster] else []
  }

  function ViewOf(g: Geometry, img: Image): (v: View)
    requires Layout(g) && Fits(g, img)
    ensures Shaped(g, v)
  {
    View(seq(g.clusterCount + 2, c requires 0 <= c => FatOf(g, img, c)),
         seq(g.clusterCount + 2, c requires 0 <= c => ClusterOf(g, img, c)))
  }

  /** Sector j of cluster c. */
  function SectorOf(g: Geometry, c: nat, j: nat): (lba: nat)
    requires Layout(g) && ValidCluster(g, c) && j < g.sectorsPerCluster
    ensures lba < g.volumeLength
  {
    g.clusterLba[c] + j
  }

  lemma HeapSector(g: Geometry, img: Image, c: nat, j: nat)
    requires Layout(g) && Fits(g, img) && ValidCluster(g, c) && j < g.sectorsPerCluster
    ensures |img[SectorOf(g, c, j)]| == g.sectorSize
    ensures var v := ViewOf(g, img);
            && |v.heap| == g.clusterCount + 2 && |v.heap[c]| == g.sectorsPerCluster
            && v.heap[c][j] == img[SectorOf(g, c, j)]
  {
  }

  /** The write performed by write_fat. */
  function SetFat(g: Geometry, img: Image, c: nat, value: nat): (r: Image)
    requires Layout(g) && Fits(g, img) && HasFatEntry(g, c)
    ensures Fits(g, r)
  {
    img[g.fatLba[c] := Splice(img[g.fatLba[c]], g.fatByte[c], Le32(value))]
  }

  lemma U32Splice(s: seq<Byte>, p: nat, q: nat, value: nat)
    requires p + 4 <= |s| && q + 4 <= |s| && value < 0x1_0000_0000
    requires p == q || p + 4 <= q || q + 4 <= p
    ensures U32(Splice(s, p, Le32(value)), q) == if p == q then value else U32(s, q)
  {
    assert p == q ==> U32(Splice(s, p, Le32(value)), q) == U32(Le32(value), 0);
  }

  /** Writing a FAT entry changes that entry and nothing else of the view. */
  lemma SetFatView(g: Geometry, img: Image, c: nat, value: nat)
    requires Layout(g) && Fits(g, img) && HasFatEntry(g, c) && value < 0x1_0000_0000
    ensures var v := ViewOf(g, img); ViewOf(g, SetFat(g, img, c, value)) == v.(fat := v.fat[c := value])
  {
    var v, img' := ViewOf(g, img), SetFat(g, img, c, value);
    forall d | 0 <= d < g.clusterCount + 2
      ensures FatOf(g, img', d) == v.fat[c := value][d]
      ensures ClusterOf(g, img', d) == v.heap[d]
    {
      if HasFatEntry(g, d) && g.fatLba[d] == g.fatLba[c] {
        U32Splice(img[g.fatLba[c]], g.fatByte[c], g.fatByte[d], value);
      }
    }
    assert ViewOf(g, img').fat == v.fat[c := value];
    assert ViewOf(g, img').heap == v.heap;
  }

  /** Writing sector j of cluster c changes that sector and nothing else of the view. */
  lemma SetHeapView(g: Geometry, img: Image, c: nat, j: nat, data: Sector)
    requires Layout(g) && Fits(g, img) && ValidCluster(g, c) && j < g.sectorsPerCluster && |data| == g.sectorSize
    ensures Fits(g, img[SectorOf(g, c, j) := data])
    ensures var v := ViewOf(g, img);
            ViewOf(g, img[SectorOf(g, c, j) := data]) == v.(heap := v.heap[c := v.heap[c][j := data]])
  {
    var v, img' := ViewOf(g, img), img[SectorOf(g, c, j) := data];
    forall d | 0 <= d < g.clusterCount + 2
      ensures FatOf(g, img', d) == v.fat[d]
      ensures ClusterOf(g, img', d) == v.heap[c := v.heap[c][j := data]][d]
    {
    }
    assert ViewOf(g, img').fat == v.fat;
    assert ViewOf(g, img').heap == v.heap[c := v.heap[c][j := data]];
  }

  /** The two boot sectors are outside the view. */
  lemma SetBootView(g: Geometry, img: Image, lba: nat, data: Sector)
    requires Layout(g) && Fits(g, img) && lba < g.bootSectors && |data| == g.sectorSize
    ensures Fits(g, img[lba := data]) && ViewOf(g, img[lba := data]) == ViewOf(g, img)
  {
    var v, img' := ViewOf(g, img), img[lba := data];
    forall d | 0 <= d < g.clusterCount + 2
      ensures FatOf(g, img', d) == v.fat[d] && ClusterOf(g, img', d) == v.heap[d]
    {
    }
    assert ViewOf(g, img').fat == v.fat;
    assert ViewOf(g, img').heap == v.heap;
  }

  // ----- bytes of a stream of clusters

  ghost predicate Clusters(g: Geometry, cl: seq<nat>) {
    && 1 <= |cl| <= g.clusterCount
    && (forall i :: 0 <= i < |cl| ==> ValidCluster(g, cl[i]))
    && (forall i, k :: 0 <= i < k < |cl| ==> cl[i] != cl[k])
  }

  /** cl[i] links to cl[i + 1]. */
  ghost predicate Linked(v: View, cl: seq<nat>) {
    forall i :: 0 <= i < |cl| - 1 ==> 0 <= cl[i] < |v.fat| && v.fat[cl[i]] == cl[i + 1]
  }

  /** The number of clusters needed for what n clusters hold is n. */
  lemma ClustersForCapacity(g: Geometry, n: nat)
    requires Layout(g) && n <= g.clusterCount
    ensures ClustersFor(g, g.capacity[n]) == n && (n > 0 ==> g.capacity[n] > 0)
  {
    hide Addresses, Places;
    DivUnique(g.capacity[n] + g.clusterSize - 1, g.clusterSize, n, g.clusterSize - 1);
  }

  /** ClustersFor rounds up: a length fits its clusters and not one less. */
  lemma ClustersForFits(g: Geometry, length: nat)
    requires Layout(g) && ClustersFor(g, length) <= g.clusterCount
    ensures length <= g.capacity[ClustersFor(g, length)]
    ensures length > 0 ==> ClustersFor(g, length) > 0 && g.capacity[ClustersFor(g, length) - 1] < length
  {
    hide Addresses, Places;
    var a, cs := length + g.clusterSize - 1, g.clusterSize;
    assert a == cs * (a / cs) + a % cs;
    if length > 0 {
      MulMono(cs, 1, 1);
      DivLess(a, cs, 1);
      var n := a / cs;
      assert g.capacity[n] == n * cs && g.capacity[n] == g.capacity[n - 1] + cs;
    }
  }

  lemma CapacityAtLeast(g: Geometry, n: nat)
    requires Layout(g) && 2 <= n <= g.clusterCount
    ensures g.capacity[n] >= 1024
  {
    assert g.capacity[1] >= g.capacity[0] + 512;
    assert g.capacity[n] >= g.capacity[1] + 512;
  }

  lemma PlaceInside(g: Geometry, n: nat, off: nat)
    requires Layout(g) && n <= g.clusterCount && off < g.capacity[n]
    ensures off < |g.place| && g.place[off].q < n
    ensures g.place[off].j < g.sectorsPerCluster && g.place[off].r < g.sectorSize
  {
  }

  /** Where the sector after a whole sector starts. */
  lemma NextSector(g: Geometry, q: nat, j: nat, o: nat)
    requires Layout(g) && q < g.clusterCount && o < |g.place| && g.place[o] == Place(q, j, 0)
    ensures j < g.sectorsPerCluster
    ensures o + g.sectorSize <= g.capacity[q + 1] && g.capacity[q] <= o
    ensures j + 1 < g.sectorsPerCluster ==>
              o + g.sectorSize < g.capacity[q + 1] && g.place[o + g.sectorSize] == Place(q, j + 1, 0)
    ensures j + 1 == g.sectorsPerCluster ==> o + g.sectorSize == g.capacity[q + 1]
  {
    var d := o + g.sectorSize;
    if d < |g.place| {
      assert g.place[d].r == 0;
      if j + 1 < g.sectorsPerCluster {
        assert d < g.capacity[q + 1];
      } else {
        assert q + 1 < g.clusterCount by { assert g.place[d].q < g.clusterCount; }
        assert g.place[g.capacity[q + 1]] == Place(q + 1, 0, 0);
      }
    }
  }

  /** Byte number off of the stream made of the clusters cl. */
  function ByteAt(g: Geometry, v: View, cl: seq<nat>, off: nat): Byte
    requires Layout(g) && Shaped(g, v) && Clusters(g, cl) && off < g.capacity[|cl|]
  {
    var p := g.place[off];
    v.heap[cl[p.q]][p.j][p.r]
  }

  /** The bytes of one sector are consecutive bytes of the stream. */
  lemma SectorBytes(g: Geometry, v: View, cl: seq<nat>, off: nat, copy: nat)
    requires Layout(g) && Shaped(g, v) && Clusters(g, cl) && off + copy <= g.capacity[|cl|] && 0 < copy
    requires g.place[off].r + copy <= g.sectorSize
    ensures var p := g.place[off];
            forall o :: off <= o < off + copy ==> v.heap[cl[p.q]][p.j][p.r + (o - off)] == ByteAt(g, v, cl, o)
  {
  }

  /** The view after b has been laid over the sector that holds offset off of the stream cl. */
  function PutChunk(g: Geometry, v: View, cl: seq<nat>, off: nat, b: seq<Byte>): (r: View)
    requires Layout(g) && Shaped(g, v) && Clusters(g, cl) && off < g.capacity[|cl|]
    requires g.place[off].r + |b| <= g.sectorSize
    ensures Shaped(g, r)
  {
    var p := g.place[off];
    var c := cl[p.q];
    v.(heap := v.heap[c := v.heap[c][p.j := Splice(v.heap[c][p.j], p.r, b)]])
  }

  /** Another offset with the same sector lies where its byte position says. */
  lemma PlaceOnly(g: Geometry, off: nat, o: nat)
    requires Layout(g) && off < |g.place| && o < |g.place|
    requires g.place[off].q == g.place[o].q && g.place[off].j == g.place[o].j && g.place[off].r <= g.place[o].r
    ensures o == off + (g.place[o].r - g.place[off].r)
  {
    var d := o - (g.place[o].r - g.place[off].r);
    assert g.place[d] == g.place[off];
  }

  /** A chunk write replaces those bytes of the stream and leaves its other bytes alone. */
  lemma PutChunkByte(g: Geometry, v: View, cl: seq<nat>, off: nat, b: seq<Byte>, o: nat)
    requires Layout(g) && Shaped(g, v) && Clusters(g, cl) && off + |b| <= g.capacity[|cl|] && off < g.capacity[|cl|]
    requires g.place[off].r + |b| <= g.sectorSize && o < g.capacity[|cl|]
    ensures ByteAt(g, PutChunk(g, v, cl, off, b), cl, o)
         == if off <= o < off + |b| then b[o - off] else ByteAt(g, v, cl, o)
  {
    var p, x := g.place[off], g.place[o];
    if !(off <= o < off + |b|) && x.q == p.q && x.j == p.j && p.r <= x.r < p.r + |b| {
      PlaceOnly(g, off, o);
      assert false;
    }
  }

  /** Every byte of the stream, with b laid over it from offset off. */
  ghost predicate Overlaid(g: Geometry, v: View, w: View, cl: seq<nat>, off: nat, b: seq<Byte>)
    requires Layout(g) && Shaped(g, v) && Shaped(g, w) && Clusters(g, cl)
  {
    forall o {:trigger ByteAt(g, w, cl, o)} :: 0 <= o < g.capacity[|cl|] ==>
      ByteAt(g, w, cl, o) == if off <= o < off + |b| then b[o - off] else ByteAt(g, v, cl, o)
  }

  /** One more chunk extends what has been laid over the stream. */
  lemma OverlayMore(g: Geometry, v: View, w: View, cl: seq<nat>, off: nat, b: seq<Byte>, chunk: seq<Byte>)
    requires Layout(g) && Shaped(g, v) && Shaped(g, w) && Clusters(g, cl) && |chunk| > 0
    requires off + |b| + |chunk| <= g.capacity[|cl|] && g.place[off + |b|].r + |chunk| <= g.sectorSize
    requires Overlaid(g, v, w, cl, off, b)
    ensures Overlaid(g, v, PutChunk(g, w, cl, off + |b|, chunk), cl, off, b + chunk)
  {
    var x := PutChunk(g, w, cl, off + |b|, chunk);
    forall o | 0 <= o < g.capacity[|cl|]
      ensures ByteAt(g, x, cl, o) == if off <= o < off + |b + chunk| then (b + chunk)[o - off] else ByteAt(g, v, cl, o)
    {
      PutChunkByte(g, w, cl, off + |b|, chunk, o);
    }
  }

  lemma OverlaidNothing(g: Geometry, v: View, cl: seq<nat>, off: nat)
    requires Layout(g) && Shaped(g, v) && Clusters(g, cl)
    ensures Overlaid(g, v, v, cl, off, [])
  {
  }

  lemma PutChunkIs(g: Geometry, v: View, cl: seq<nat>, off: nat, b: seq<Byte>)
    requires Layout(g) && Shaped(g, v) && Clusters(g, cl) && off < g.capacity[|cl|]
    requires g.place[off].r + |b| <= g.sectorSize
    ensures var p := g.place[off];
            var c := cl[p.q];
            PutChunk(g, v, cl, off, b) == v.(heap := v.heap[c := v.heap[c][p.j := Splice(v.heap[c][p.j], p.r, b)]])
  {
  }

  function Members(cl: seq<nat>): set<nat> {
    set c | c in cl
  }

  /** w differs from v at most in FAT entries of clusters in f and contents of clusters in h. */
  ghost predicate Within(g: Geometry, v: View, w: View, f: set<nat>, h: set<nat>) {
    && |w.heap| == |v.heap| == |w.fat| == |v.fat| == g.clusterCount + 2
    && (forall c {:trigger w.fat[c]} :: 0 <= c < |v.fat| && c !in f ==> w.fat[c] == v.fat[c])
    && (forall c {:trigger w.heap[c]} :: 0 <= c < |v.heap| && c !in h ==> w.heap[c] == v.heap[c])
  }

  lemma WithinSelf(g: Geometry, v: View, h: set<nat>)
    requires Shaped(g, v)
    ensures Within(g, v, v, {}, h)
  {
  }

  lemma WithinTrans(g: Geometry, u: View, v: View, w: View, f: set<nat>, h: set<nat>, f': set<nat>, h': set<nat>)
    requires Within(g, u, v, f, h) && Within(g, v, w, f', h')
    ensures Within(g, u, w, f + f', h + h')
  {
  }

  /** Bytes of clusters that were not touched. */
  lemma BytesKept(g: Geometry, v: View, w: View, f: set<nat>, h: set<nat>, cl: seq<nat>, o: nat)
    requires Layout(g) && Shaped(g, v) && Shaped(g, w) && Clusters(g, cl) && o < g.capacity[|cl|]
    requires Within(g, v, w, f, h) && h !! Members(cl)
    ensures ByteAt(g, w, cl, o) == ByteAt(g, v, cl, o)
  {
    assert cl[g.place[o].q] in Members(cl);
  }

  /** The clusters cl hold buf, followed by zeros. */
  ghost predicate Holds(g: Geometry, v: View, cl: seq<nat>, buf: seq<Byte>)
    requires Layout(g) && Shaped(g, v) && Clusters(g, cl)
  {
    forall o {:trigger ByteAt(g, v, cl, o)} :: 0 <= o < g.capacity[|cl|] ==>
      ByteAt(g, v, cl, o) == if o < |buf| then buf[o] else 0
  }

  lemma HoldsAll(g: Geometry, v: View, w: View, cl: seq<nat>, buf: seq<Byte>, content: seq<Byte>)
    requires Layout(g) && Shaped(g, v) && Shaped(g, w) && Clusters(g, cl) && |buf| <= g.capacity[|cl|]
    requires content == buf + Zeros(g.capacity[|cl|] - |buf|) && Overlaid(g, v, w, cl, 0, content[..g.capacity[|cl|]])
    ensures Holds(g, w, cl, buf)
  {
  }

  lemma ClusterStart(g: Geometry, n: nat, q: nat)
    requires Layout(g) && q < n <= g.clusterCount
    ensures g.capacity[q] < |g.place| && g.place[g.capacity[q]] == Place(q, 0, 0)
    ensures g.capacity[0] == 0 && g.capacity[q] <= g.capacity[q + 1] <= g.capacity[n] <= |g.place|
  {
  }

  lemma SectorContent(buf: seq<Byte>, content: seq<Byte>, at: nat, written: nat, sector: seq<Byte>)
    requires |buf| <= |content| && at + |sector| <= |content| && written == Min(at, |buf|)
    requires content == buf + Zeros(|content| - |buf|)
    requires var copy := Min(|sector|, |buf| - written);
             sector == if written < |buf| then buf[written..written + copy] + Zeros(|sector| - copy)
                 else Zeros(|sector|)
    ensures sector == content[at..at + |sector|]
  {
  }

  // ----- directories

  /** n bytes of a stream. */
  function BytesAt(g: Geometry, v: View, cl: seq<nat>, off: nat, n: nat): (b: seq<Byte>)
    requires Layout(g) && Shaped(g, v) && Clusters(g, cl) && off + n <= g.capacity[|cl|]
    ensures |b| == n
  {
    seq<Byte>(n, i requires 0 <= i < n => ByteAt(g, v, cl, off + i))
  }

  /** Clusters hold whole slots. */
  lemma SlotCount(g: Geometry, n: nat)
    requires Layout(g) && n <= g.clusterCount
    ensures |g.capacity| == g.clusterCount + 1 && 32 * (g.capacity[n] / 32) == g.capacity[n]
    ensures n < g.clusterCount ==> g.capacity[n + 1] == g.capacity[n] + g.clusterSize && g.clusterSize >= 512
  {
    hide Multiples, Places, Addresses;
    WholeSlots(g.capacity[n]);
  }

  lemma WholeSlots(c: nat)
    requires c % 512 == 0
    ensures 32 * (c / 32) == c
  {
    var q := c / 512;
    assert c == 512 * q;
    DivUnique(c, 32, 16 * q, 0);
  }

  /** The 32-byte slots of a directory, in order, across sectors and clusters. */
  function DirSlots(g: Geometry, v: View, cl: seq<nat>): (slots: seq<Slot>)
    requires Layout(g) && Shaped(g, v) && Clusters(g, cl)
    ensures |slots| == g.capacity[|cl|] / 32
  {
    seq<Slot>(g.capacity[|cl|] / 32, i requires 0 <= i < g.capacity[|cl|] / 32 => SlotOf(g, v, cl, i))
  }

  function SlotOf(g: Geometry, v: View, cl: seq<nat>, i: nat): Slot
    requires Layout(g) && Shaped(g, v) && Clusters(g, cl) && i < g.capacity[|cl|] / 32
  {
    hide Multiples, Places, Addresses;
    BytesAt(g, v, cl, 32 * i, 32)
  }

  /** The slots of the sector that starts at offset at of the directory. */
  ghost predicate SectorSlots(slots: seq<Slot>, k: nat, sector: Sector) {
    && |sector| % 32 == 0 && k + |sector| / 32 <= |slots|
    && forall i :: 0 <= i < |sector| / 32 ==> slots[k + i] == sector[32 * i..32 * i + 32]
  }

  /** A whole sector of the directory gives the next slots. */
  lemma SectorHasSlots(g: Geometry, v: View, cl: seq<nat>, q: nat, j: nat, k: nat)
    requires Layout(g) && Shaped(g, v) && Clusters(g, cl) && q < |cl| && j < g.sectorsPerCluster
    requires 32 * k < |g.place| && g.place[32 * k] == Place(q, j, 0)
    ensures 32 * k + g.sectorSize <= g.capacity[|cl|] && g.sectorSize % 32 == 0 && g.sectorSize >= 512
    ensures SectorSlots(DirSlots(g, v, cl), k, v.heap[cl[q]][j])
  {
    hide Multiples, Addresses, Places, ByteAt, SlotOf;
    NextSector(g, q, j, 32 * k);
    assert g.capacity[q + 1] <= g.capacity[|cl|];
    SectorBytes(g, v, cl, 32 * k, g.sectorSize);
    forall i | 0 <= i < g.sectorSize / 32
      ensures DirSlots(g, v, cl)[k + i] == v.heap[cl[q]][j][32 * i..32 * i + 32]
    {
      SlotInSector(g, v, cl, v.heap[cl[q]][j], k, i);
    }
  }

  lemma SlotInSector(g: Geometry, v: View, cl: seq<nat>, sector: Sector, k: nat, i: nat)
    requires Layout(g) && Shaped(g, v) && Clusters(g, cl) && |sector| == g.sectorSize && 32 * i + 32 <= |sector|
    requires 32 * k + g.sectorSize <= g.capacity[|cl|]
    requires forall o :: 32 * k <= o < 32 * k + g.sectorSize ==> sector[0 + (o - 32 * k)] == ByteAt(g, v, cl, o)
    ensures SlotOf(g, v, cl, k + i) == sector[32 * i..32 * i + 32]
  {
    hide Multiples, Addresses, Places, ByteAt;
    var a, b := SlotOf(g, v, cl, k + i), sector[32 * i..32 * i + 32];
    forall r | 0 <= r < 32
      ensures a[r] == b[r]
    {
      assert a[r] == ByteAt(g, v, cl, 32 * (k + i) + r);
    }
  }

  lemma SlotsSame(g: Geometry, v: View, w: View, cl: seq<nat>, i: nat)
    requires Layout(g) && Shaped(g, v) && Shaped(g, w) && Clusters(g, cl) && i < g.capacity[|cl|] / 32
    requires forall o :: 32 * i <= o < 32 * i + 32 ==> ByteAt(g, w, cl, o) == ByteAt(g, v, cl, o)
    ensures DirSlots(g, w, cl)[i] == DirSlots(g, v, cl)[i]
  {
    hide Multiples, Places, Addresses, ByteAt, Shaped;
    var a, b := SlotOf(g, v, cl, i), SlotOf(g, w, cl, i);
    forall r | 0 <= r < 32
      ensures a[r] == b[r]
    {
      assert a[r] == ByteAt(g, v, cl, 32 * i + r) && b[r] == ByteAt(g, w, cl, 32 * i + r);
    }
  }

  // ----- the first clusters of a directory

  /** The first n slots are those of the first m clusters. */
  ghost predicate FirstHold(g: Geometry, cl: seq<nat>, m: nat, n: nat) {
    Layout(g) && m <= |cl| <= g.clusterCount && 32 * n == g.capacity[m]
  }

  lemma FirstWhole(g: Geometry, cl: seq<nat>, m: nat)
    requires Layout(g) && Clusters(g, cl) && m <= |cl|
    ensures FirstHold(g, cl, m, g.capacity[m] / 32)
  {
    hide Multiples, Addresses, Places;
    SlotCount(g, m);
  }

  lemma PartSlots(g: Geometry, v: View, cl: seq<nat>, m: nat, n: nat)
    requires Layout(g) && Shaped(g, v) && Clusters(g, cl) && 0 < m && FirstHold(g, cl, m, n)
    ensures Clusters(g, cl[..m]) && n == |DirSlots(g, v, cl[..m])| <= |DirSlots(g, v, cl)|
    ensures DirSlots(g, v, cl[..m]) == DirSlots(g, v, cl)[..n]
  {
    hide Multiples, Addresses, SectorOrder, Shaped, ByteAt;
    assert g.capacity[m] <= g.capacity[|cl|];
    forall i | 0 <= i < n
      ensures SlotOf(g, v, cl[..m], i) == SlotOf(g, v, cl, i)
    {
      forall o | 32 * i <= o < 32 * i + 32
        ensures ByteAt(g, v, cl[..m], o) == ByteAt(g, v, cl, o)
      {
        PartByte(g, v, cl, m, o);
      }
      PartSlot(g, v, cl, m, i);
    }
  }

  lemma PartByte(g: Geometry, v: View, cl: seq<nat>, m: nat, o: nat)
    requires Layout(g) && Shaped(g, v) && Clusters(g, cl) && m <= |cl| && Clusters(g, cl[..m])
             && o < g.capacity[m] <= g.capacity[|cl|]
    ensures ByteAt(g, v, cl[..m], o) == ByteAt(g, v, cl, o)
  {
    hide Multiples, Addresses, SectorOrder;
  }

  lemma PartSlot(g: Geometry, v: View, cl: seq<nat>, m: nat, i: nat)
    requires Layout(g) && Shaped(g, v) && Clusters(g, cl) && m <= |cl| && Clusters(g, cl[..m])
    requires 32 * i + 32 <= g.capacity[m] <= g.capacity[|cl|] && i < g.capacity[m] / 32 <= g.capacity[|cl|] / 32
    requires forall o :: 32 * i <= o < 32 * i + 32 ==> ByteAt(g, v, cl[..m], o) == ByteAt(g, v, cl, o)
    ensures SlotOf(g, v, cl[..m], i) == SlotOf(g, v, cl, i)
  {
    hide Multiples, Addresses, Places, Shaped, ByteAt;
    var a, b := SlotOf(g, v, cl[..m], i), SlotOf(g, v, cl, i);
    forall r | 0 <= r < 32
      ensures a[r] == b[r]
    {
      assert a[r] == ByteAt(g, v, cl[..m], 32 * i + r) && b[r] == ByteAt(g, v, cl, 32 * i + r);
    }
  }
}
