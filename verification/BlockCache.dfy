/** The block layer: a 16-slot cache with read-ahead and retries, shared by a disk and its partitions. */
module BlockCache {
  import Arithmetic
  import opened Bytes

  const SLOTS: nat := 16
  const MAX_LBA: nat := 0xFFFF_FFFF_FFFF_FFFF

  type Block = seq<Byte>

  /** Device 0 is the disk, every other device a partition of it.  A block count of 0 means unknown. */
  datatype Device = Device(start: nat, blockCount: nat, noCache: bool, readOnly: bool, retries: nat)

  datatype Entry = Entry(valid: bool, dev: nat, lba: nat, data: Block)

  /** Blocks of devices whose cached copies may be out of date for the moment. */
  type Loose = set<(nat, nat)>

  /** request_in_bounds */
  predicate InBounds(d: Device, lba: nat, count: nat) {
    count != 0 && lba + count - 1 <= MAX_LBA && (d.blockCount != 0 ==> lba + count <= d.blockCount)
  }

  /** Block i has a number of 64 bits and, when the device's size is known, is on the device. */
  ghost predicate BlockOf(d: Device, i: nat) {
    i <= MAX_LBA && (d.blockCount == 0 || i < d.blockCount)
  }

  /** A request is in bounds when it asks for blocks of the device, and for at least one. */
  lemma InBoundsIff(d: Device, lba: nat, count: nat)
    ensures InBounds(d, lba, count) <==> count > 0 && forall i :: lba <= i < lba + count ==> BlockOf(d, i)
  {
    if count > 0 && forall i :: lba <= i < lba + count ==> BlockOf(d, i) {
      assert BlockOf(d, lba + (count - 1));
    }
  }

  lemma InBoundsIs(d: Device, lba: nat, count: nat)
    ensures InBounds(d, lba, count) <==>
            0 < count && lba + count - 1 <= MAX_LBA && (d.blockCount != 0 ==> lba + count <= d.blockCount)
  {
  }

  lemma BoundsOne(d: Device, lba: nat, count: nat, i: nat)
    requires InBounds(d, lba, count) && i < count
    ensures InBounds(d, lba + i, 1)
  {
  }

  lemma WrittenHolds(devices: seq<Device>, disk: seq<Block>, dev: nat, lba: nat, blocks: seq<Block>, i: nat)
    requires dev < |devices| && Place(devices, dev, lba) + |blocks| <= |disk| && i < |blocks|
    ensures Holds(devices, Written(disk, Place(devices, dev, lba), blocks), dev, lba + i, blocks[i])
  {
  }

  /** The block of the disk that a block of a device is. */
  function Place(devices: seq<Device>, dev: nat, lba: nat): nat
    requires dev < |devices|
  {
    if dev == 0 then lba else devices[dev].start + lba
  }

  /** Every cached block is what the disk holds, except loose ones; no block of a device is cached twice. */
  ghost predicate Coherent(devices: seq<Device>, disk: seq<Block>, cache: seq<Entry>, loose: Loose) {
    && |cache| == SLOTS
    && (forall i :: 0 <= i < SLOTS && cache[i].valid ==> Cacheable(devices, cache[i].dev, cache[i].lba))
    && (forall i :: 0 <= i < SLOTS && cache[i].valid && (cache[i].dev, cache[i].lba) !in loose ==>
          Holds(devices, disk, cache[i].dev, cache[i].lba, cache[i].data))
    && (forall i, j :: 0 <= i < j < SLOTS && cache[i].valid && cache[j].valid ==>
          cache[i].dev != cache[j].dev || cache[i].lba != cache[j].lba)
  }

  ghost predicate Cacheable(devices: seq<Device>, dev: nat, lba: nat) {
    dev < |devices| && !devices[dev].noCache && InBounds(devices[dev], lba, 1)
  }

  /** The disk holds data as the given block of a device. */
  ghost predicate Holds(devices: seq<Device>, disk: seq<Block>, dev: nat, lba: nat, data: Block) {
    dev < |devices| && Place(devices, dev, lba) < |disk| && data == disk[Place(devices, dev, lba)]
  }

  /** Copies of blocks of devices other than dev and the disk are as they were. */
  ghost predicate OthersSame(cache: seq<Entry>, cache': seq<Entry>, dev: nat) {
    && |cache| == |cache'|
    && forall i :: 0 <= i < |cache| && cache'[i].valid && cache'[i].dev != dev && cache'[i].dev != 0 ==>
         cache'[i] == cache[i]
  }

  /** One slot has been given the entry e. */
  ghost predicate StoredAt(cache: seq<Entry>, cache': seq<Entry>, s: nat, e: Entry) {
    s < |cache| && cache' == cache[s := e]
  }

  ghost predicate NotCached(cache: seq<Entry>, dev: nat, lba: nat) {
    forall i :: 0 <= i < |cache| && cache[i].valid ==> cache[i].dev != dev || cache[i].lba != lba
  }

  /** Taking a slot for a block that is not cached: it is up to date, or loose. */
  lemma TakeSlot(devices: seq<Device>, disk: seq<Block>, cache: seq<Entry>, loose: Loose, s: nat, e: Entry)
    requires Coherent(devices, disk, cache, loose) && s < SLOTS && e.valid
    requires NotCached(cache, e.dev, e.lba) && Cacheable(devices, e.dev, e.lba)
    ensures Coherent(devices, disk, cache[s := e], loose + {(e.dev, e.lba)})
    ensures Holds(devices, disk, e.dev, e.lba, e.data) ==> Coherent(devices, disk, cache[s := e], loose)
    ensures Holds(devices, disk, e.dev, e.lba, e.data) ==>
              Coherent(devices, disk, cache[s := e], loose - {(e.dev, e.lba)})
  {
    hide Holds, Cacheable;
  }

  /** Bringing an entry up to date: its block is not loose any more. */
  lemma Refresh(devices: seq<Device>, disk: seq<Block>, cache: seq<Entry>, loose: Loose, s: nat, data: Block)
    requires Coherent(devices, disk, cache, loose) && s < SLOTS && cache[s].valid
    requires Holds(devices, disk, cache[s].dev, cache[s].lba, data)
    ensures Coherent(devices, disk, cache[s := cache[s].(data := data)], loose - {(cache[s].dev, cache[s].lba)})
  {
    hide Holds, Cacheable;
  }

  /** Dropping an entry, likewise. */
  lemma Drop(devices: seq<Device>, disk: seq<Block>, cache: seq<Entry>, loose: Loose, s: nat)
    requires Coherent(devices, disk, cache, loose) && s < SLOTS && cache[s].valid
    ensures Coherent(devices, disk, cache[s := cache[s].(valid := false)], loose - {(cache[s].dev, cache[s].lba)})
  {
    hide Holds, Cacheable;
  }

  /** A block that is not cached need not be loose. */
  lemma NotLoose(devices: seq<Device>, disk: seq<Block>, cache: seq<Entry>, loose: Loose, dev: nat, lba: nat)
    requires Coherent(devices, disk, cache, loose) && NotCached(cache, dev, lba)
    ensures Coherent(devices, disk, cache, loose - {(dev, lba)})
  {
    hide Holds, Cacheable;
  }

  /** The blocks of a request. */
  ghost function Blocks(dev: nat, lba: nat, count: nat): (r: Loose)
    ensures forall p :: p in r <==> p.0 == dev && lba <= p.1 < lba + count
  {
    if count == 0 then {} else Blocks(dev, lba, count - 1) + {(dev, lba + count - 1)}
  }

  /** No block of another device, loose ones aside, is one of the disk blocks of this request.  For a
      partition, the disk itself does not count: it sees the same write. */
  ghost predicate Alone(devices: seq<Device>, dev: nat, lba: nat, count: nat, loose: Loose)
    requires dev < |devices|
  {
    forall d: nat, l: nat {:trigger Cacheable(devices, d, l)} ::
      d != dev && (d == 0 ==> dev == 0) && Cacheable(devices, d, l) && (d, l) !in loose ==>
      Place(devices, d, l) < Place(devices, dev, lba) || Place(devices, dev, lba) + count <= Place(devices, d, l)
  }

  /** The disk with the given blocks written. */
  function Written(disk: seq<Block>, at: nat, blocks: seq<Block>): (r: seq<Block>)
    requires at + |blocks| <= |disk|
    ensures |r| == |disk| && forall i :: 0 <= i < |disk| ==>
              r[i] == if at <= i < at + |blocks| then blocks[i - at] else disk[i]
  {
    disk[..at] + blocks + disk[at + |blocks|..]
  }

  /** Writing the disk makes its own cached copies loose, and no others. */
  lemma WriteLoosens(devices: seq<Device>, disk: seq<Block>, cache: seq<Entry>, loose: Loose, lba: nat,
                     blocks: seq<Block>)
    requires |devices| > 0 && Coherent(devices, disk, cache, loose) && lba + |blocks| <= |disk|
    requires Alone(devices, 0, lba, |blocks|, loose)
    ensures Coherent(devices, Written(disk, lba, blocks), cache, loose + Blocks(0, lba, |blocks|))
  {
    hide Cacheable;
    forall i | 0 <= i < SLOTS && cache[i].valid && (cache[i].dev, cache[i].lba) !in loose + Blocks(0, lba, |blocks|)
      ensures Holds(devices, Written(disk, lba, blocks), cache[i].dev, cache[i].lba, cache[i].data)
    {
      var d, l := cache[i].dev, cache[i].lba;
      assert Holds(devices, disk, d, l, cache[i].data) && Cacheable(devices, d, l);
      assert d == 0 ==> !(lba <= l < lba + |blocks|);
    }
  }

  /** A write through a partition, seen from the disk, is alone when the partition's own copies are loose. */
  lemma AloneBelow(devices: seq<Device>, dev: nat, lba: nat, count: nat, loose: Loose)
    requires 0 < dev < |devices| && Alone(devices, dev, lba, count, loose)
    ensures Alone(devices, 0, devices[dev].start + lba, count, loose + Blocks(dev, lba, count))
  {
    hide Cacheable;
    var at := devices[dev].start + lba;
    forall d: nat, l: nat | d != 0 && Cacheable(devices, d, l) && (d, l) !in loose + Blocks(dev, lba, count)
      ensures d < |devices| && (Place(devices, d, l) < at || at + count <= Place(devices, d, l))
    {
      CacheableDevice(devices, d, l);
      assert d == dev ==> !(lba <= l < lba + count);
    }
  }

  lemma CacheableDevice(devices: seq<Device>, d: nat, l: nat)
    requires Cacheable(devices, d, l)
    ensures d < |devices|
  {
  }

  class BlockLayer {
    const devices: seq<Device>
    var disk: seq<Block>
    var cache: seq<Entry>
    var next: nat
    /** Requests that the disk itself refused. */
    var faults: nat

    ghost predicate Valid(loose: Loose)
      reads this
    {
      |devices| > 0 && Coherent(devices, disk, cache, loose)
    }

    /** The disk has the block, as far as the disk device knows. */
    ghost predicate Exists(dev: nat, lba: nat)
      requires dev < |devices|
      reads this
    {
      Place(devices, dev, lba) < |disk| && InBounds(devices[0], Place(devices, dev, lba), 1)
    }

    ghost predicate AllExist(dev: nat, lba: nat, count: nat)
      requires dev < |devices|
      reads this
    {
      forall l :: lba <= l < lba + count ==> Exists(dev, l)
    }

    constructor (devices: seq<Device>, disk: seq<Block>)
      requires |devices| > 0
      ensures Valid({}) && this.devices == devices && this.disk == disk
    {
      this.devices, this.disk, next, faults := devices, disk, 0, 0;
      cache := seq(SLOTS, _ => Entry(false, 0, 0, []));
    }

    /** cache_find: the slot that holds a block, or 16. */
    method CacheFind(dev: nat, lba: nat) returns (s: nat)
      requires dev < |devices| && |cache| == SLOTS
      ensures s <= SLOTS
      ensures s < SLOTS ==> cache[s].valid && cache[s].dev == dev && cache[s].lba == lba && !devices[dev].noCache
      ensures s == SLOTS ==> devices[dev].noCache || NotCached(cache, dev, lba)
    {
      s := 0;
      if devices[dev].noCache {
        return SLOTS;
      }
      while s < SLOTS
        invariant s <= SLOTS && forall i :: 0 <= i < s && cache[i].valid ==> cache[i].dev != dev || cache[i].lba != lba
      {
        if cache[s].valid && cache[s].dev == dev && cache[s].lba == lba {
          return;
        }
        s := s + 1;
      }
    }

    /** cache_store: refresh the entry of a block or take the next slot for it. */
    method CacheStore(dev: nat, lba: nat, data: Block, ghost loose: Loose)
      requires Valid(loose) && dev < |devices| && InBounds(devices[dev], lba, 1) && Holds(devices, disk, dev, lba, data)
      modifies this`cache, this`next
      ensures Valid(loose - {(dev, lba)}) && Valid(loose)
      ensures NotCached(old(cache), dev, lba) ==> forall i :: 0 <= i < SLOTS && i != old(next) % SLOTS ==>
                cache[i] == old(cache)[i]
      ensures old(next) <= next <= old(next) + 1
      ensures NotCached(old(cache), dev, lba) && next == old(next) ==> cache == old(cache)
      ensures OthersSame(old(cache), cache, dev)
      ensures !devices[dev].noCache ==>
                exists s: nat :: StoredAt(old(cache), cache, s, Entry(true, dev, lba, data))
    {
      hide Holds, InBounds;
      var s := CacheFind(dev, lba);
      if s == SLOTS {
        if devices[dev].noCache {
          NoCopies(devices, disk, cache, loose, dev, lba);
          NotLoose(devices, disk, cache, loose, dev, lba);
          return;
        }
        s := next % SLOTS;
        TakeSlot(devices, disk, cache, loose, s, Entry(true, dev, lba, data));
        cache, next := cache[s := Entry(true, dev, lba, data)], next + 1;
      } else {
        Refresh(devices, disk, cache, loose, s, data);
        cache := cache[s := cache[s].(data := data)];
      }
      assert StoredAt(old(cache), cache, s, Entry(true, dev, lba, data));
      Loosen(devices, disk, cache, loose - {(dev, lba)}, loose);
    }

    /** One request to the disk itself. */
    method DiskRead(lba: nat) returns (ok: bool, data: Block)
      modifies this`faults
      ensures faults >= old(faults) && (ok ==> lba < |disk| && data == disk[lba])
      ensures !ok ==> faults > old(faults) || lba >= |disk|
    {
      ok, data := *, [];
      if lba >= |disk| {
        ok := false;
      } else if ok {
        data := disk[lba];
      } else {
        faults := faults + 1;
      }
    }

    /** How many requests are made before a block counts as refused: a partition's own attempts are each made
        through the disk device, which repeats them. */
    ghost function Tries(dev: nat): (n: nat)
      requires 0 < |devices| && dev < |devices|
      reads this
      ensures n >= 1
    {
      if dev == 0 then devices[0].retries + 1
      else
        Arithmetic.MulMono(devices[0].retries + 1, 1, devices[dev].retries + 1);
        (devices[0].retries + 1) * (devices[dev].retries + 1)
    }

    /** The part of them that one attempt makes. */
    ghost function Once(dev: nat): (n: nat)
      requires 0 < |devices| && dev < |devices|
      reads this
    {
      if dev == 0 then 1 else devices[0].retries + 1
    }

    lemma OneMoreTry(dev: nat, attempt: nat)
      requires 0 < |devices| && dev < |devices|
      ensures Once(dev) * 0 == 0 && Once(dev) * (attempt + 1) == Once(dev) * attempt + Once(dev)
      ensures Once(dev) * (devices[dev].retries + 1) == Tries(dev)
    {
    }

    /** A driver's read_blocks for one block; a partition passes the request on to the disk device. */
    method RawRead(dev: nat, lba: nat, ghost loose: Loose) returns (ok: bool, data: Block)
      requires Valid(loose) && dev < |devices| && (dev != 0 ==> NoneOf(loose, 0))
      modifies this`cache, this`next, this`faults
      ensures Valid(loose) && faults >= old(faults) && (ok ==> Holds(devices, disk, dev, lba, data))
      ensures dev == 0 || !ok ==> cache == old(cache) && next == old(next)
      ensures !ok ==> faults >= old(faults) + Once(dev) || !Exists(dev, lba)
      ensures OnlyTwo(old(cache), cache, old(next))
      decreases Level(dev), 0
    {
      hide Coherent;
      data := [];
      CacheShape(devices, disk, cache, loose);
      if dev == 0 {
        ok, data := DiskRead(lba);
      } else if lba > MAX_LBA - devices[dev].start {
        return false, data;
      } else {
        var blocks;
        ok, blocks := BlockRead(0, devices[dev].start + lba, 1, loose);
        if ok {
          data := blocks[0];
          assert Holds(devices, disk, 0, devices[dev].start + lba + 0, blocks[0]);
        }
      }
    }

    /** raw_read_with_retry */
    method RawReadRetry(dev: nat, lba: nat, ghost loose: Loose) returns (ok: bool, data: Block)
      requires Valid(loose) && dev < |devices| && (dev != 0 ==> NoneOf(loose, 0))
      modifies this`cache, this`next, this`faults
      ensures Valid(loose) && faults >= old(faults) && (ok ==> Holds(devices, disk, dev, lba, data))
      ensures dev == 0 || !ok ==> cache == old(cache) && next == old(next)
      ensures !ok ==> faults >= old(faults) + Tries(dev) || !Exists(dev, lba)
      ensures OnlyTwo(old(cache), cache, old(next))
      decreases Level(dev), 1
    {
      hide Coherent, Holds;
      CacheShape(devices, disk, cache, loose);
      ok, data := false, [];
      for attempt := 0 to devices[dev].retries + 1
        invariant Valid(loose) && faults >= old(faults) && cache == old(cache) && next == old(next) && !ok
        invariant faults >= old(faults) + Once(dev) * attempt || !Exists(dev, lba)
      {
        OneMoreTry(dev, attempt);
        ok, data := RawRead(dev, lba, loose);
        if ok {
          return;
        }
      }
    }

    /** Read-ahead: the slot is taken before the block is read and given up again when that fails. */
    method ReadAhead(dev: nat, lba: nat, ghost loose: Loose)
      requires Valid(loose) && dev < |devices| && NoneOf(loose, dev) && (dev != 0 ==> NoneOf(loose, 0))
      requires InBounds(devices[dev], lba, 1)
      modifies this`cache, this`next, this`faults
      ensures Valid(loose) && faults >= old(faults)
      ensures dev == 0 ==> forall i :: 0 <= i < SLOTS && i != old(next) % SLOTS ==> cache[i] == old(cache)[i]
      decreases Level(dev), 2
    {
      hide Coherent, Holds, InBounds;
      CacheShape(devices, disk, cache, loose);
      var s := CacheFind(dev, lba);
      if s < SLOTS || devices[dev].noCache {
        return;
      }
      s := next % SLOTS;
      ghost var more := loose + {(dev, lba)};
      TakeSlot(devices, disk, cache, loose, s, Entry(true, dev, lba, cache[s].data));
      cache, next := cache[s := Entry(true, dev, lba, cache[s].data)], next + 1;
      ghost var taken := cache;
      var ok, data := RawReadRetry(dev, lba, more);
      CacheShape(devices, disk, cache, more);
      SlotKept(taken, cache, next, old(next), s);
      assert more - {(dev, lba)} == loose;
      if ok {
        Refresh(devices, disk, cache, more, s, data);
        cache := cache[s := cache[s].(data := data)];
      } else {
        Drop(devices, disk, cache, more, s);
        cache := cache[s := cache[s].(valid := false)];
      }
    }

    /** block_device_read: what the disk holds, whatever was cached, evicted, retried or read ahead. */
    method BlockRead(dev: nat, lba: nat, count: nat, ghost loose: Loose) returns (ok: bool, data: seq<Block>)
      requires Valid(loose) && dev < |devices| && NoneOf(loose, dev) && (dev != 0 ==> NoneOf(loose, 0))
      modifies this`cache, this`next, this`faults
      ensures Valid(loose) && faults >= old(faults)
      ensures ok ==> |data| == count && forall i :: 0 <= i < count ==> Holds(devices, disk, dev, lba + i, data[i])
      ensures ok ==> && 0 < count && lba + count - 1 <= MAX_LBA
                     && (devices[dev].blockCount != 0 ==> lba + count <= devices[dev].blockCount)
      ensures !ok ==> || faults >= old(faults) + Tries(dev) || !InBounds(devices[dev], lba, count)
                      || !AllExist(dev, lba, count)
      ensures dev == 0 && count == 1 ==>
                OnlyTwo(old(cache), cache, old(next)) && (!ok ==> cache == old(cache) && next == old(next))
      ensures count == 1 && InBounds(devices[dev], lba, 1) && !NotCached(old(cache), dev, lba) ==> ok
      decreases Level(dev), 3
    {
      hide Coherent, Holds;
      CacheShape(devices, disk, cache, loose);
      data := [];
      if !InBounds(devices[dev], lba, count) {
        return false, data;
      }
      for index := 0 to count
        invariant Valid(loose) && faults >= old(faults) && |data| == index && |cache| == SLOTS
        invariant forall i :: 0 <= i < index ==> Holds(devices, disk, dev, lba + i, data[i])
        invariant index == 0 ==> cache == old(cache) && next == old(next)
        invariant dev == 0 && count == 1 ==> OnlyTwo(old(cache), cache, old(next))
      {
        ghost var cache0, next0 := cache, next;
        var current := lba + index;
        var s := CacheFind(dev, current);
        if s < SLOTS {
          CachedHolds(devices, disk, cache, loose, s);
          data := data + [cache[s].data];
        } else {
          if devices[dev].noCache {
            NoCopies(devices, disk, cache, loose, dev, current);
          }
          var block;
          ok, block := RawReadRetry(dev, current, loose);
          if !ok {
            return;
          }
          CacheStore(dev, current, block, loose);
          CacheShape(devices, disk, cache, loose);
          data := data + [block];
        }
        ghost var cache1, next1 := cache, next;
        if index + 1 == count && current != MAX_LBA && InBounds(devices[dev], current + 1, 1) {
          ReadAhead(dev, current + 1, loose);
          CacheShape(devices, disk, cache, loose);
        }
        if dev == 0 && count == 1 {
          TwoSlots(cache0, cache1, cache, next0, next1);
        }
      }
      ok := true;
    }

    /** One request to the disk itself; a refused write changes nothing. */
    method DiskWrite(lba: nat, blocks: seq<Block>) returns (ok: bool)
      modifies this`disk, this`faults
      ensures faults >= old(faults)
      ensures ok ==> lba + |blocks| <= |old(disk)| && disk == Written(old(disk), lba, blocks)
      ensures !ok ==> disk == old(disk) && (faults > old(faults) || lba + |blocks| > |disk|)
    {
      ok := *;
      if lba + |blocks| > |disk| {
        ok := false;
      } else if ok {
        disk := Written(disk, lba, blocks);
      } else {
        faults := faults + 1;
      }
    }

    method RawWrite(dev: nat, lba: nat, blocks: seq<Block>, ghost loose: Loose) returns (ok: bool)
      requires Valid(loose) && dev < |devices| && Alone(devices, dev, lba, |blocks|, loose)
      modifies this
      ensures Valid(loose + Blocks(dev, lba, |blocks|)) && faults >= old(faults) && OthersSame(old(cache), cache, dev)
      ensures ok ==>
                Place(devices, dev, lba) + |blocks| <= |old(disk)|
                && disk == Written(old(disk), Place(devices, dev, lba), blocks)
      ensures !ok ==> disk == old(disk) && cache == old(cache) && next == old(next)
      ensures !ok ==> faults >= old(faults) + Once(dev) || !Writable(dev, lba, |blocks|)
      ensures ok && dev != 0 ==> !devices[0].readOnly
      decreases Level(dev), 0
    {
      hide Coherent, Alone;
      Loosen(devices, disk, cache, loose, loose + Blocks(dev, lba, |blocks|));
      if dev == 0 {
        ghost var disk0 := disk;
        ok := DiskWrite(lba, blocks);
        if ok {
          WriteLoosens(devices, disk0, cache, loose, lba, blocks);
        }
      } else if lba > MAX_LBA - devices[dev].start {
        return false;
      } else {
        AloneBelow(devices, dev, lba, |blocks|, loose);
        ok := BlockWrite(0, devices[dev].start + lba, blocks, loose + Blocks(dev, lba, |blocks|));
      }
    }

    /** raw_write_with_retry */
    method RawWriteRetry(dev: nat, lba: nat, blocks: seq<Block>, ghost loose: Loose) returns (ok: bool)
      requires Valid(loose) && dev < |devices| && Alone(devices, dev, lba, |blocks|, loose)
      modifies this
      ensures Valid(loose + Blocks(dev, lba, |blocks|)) && faults >= old(faults) && OthersSame(old(cache), cache, dev)
      ensures ok ==>
                Place(devices, dev, lba) + |blocks| <= |old(disk)|
                && disk == Written(old(disk), Place(devices, dev, lba), blocks)
      ensures !ok ==> disk == old(disk) && cache == old(cache) && next == old(next)
      ensures !ok ==> faults >= old(faults) + Tries(dev) || !Writable(dev, lba, |blocks|)
      ensures ok && dev != 0 ==> !devices[0].readOnly
      decreases Level(dev), 1
    {
      hide Coherent, Alone;
      ok := false;
      Loosen(devices, disk, cache, loose, loose + Blocks(dev, lba, |blocks|));
      for attempt := 0 to devices[dev].retries + 1
        invariant Valid(loose) && faults >= old(faults) && disk == old(disk) && cache == old(cache)
                  && next == old(next) && !ok
        invariant faults >= old(faults) + Once(dev) * attempt || !Writable(dev, lba, |blocks|)
      {
        OneMoreTry(dev, attempt);
        ok := RawWrite(dev, lba, blocks, loose);
        if ok {
          return;
        }
      }
    }

    /** block_device_write: all blocks or none, and the cache follows.  The blocks must not be blocks of
        another partition as well. */
    method BlockWrite(dev: nat, lba: nat, blocks: seq<Block>, ghost loose: Loose) returns (ok: bool)
      requires Valid(loose) && dev < |devices| && Alone(devices, dev, lba, |blocks|, loose)
      modifies this
      ensures Valid(loose) && faults >= old(faults) && OthersSame(old(cache), cache, dev)
      ensures ok ==>
                Place(devices, dev, lba) + |blocks| <= |old(disk)|
                && disk == Written(old(disk), Place(devices, dev, lba), blocks)
      ensures !ok ==> disk == old(disk) && cache == old(cache) && next == old(next)
      ensures ok ==> && 0 < |blocks| && lba + |blocks| - 1 <= MAX_LBA
                     && (devices[dev].blockCount != 0 ==> lba + |blocks| <= devices[dev].blockCount)
      ensures ok ==> !devices[dev].readOnly && !devices[0].readOnly
      ensures !ok ==> || faults >= old(faults) + Tries(dev) || !InBounds(devices[dev], lba, |blocks|)
                      || devices[dev].readOnly || !Writable(dev, lba, |blocks|)
      decreases Level(dev), 2
    {
      hide Coherent, Alone;
      hide Holds, InBounds;
      var count := |blocks|;
      InBoundsIs(devices[dev], lba, count);
      if !InBounds(devices[dev], lba, count) || devices[dev].readOnly {
        return false;
      }
      ok := RawWriteRetry(dev, lba, blocks, loose);
      if !ok {
        return;
      }
      for index := 0 to count
        invariant Valid(loose + Blocks(dev, lba + index, count - index)) && faults >= old(faults)
        invariant disk == Written(old(disk), Place(devices, dev, lba), blocks) && OthersSame(old(cache), cache, dev)
      {
        ghost var now := loose + Blocks(dev, lba + index, count - index);
        BoundsOne(devices[dev], lba, count, index);
        WrittenHolds(devices, old(disk), dev, lba, blocks, index);
        CacheStore(dev, lba + index, blocks[index], now);
        Loosen(devices, disk, cache, now - {(dev, lba + index)},
               loose + Blocks(dev, lba + index + 1, count - index - 1));
      }
      assert loose + Blocks(dev, lba + count, 0) == loose;
    }

    /** The disk device accepts writes to these blocks. */
    ghost predicate Writable(dev: nat, lba: nat, count: nat)
      requires dev < |devices|
      reads this
    {
      && Place(devices, dev, lba) + count <= |disk|
      && (dev != 0 ==> InBounds(devices[0], Place(devices, dev, lba), count) && !devices[0].readOnly)
    }

    /** cache_invalidate_device */
    method InvalidateDevice(dev: nat)
      requires Valid({})
      modifies this`cache
      ensures Valid({})
      ensures forall i :: 0 <= i < SLOTS && cache[i].valid ==> cache[i].dev != dev && cache[i] == old(cache)[i]
      ensures forall i :: 0 <= i < SLOTS && old(cache)[i].dev != dev ==> cache[i] == old(cache)[i]
    {
      for i := 0 to SLOTS
        invariant |cache| == SLOTS && forall j :: 0 <= j < SLOTS ==> cache[j].dev == old(cache)[j].dev
        invariant forall j :: 0 <= j < SLOTS && old(cache)[j].dev != dev ==> cache[j] == old(cache)[j]
        invariant Valid({}) && forall j :: 0 <= j < i && cache[j].valid ==> cache[j].dev != dev
        invariant forall j :: 0 <= j < SLOTS && cache[j].valid ==> cache[j] == old(cache)[j]
      {
        if cache[i].valid && cache[i].dev == dev {
          cache := cache[i := cache[i].(valid := false)];
        }
      }
    }

    /** block_device_flush_barrier: nothing of the device or of its parent stays cached. */
    method FlushBarrier(dev: nat) returns (ok: bool)
      requires Valid({}) && dev < |devices|
      modifies this`cache
      ensures Valid({}) && forall i :: 0 <= i < SLOTS && cache[i].valid ==> cache[i].dev != dev && cache[i].dev != 0
      ensures forall i :: 0 <= i < SLOTS && old(cache)[i].dev != dev && old(cache)[i].dev != 0 ==>
                cache[i] == old(cache)[i]
    {
      InvalidateDevice(dev);
      if dev != 0 {
        InvalidateDevice(0);
      }
      ok := *;
    }
  }

  /** block_device_register_partition: what it demands of a new partition of the disk. */
  predicate Registrable(disk: Device, start: nat, blockCount: nat) {
    blockCount != 0 && (disk.blockCount != 0 ==> start < disk.blockCount && blockCount <= disk.blockCount - start)
  }

  /** It demands exactly that the partition is not empty and ends inside the disk. */
  lemma RegistrableIff(disk: Device, start: nat, blockCount: nat)
    ensures Registrable(disk, start, blockCount) <==>
            0 < blockCount && (disk.blockCount == 0 || start + blockCount <= disk.blockCount)
  {
  }

  /** A registered partition's blocks are blocks that the disk device accepts. */
  lemma PartitionInside(disk: Device, part: Device, lba: nat, count: nat)
    requires Registrable(disk, part.start, part.blockCount) && InBounds(part, lba, count)
    requires part.start + part.blockCount - 1 <= MAX_LBA
    ensures InBounds(disk, part.start + lba, count)
  {
  }

  ghost predicate DisjointPartitions(devices: seq<Device>) {
    && (forall i :: 0 < i < |devices| ==> devices[i].blockCount != 0)
    && (forall i, j :: 0 < i < j < |devices| ==>
          || devices[i].start + devices[i].blockCount <= devices[j].start
          || devices[j].start + devices[j].blockCount <= devices[i].start)
  }

  /** When partitions do not overlap, every request to a partition is alone. */
  lemma PartitionWriteIsAlone(devices: seq<Device>, dev: nat, lba: nat, count: nat)
    requires DisjointPartitions(devices) && 0 < dev < |devices| && InBounds(devices[dev], lba, count)
    ensures Alone(devices, dev, lba, count, {})
  {
    forall d: nat, l: nat | d != dev && d != 0 && Cacheable(devices, d, l)
      ensures Place(devices, d, l) < Place(devices, dev, lba)
              || Place(devices, dev, lba) + count <= Place(devices, d, l)
    {
      assert d < dev || dev < d;
    }
  }

  function Level(dev: nat): nat {
    if dev == 0 then 0 else 1
  }

  /** No block of the device is loose. */
  ghost predicate NoneOf(loose: Loose, dev: nat) {
    forall p :: p in loose ==> p.0 != dev
  }

  /** At most the slot at n and the one after it differ. */
  ghost predicate OnlyTwo(cache: seq<Entry>, cache': seq<Entry>, n: nat) {
    |cache| == |cache'| == SLOTS && forall i :: 0 <= i < SLOTS && i != n % SLOTS && i != (n + 1) % SLOTS ==>
        cache'[i] == cache[i]
  }

  lemma CacheShape(devices: seq<Device>, disk: seq<Block>, cache: seq<Entry>, loose: Loose)
    requires Coherent(devices, disk, cache, loose)
    ensures |cache| == SLOTS
  {
  }

  lemma CachedHolds(devices: seq<Device>, disk: seq<Block>, cache: seq<Entry>, loose: Loose, s: nat)
    requires Coherent(devices, disk, cache, loose) && s < SLOTS && cache[s].valid && NoneOf(loose, cache[s].dev)
    ensures Holds(devices, disk, cache[s].dev, cache[s].lba, cache[s].data)
  {
  }

  /** The slot taken for read-ahead is not taken again while the block is being read. */
  lemma SlotKept(cache: seq<Entry>, cache': seq<Entry>, next: nat, n: nat, s: nat)
    requires OnlyTwo(cache, cache', n + 1) && s == n % SLOTS
    ensures cache'[s] == cache[s]
  {
  }

  lemma TwoSlots(a: seq<Entry>, b: seq<Entry>, c: seq<Entry>, n: nat, n1: nat)
    requires |a| == |b| == |c| == SLOTS && n <= n1 <= n + 1
    requires forall i :: 0 <= i < SLOTS && i != n % SLOTS ==> b[i] == a[i]
    requires n1 == n ==> b == a
    requires forall i :: 0 <= i < SLOTS && i != n1 % SLOTS ==> c[i] == b[i]
    ensures OnlyTwo(a, c, n)
  {
  }

  lemma NoCopies(devices: seq<Device>, disk: seq<Block>, cache: seq<Entry>, loose: Loose, dev: nat, lba: nat)
    requires Coherent(devices, disk, cache, loose) && dev < |devices| && devices[dev].noCache
    ensures NotCached(cache, dev, lba)
  {
  }

  lemma Loosen(devices: seq<Device>, disk: seq<Block>, cache: seq<Entry>, a: Loose, b: Loose)
    requires Coherent(devices, disk, cache, a) && a <= b
    ensures Coherent(devices, disk, cache, b)
  {
    hide Holds, Cacheable;
  }

  // ----- writes to blocks that other devices have as well

  /** The blocks of other devices that are among the disk blocks of a request. */
  ghost function Shadows(devices: seq<Device>, dev: nat, lba: nat, count: nat): (r: Loose)
    requires dev < |devices|
    ensures forall p :: p in r <==>
              && p.0 < |devices| && p.0 != dev && (p.0 == 0 ==> dev == 0)
              && Place(devices, dev, lba) <= Place(devices, p.0, p.1) < Place(devices, dev, lba) + count
  {
    ShadowsBelow(devices, dev, lba, count, |devices|)
  }

  ghost function ShadowsBelow(devices: seq<Device>, dev: nat, lba: nat, count: nat, n: nat): (r: Loose)
    requires dev < |devices| && n <= |devices|
    ensures forall p :: p in r <==>
              && p.0 < n && p.0 != dev && (p.0 == 0 ==> dev == 0)
              && Place(devices, dev, lba) <= Place(devices, p.0, p.1) < Place(devices, dev, lba) + count
  {
    if n == 0 then {}
    else
      var rest := ShadowsBelow(devices, dev, lba, count, n - 1);
      if n - 1 == dev || (n == 1 && dev != 0) then rest
      else
        var start, at := Place(devices, n - 1, 0), Place(devices, dev, lba);
        var low, high := if at < start then 0 else at - start, if at + count < start then 0 else at + count - start;
        rest + Blocks(n - 1, low, high - low)
  }

  lemma ShadowsAlone(devices: seq<Device>, dev: nat, lba: nat, count: nat)
    requires dev < |devices|
    ensures Alone(devices, dev, lba, count, Shadows(devices, dev, lba, count))
  {
    hide Shadows;
    forall d: nat, l: nat | d != dev && (d == 0 ==> dev == 0) && Cacheable(devices, d, l)
        && (d, l) !in Shadows(devices, dev, lba, count)
      ensures d < |devices| &&
              (Place(devices, d, l) < Place(devices, dev, lba)
               || Place(devices, dev, lba) + count <= Place(devices, d, l))
    {
      CacheableDevice(devices, d, l);
    }
  }

  /** A write to any blocks at all, from a state in which every copy is current.  Afterwards the copies of
      the device written and of the disk are current; the copy of a block of another partition is out of
      date if and only if the write changed that block. */
  method WriteShared(x: BlockLayer, dev: nat, lba: nat, blocks: seq<Block>) returns (ok: bool)
    requires x.Valid({}) && dev < |x.devices|
    modifies x
    ensures x.faults >= old(x.faults) && |x.cache| == SLOTS
    ensures ok ==> Place(x.devices, dev, lba) + |blocks| <= |old(x.disk)|
                   && x.disk == Written(old(x.disk), Place(x.devices, dev, lba), blocks)
    ensures !ok ==> x.disk == old(x.disk) && x.cache == old(x.cache)
    ensures ok ==> forall i :: 0 <= i < SLOTS && x.cache[i].valid ==>
              CopyAfter(x.devices, old(x.disk), x.disk, x.cache[i], dev)
  {
    ghost var devices, disk0, cache0, shadows := x.devices, x.disk, x.cache, Shadows(x.devices, dev, lba, |blocks|);
    ShadowsAlone(devices, dev, lba, |blocks|);
    Loosen(devices, disk0, cache0, {}, shadows);
    ok := x.BlockWrite(dev, lba, blocks, shadows);
    if ok {
      forall i | 0 <= i < SLOTS && x.cache[i].valid
        ensures CopyAfter(devices, disk0, x.disk, x.cache[i], dev)
      {
        Staleness(devices, disk0, cache0, x.disk, x.cache, dev, lba, blocks, i);
      }
    }
  }

  /** A copy after a write through dev that changed the disk from disk0 to disk: current if it is of that
      device, of the disk or of an unchanged block, and else what the block was before. */
  ghost predicate CopyAfter(devices: seq<Device>, disk0: seq<Block>, disk: seq<Block>, e: Entry, dev: nat) {
    && e.dev < |devices| && Place(devices, e.dev, e.lba) < |disk| == |disk0|
    && (Holds(devices, disk, e.dev, e.lba, e.data) <==>
        e.dev == dev || e.dev == 0 || disk[Place(devices, e.dev, e.lba)] == disk0[Place(devices, e.dev, e.lba)])
    && (e.dev != dev && e.dev != 0 ==> e.data == disk0[Place(devices, e.dev, e.lba)])
  }

  lemma Staleness(devices: seq<Device>, disk0: seq<Block>, cache0: seq<Entry>, disk: seq<Block>, cache: seq<Entry>,
                  dev: nat, lba: nat, blocks: seq<Block>, i: nat)
    requires Coherent(devices, disk0, cache0, {}) && dev < |devices|
    requires Coherent(devices, disk, cache, Shadows(devices, dev, lba, |blocks|)) && OthersSame(cache0, cache, dev)
    requires Place(devices, dev, lba) + |blocks| <= |disk0| && disk == Written(disk0, Place(devices, dev, lba), blocks)
    requires i < SLOTS && cache[i].valid
    ensures CopyAfter(devices, disk0, disk, cache[i], dev)
  {
    hide Shadows, Cacheable;
    var d, l := cache[i].dev, cache[i].lba;
    if d != dev && d != 0 {
      assert cache[i] == cache0[i];
      assert Holds(devices, disk0, d, l, cache[i].data);
    } else {
      assert (d, l) !in Shadows(devices, dev, lba, |blocks|);
    }
  }

  /** A run: a block that is cached for a partition is written through the disk, and the copy that the next
      read through the partition returns is the old block. */
  method StaleRead(before: Block, after: Block) returns (ok: bool, x: BlockLayer, s: nat)
    requires before != after
    ensures ok ==> x.disk == [after] && s < |x.cache| && x.cache[s] == Entry(true, 1, 0, before)
  {
    x := new BlockLayer([Device(0, 1, false, false, 0), Device(0, 1, false, false, 0)], [before]);
    s := SLOTS;
    var data;
    ok, data := x.BlockRead(1, 0, 1, {});
    if ok {
      ok := WriteShared(x, 0, 0, [after]);
    }
    if ok {
      s := x.CacheFind(1, 0);
      ok := s < SLOTS;
    }
  }
}
