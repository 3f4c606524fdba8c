/** The physical frame allocator: frames carved from the firmware's memory map, and a short list of
    frames to hand out again. */
module Frames {
  import opened Counting

  const CONVENTIONAL: nat := 7
  const PAGE_SIZE: nat := 4096
  const LOW_MEMORY_RESERVE: nat := 0x10_0000
  const CAPACITY: nat := 256

  /** A descriptor of the memory map. */
  datatype Region = Region(kind: nat, start: nat, pages: nat)

  function End(r: Region): nat {
    r.start + PAGE_SIZE * r.pages
  }

  /** Page-aligned descriptors that fit the address space and do not overlap. */
  ghost predicate ValidMap(map': seq<Region>) {
    && (forall i :: 0 <= i < |map'| ==> map'[i].start % PAGE_SIZE == 0 && End(map'[i]) < 0x1_0000_0000_0000_0000)
    && (forall i, j :: 0 <= i < j < |map'| ==> End(map'[i]) <= map'[j].start || End(map'[j]) <= map'[i].start)
  }

  /** A whole page of conventional memory, at or above 1 MiB. */
  ghost predicate InRegion(r: Region, f: nat) {
    r.kind == CONVENTIONAL && f % PAGE_SIZE == 0 && LOW_MEMORY_RESERVE <= f && r.start <= f && f + PAGE_SIZE <= End(r)
  }

  ghost predicate Usable(map': seq<Region>, f: nat) {
    exists i :: 0 <= i < |map'| && InRegion(map'[i], f)
  }

  /** Frames that have not been carved yet: the rest of the region in use and the regions from index on. */
  ghost predicate AheadOf(map': seq<Region>, index: nat, next: nat, remaining: nat, f: nat) {
    InRest(next, remaining, f) || InLater(map', index, f)
  }

  ghost predicate InRest(next: nat, remaining: nat, f: nat) {
    f % PAGE_SIZE == 0 && next <= f < next + PAGE_SIZE * remaining
  }

  ghost predicate InLater(map': seq<Region>, index: nat, f: nat) {
    exists i :: index <= i < |map'| && InRegion(map'[i], f)
  }

  /** What is left of the region in use lies in the region that the index has just passed. */
  ghost predicate Within(map': seq<Region>, index: nat, next: nat, remaining: nat) {
    && 0 < index <= |map'|
    && var r := map'[index - 1];
       && next % PAGE_SIZE == 0 && r.kind == CONVENTIONAL && r.start <= next && LOW_MEMORY_RESERVE <= next
       && next + PAGE_SIZE * remaining == End(r)
  }

  /** A descriptor that is passed over has no usable page. */
  lemma PassedOver(map': seq<Region>, index: nat, f: nat)
    requires index < |map'|
    requires var r := map'[index]; r.kind != CONVENTIONAL || r.pages == 0 || End(r) <= LOW_MEMORY_RESERVE
    ensures InLater(map', index, f) <==> InLater(map', index + 1, f)
  {
    assert !InRegion(map'[index], f);
    if InLater(map', index, f) {
      var i :| index <= i < |map'| && InRegion(map'[i], f);
      assert i != index;
    }
  }

  /** A descriptor that is opened becomes the rest. */
  lemma Opened(map': seq<Region>, index: nat, next: nat, remaining: nat, f: nat)
    requires index < |map'| && ValidMap(map')
    requires var r := map'[index];
             && r.kind == CONVENTIONAL && next == (if r.start < LOW_MEMORY_RESERVE then LOW_MEMORY_RESERVE else r.start)
             && next + PAGE_SIZE * remaining == End(r)
    ensures InLater(map', index, f) <==> AheadOf(map', index + 1, next, remaining, f)
  {
    OpenedRest(map'[index], next, remaining, f);
    if InLater(map', index, f) {
      var i :| index <= i < |map'| && InRegion(map'[i], f);
    }
  }

  lemma OpenedRest(r: Region, next: nat, remaining: nat, f: nat)
    requires r.kind == CONVENTIONAL && r.start % PAGE_SIZE == 0
    requires next == (if r.start < LOW_MEMORY_RESERVE then LOW_MEMORY_RESERVE else r.start)
    requires next + PAGE_SIZE * remaining == End(r)
    ensures InRegion(r, f) <==> InRest(next, remaining, f)
  {
    if InRest(next, remaining, f) {
      assert f / PAGE_SIZE < End(r) / PAGE_SIZE;
    }
  }

  /** The frame that is carved next is usable, is ahead, and is the only one that stops being ahead. */
  lemma Carve(map': seq<Region>, index: nat, next: nat, remaining: nat, f: nat)
    requires ValidMap(map') && Within(map', index, next, remaining) && remaining > 0
    ensures Usable(map', next) && AheadOf(map', index, next, remaining, next) && next > 0
    ensures Within(map', index, next + PAGE_SIZE, remaining - 1)
    ensures AheadOf(map', index, next + PAGE_SIZE, remaining - 1, f) <==>
              f != next && AheadOf(map', index, next, remaining, f)
  {
    var r := map'[index - 1];
    assert InRegion(r, next);
    assert !InLater(map', index, next);
  }

  /** Live, lost and listed frames are different frames, and the counter counts the first two. */
  ghost predicate Books(live: set<nat>, lost: set<nat>, list: seq<nat>, allocatedPages: nat) {
    && |list| <= CAPACITY && Distinct(list)
    && live !! lost && live !! Elements(list) && lost !! Elements(list)
    && allocatedPages == |live| + |lost|
  }

  ghost function All(live: set<nat>, lost: set<nat>, list: seq<nat>): set<nat> {
    live + lost + Elements(list)
  }

  /** Carved frames are exactly the usable ones that are not ahead any more. */
  ghost predicate Behind(map': seq<Region>, index: nat, next: nat, remaining: nat, carved: set<nat>) {
    forall f: nat :: f in carved <==> Usable(map', f) && !AheadOf(map', index, next, remaining, f)
  }

  lemma AllCarved(map': seq<Region>, index: nat, next: nat, live: set<nat>, lost: set<nat>)
    requires Behind(map', index, next, 0, All(live, lost, [])) && forall f :: !AheadOf(map', index, next, 0, f)
    ensures forall f: nat :: Usable(map', f) ==> f in live || f in lost
  {
    hide AheadOf, Usable;
    assert Elements<nat>([]) == {};
  }

  /** Accounting: the allocated pages and the listed ones are all the frames ever carved. */
  lemma CarvedCount(live: set<nat>, lost: set<nat>, list: seq<nat>, allocatedPages: nat)
    requires Books(live, lost, list, allocatedPages)
    ensures allocatedPages + |list| == |All(live, lost, list)|
  {
    DistinctSize(list);
    assert |live + lost| == |live| + |lost|;
  }

  lemma Recycle(live: set<nat>, lost: set<nat>, list: seq<nat>, allocatedPages: nat)
    requires Books(live, lost, list, allocatedPages) && |list| > 0
    ensures var f, rest := list[|list| - 1], list[..|list| - 1];
            && f !in live && f in All(live, lost, list) && Books(live + {f}, lost, rest, allocatedPages + 1)
            && All(live + {f}, lost, rest) == All(live, lost, list)
  {
    TakeLast(list, list[..|list| - 1], list[|list| - 1]);
  }

  lemma Fresh(live: set<nat>, lost: set<nat>, list: seq<nat>, allocatedPages: nat, f: nat)
    requires Books(live, lost, list, allocatedPages) && f !in All(live, lost, list)
    ensures Books(live + {f}, lost, list, allocatedPages + 1) && f !in live
    ensures All(live + {f}, lost, list) == All(live, lost, list) + {f}
  {
  }

  lemma Return(live: set<nat>, lost: set<nat>, list: seq<nat>, allocatedPages: nat, f: nat)
    requires Books(live, lost, list, allocatedPages) && f in live
    ensures f in All(live, lost, list) && allocatedPages > 0
    ensures |list| < CAPACITY ==>
              Books(live - {f}, lost, list + [f], allocatedPages - 1)
              && All(live - {f}, lost, list + [f]) == All(live, lost, list)
    ensures Books(live - {f}, lost + {f}, list, allocatedPages)
            && All(live - {f}, lost + {f}, list) == All(live, lost, list)
  {
    TakeLast(list + [f], list, f);
    assert |live - {f}| == |live| - 1;
  }

  lemma BehindMore(map': seq<Region>, index: nat, next: nat, remaining: nat, carved: set<nat>)
    requires ValidMap(map') && Within(map', index, next, remaining) && remaining > 0
             && Behind(map', index, next, remaining, carved)
    ensures Behind(map', index, next + PAGE_SIZE, remaining - 1, carved + {next}) && next !in carved && next > 0
    ensures Usable(map', next) && Within(map', index, next + PAGE_SIZE, remaining - 1)
  {
    hide AheadOf, Usable, ValidMap, Within;
    Carve(map', index, next, remaining, next);
    forall f: nat
      ensures f in carved + {next} <==> Usable(map', f) && !AheadOf(map', index, next + PAGE_SIZE, remaining - 1, f)
    {
      Carve(map', index, next, remaining, f);
    }
  }

  class Allocator {
    const memoryMap: seq<Region>
    var descriptorIndex: nat
    var nextFrame: nat
    var remainingPages: nat
    var allocatedPages: nat
    /** free_list[..free_count] */
    var freeList: seq<nat>
    /** Frames handed out and not given back. */
    ghost var live: set<nat>
    /** Frames given back while the list was full. */
    ghost var lost: set<nat>
    /** Every frame that was ever passed to frame_free. */
    ghost var freed: seq<nat>

    ghost predicate Ahead(f: nat)
      reads this
    {
      AheadOf(memoryMap, descriptorIndex, nextFrame, remainingPages, f)
    }

    /** Frames carved from regions so far. */
    ghost function Carved(): set<nat>
      reads this
    {
      All(live, lost, freeList)
    }

    /** No frame is left: nothing is listed, and every usable frame is in use or lost. */
    ghost predicate Exhausted()
      reads this
    {
      freeList == [] && forall f: nat :: Usable(memoryMap, f) ==> f in live || f in lost
    }

    ghost predicate Valid()
      reads this
    {
      && ValidMap(memoryMap) && descriptorIndex <= |memoryMap|
      && Books(live, lost, freeList, allocatedPages)
      && Behind(memoryMap, descriptorIndex, nextFrame, remainingPages, Carved())
      && (remainingPages > 0 ==> Within(memoryMap, descriptorIndex, nextFrame, remainingPages))
    }

    constructor (memoryMap: seq<Region>)
      requires ValidMap(memoryMap)
      ensures Valid() && this.memoryMap == memoryMap && live == {} && lost == {} && freed == [] && allocatedPages == 0
    {
      this.memoryMap := memoryMap;
      descriptorIndex, nextFrame, remainingPages, allocatedPages, freeList := 0, 0, 0, 0, [];
      live, lost, freed := {}, {}, [];
      new;
      AllAhead(memoryMap);
    }

    /** Accounting: the allocated pages and the listed frames are as many as the frames carved from the
        regions so far, and these are exactly the usable frames that are not ahead. */
    lemma Accounting()
      requires Valid()
      ensures allocatedPages + |freeList| == |Carved()|
      ensures forall f: nat :: f in Carved() <==> Usable(memoryMap, f) && !Ahead(f)
    {
      hide AheadOf, Usable, ValidMap, Within;
      CarvedCount(live, lost, freeList, allocatedPages);
    }

    /** select_next_region: the next descriptor with a usable page. */
    method SelectNextRegion() returns (found: bool)
      requires Valid() && remainingPages == 0
      modifies this`descriptorIndex, this`nextFrame, this`remainingPages
      ensures Valid() && Carved() == old(Carved()) && found == (remainingPages > 0)
              && (!found ==> descriptorIndex == |memoryMap|)
      ensures forall f :: Ahead(f) <==> old(Ahead(f))
    {
      hide AheadOf, Usable, Books, All, ValidMap;
      SameSelf(memoryMap, descriptorIndex, nextFrame, remainingPages);
      while descriptorIndex < |memoryMap|
        invariant ValidMap(memoryMap) && descriptorIndex <= |memoryMap| && remainingPages == 0
                  && nextFrame == old(nextFrame)
        invariant SameAhead(memoryMap, old(descriptorIndex), old(nextFrame), 0, descriptorIndex, nextFrame, 0)
        decreases |memoryMap| - descriptorIndex
      {
        var descriptor := memoryMap[descriptorIndex];
        ghost var at := descriptorIndex;
        descriptorIndex := descriptorIndex + 1;
        if descriptor.kind == CONVENTIONAL && descriptor.pages != 0 && End(descriptor) > LOW_MEMORY_RESERVE {
          nextFrame := if descriptor.start < LOW_MEMORY_RESERVE then LOW_MEMORY_RESERVE else descriptor.start;
          remainingPages := (End(descriptor) - nextFrame) / PAGE_SIZE;
          OpenNext(memoryMap, old(descriptorIndex), old(nextFrame), at, nextFrame, remainingPages);
          assert forall f :: Ahead(f) <==> old(Ahead(f));
          return true;
        }
        PassNext(memoryMap, old(descriptorIndex), nextFrame, at);
      }
      assert forall f :: Ahead(f) <==> old(Ahead(f));
      return false;
    }

    /** frame_allocate: a recycled frame, else the next one of the memory map, else 0.  Never a frame that
        is in use. */
    method Allocate() returns (frame: nat)
      requires Valid()
      modifies this
      ensures Valid() && lost == old(lost) && freed == old(freed)
      ensures frame == 0 ==> live == old(live) && freeList == old(freeList) == [] && forall f :: !old(Ahead(f))
      ensures frame == 0 ==> Exhausted()
      ensures frame != 0 ==> frame !in old(live) && live == old(live) + {frame} && Usable(memoryMap, frame)
      ensures frame != 0 ==> allocatedPages == old(allocatedPages) + 1
      ensures |old(freeList)| > 0 ==>
                frame == old(freeList)[|old(freeList)| - 1] && freeList == old(freeList)[..|old(freeList)| - 1]
                && Carved() == old(Carved())
      ensures |old(freeList)| == 0 && frame != 0 ==>
                freeList == [] && frame !in old(Carved()) && Carved() == old(Carved()) + {frame}
    {
      hide AheadOf, Usable, ValidMap, Books, All, Behind, Within;
      if |freeList| > 0 {
        frame := TakeListed();
        return;
      }
      if remainingPages == 0 {
        var found := SelectNextRegion();
        if !found {
          NothingAhead(memoryMap, descriptorIndex, nextFrame);
          AllCarved(memoryMap, descriptorIndex, nextFrame, live, lost);
          return 0;
        }
      }
      frame := CarveNext();
    }

    /** The frame last put on the list. */
    method TakeListed() returns (frame: nat)
      requires Valid() && |freeList| > 0
      modifies this`freeList, this`allocatedPages, this`live
      ensures Valid() && frame != 0 && frame !in old(live) && live == old(live) + {frame} && Usable(memoryMap, frame)
      ensures allocatedPages == old(allocatedPages) + 1 && Carved() == old(Carved())
      ensures frame == old(freeList)[|old(freeList)| - 1] && freeList == old(freeList)[..|old(freeList)| - 1]
    {
      hide AheadOf, Usable, ValidMap, Books, All, Behind, Within;
      frame := freeList[|freeList| - 1];
      Recycle(live, lost, freeList, allocatedPages);
      CarvedUsable(memoryMap, descriptorIndex, nextFrame, remainingPages, Carved(), frame);
      freeList, allocatedPages := freeList[..|freeList| - 1], allocatedPages + 1;
      live := live + {frame};
    }

    /** The next frame of the region in use. */
    method CarveNext() returns (frame: nat)
      requires Valid() && remainingPages > 0
      modifies this`nextFrame, this`remainingPages, this`allocatedPages, this`live
      ensures Valid() && frame != 0 && frame !in old(live) && live == old(live) + {frame} && Usable(memoryMap, frame)
      ensures allocatedPages == old(allocatedPages) + 1 && frame !in old(Carved())
              && Carved() == old(Carved()) + {frame}
    {
      hide AheadOf, Usable, ValidMap, Books, All, Behind, Within;
      frame := nextFrame;
      BehindMore(memoryMap, descriptorIndex, nextFrame, remainingPages, Carved());
      Fresh(live, lost, freeList, allocatedPages, frame);
      nextFrame, remainingPages, allocatedPages := nextFrame + PAGE_SIZE, remainingPages - 1, allocatedPages + 1;
      live := live + {frame};
    }

    /** Frames in use are pages of usable memory. */
    lemma LiveIsUsable(f: nat)
      requires Valid() && f in live
      ensures Usable(memoryMap, f) && IsPage(f)
    {
      hide AheadOf, Usable, ValidMap, Books, Within;
      CarvedUsable(memoryMap, descriptorIndex, nextFrame, remainingPages, Carved(), f);
    }

    /** frame_free: what is not the address of a page is ignored.  A frame in use goes on the list; when
        the list is full it is lost and still counts as allocated. */
    method Free(frame: nat)
      requires Valid() && (IsPage(frame) ==> frame in live)
      modifies this`freeList, this`allocatedPages, this`live, this`lost, this`freed
      ensures Valid() && live == old(live) - {frame} && freed == old(freed) + [frame] && Carved() == old(Carved())
      ensures if IsPage(frame) && |old(freeList)| < CAPACITY then
                freeList == old(freeList) + [frame] && allocatedPages == old(allocatedPages) - 1 && lost == old(lost)
              else
                && freeList == old(freeList) && allocatedPages == old(allocatedPages)
                && lost == old(lost) + (if IsPage(frame) then {frame} else {})
    {
      hide AheadOf, Usable, ValidMap, Books, All, Behind, Within;
      ListBound(live, lost, freeList, allocatedPages);
      if frame == 0 || frame % PAGE_SIZE != 0 {
        LivePages(memoryMap, descriptorIndex, nextFrame, remainingPages, live, lost, freeList);
        assert live - {frame} == live && lost + {} == lost;
        freed := freed + [frame];
        return;
      }
      PutBack(frame);
    }

    method PutBack(frame: nat)
      requires Valid() && frame in live
      modifies this`freeList, this`allocatedPages, this`live, this`lost, this`freed
      ensures Valid() && live == old(live) - {frame} && freed == old(freed) + [frame] && Carved() == old(Carved())
      ensures if |old(freeList)| < CAPACITY then
                freeList == old(freeList) + [frame] && allocatedPages == old(allocatedPages) - 1 && lost == old(lost)
              else
                freeList == old(freeList) && allocatedPages == old(allocatedPages) && lost == old(lost) + {frame}
    {
      hide AheadOf, Usable, ValidMap, Books, All, Behind, Within;
      Return(live, lost, freeList, allocatedPages, frame);
      freed := freed + [frame];
      live := live - {frame};
      if |freeList| < CAPACITY {
        freeList := freeList + [frame];
        allocatedPages := allocatedPages - 1;
      } else {
        lost := lost + {frame};
      }
    }
  }

  predicate IsPage(f: nat) {
    f != 0 && f % PAGE_SIZE == 0
  }

  lemma LivePages(map': seq<Region>, index: nat, next: nat, remaining: nat, live: set<nat>, lost: set<nat>,
                  list: seq<nat>)
    requires Behind(map', index, next, remaining, All(live, lost, list))
    ensures forall f :: f in live ==> IsPage(f)
  {
    forall f | f in live
      ensures IsPage(f)
    {
      CarvedUsable(map', index, next, remaining, All(live, lost, list), f);
    }
  }

  lemma TakeLast(s: seq<nat>, rest: seq<nat>, f: nat)
    requires s == rest + [f]
    ensures Elements(s) == Elements(rest) + {f}
    ensures Distinct(s) <==> Distinct(rest) && f !in Elements(rest)
  {
    if Distinct(rest) && f !in Elements(rest) {
      forall i, k | 0 <= i < k < |s|
        ensures s[i] != s[k]
      {
      }
    }
    if Distinct(s) {
      forall i, k | 0 <= i < k < |rest|
        ensures rest[i] != rest[k]
      {
        assert s[i] == rest[i] && s[k] == rest[k];
      }
      assert s[|rest|] == f && forall i :: 0 <= i < |rest| ==> s[i] == rest[i];
    }
  }

  lemma CarvedUsable(map': seq<Region>, index: nat, next: nat, remaining: nat, carved: set<nat>, f: nat)
    requires Behind(map', index, next, remaining, carved) && f in carved
    ensures Usable(map', f) && f >= LOW_MEMORY_RESERVE && f % PAGE_SIZE == 0
  {
  }

  lemma ListBound(live: set<nat>, lost: set<nat>, list: seq<nat>, allocatedPages: nat)
    requires Books(live, lost, list, allocatedPages)
    ensures |list| <= CAPACITY
  {
  }

  lemma AllAhead(map': seq<Region>)
    ensures Behind(map', 0, 0, 0, {})
  {
    forall f: nat | Usable(map', f)
      ensures AheadOf(map', 0, 0, 0, f)
    {
    }
  }

  lemma NothingAhead(map': seq<Region>, index: nat, next: nat)
    requires index == |map'|
    ensures forall f :: !AheadOf(map', index, next, 0, f)
  {
  }

  /** The same frames are ahead in two states. */
  ghost predicate SameAhead(map': seq<Region>, i: nat, n: nat, r: nat, i': nat, n': nat, r': nat) {
    forall f :: AheadOf(map', i, n, r, f) <==> AheadOf(map', i', n', r', f)
  }

  lemma SameSelf(map': seq<Region>, i: nat, n: nat, r: nat)
    ensures SameAhead(map', i, n, r, i, n, r)
  {
  }

  lemma PassNext(map': seq<Region>, i: nat, n: nat, index: nat)
    requires index < |map'| && SameAhead(map', i, n, 0, index, n, 0)
    requires var r := map'[index]; r.kind != CONVENTIONAL || r.pages == 0 || End(r) <= LOW_MEMORY_RESERVE
    ensures SameAhead(map', i, n, 0, index + 1, n, 0)
  {
    hide InRegion, End, InLater, InRest;
    NothingLeft(n);
    forall f: nat
      ensures AheadOf(map', i, n, 0, f) <==> AheadOf(map', index + 1, n, 0, f)
    {
      assert AheadOf(map', i, n, 0, f) <==> AheadOf(map', index, n, 0, f);
      PassedOver(map', index, f);
    }
  }

  lemma OpenNext(map': seq<Region>, i: nat, n: nat, index: nat, next: nat, remaining: nat)
    requires index < |map'| && ValidMap(map') && SameAhead(map', i, n, 0, index, n, 0)
    requires var r := map'[index];
             && r.kind == CONVENTIONAL && r.pages != 0 && End(r) > LOW_MEMORY_RESERVE
             && next == (if r.start < LOW_MEMORY_RESERVE then LOW_MEMORY_RESERVE else r.start)
             && remaining == (End(r) - next) / PAGE_SIZE
    ensures SameAhead(map', i, n, 0, index + 1, next, remaining) && Within(map', index + 1, next, remaining)
            && remaining > 0
  {
    hide InRegion, InLater, InRest;
    NothingLeft(n);
    WholePages(map'[index], next, remaining);
    forall f: nat
      ensures AheadOf(map', i, n, 0, f) <==> AheadOf(map', index + 1, next, remaining, f)
    {
      assert AheadOf(map', i, n, 0, f) <==> AheadOf(map', index, n, 0, f);
      Opened(map', index, next, remaining, f);
    }
  }

  lemma NothingLeft(next: nat)
    ensures forall f :: !InRest(next, 0, f)
  {
  }

  lemma WholePages(r: Region, next: nat, remaining: nat)
    requires r.start % PAGE_SIZE == 0 && End(r) > LOW_MEMORY_RESERVE
    requires next == (if r.start < LOW_MEMORY_RESERVE then LOW_MEMORY_RESERVE else r.start) && r.pages > 0
    requires remaining == (End(r) - next) / PAGE_SIZE
    ensures next + PAGE_SIZE * remaining == End(r) && next % PAGE_SIZE == 0 && remaining > 0 && r.start <= next
  {
  }
}
