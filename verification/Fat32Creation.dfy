/** Creating a name in a FAT32 directory: the short alias, the long name entries, and why the new name
    is found afterwards. */
module Fat32Creation {
  import opened Bytes
  import opened Unicode
  import opened VolumeLayout
  import opened Fat32Volume
  import opened Fat32Chains
  import opened Fat32Allocator
  import opened Fat32Files
  import opened Fat32Names
  import opened Fat32Directory
  import opened Fat32Overwrite

  const DOT: Byte := 0x2E
  const SPACE: Byte := 0x20

  // ----- the 8.3 form of a name

  function Stem(leaf: seq<Byte>): seq<Byte> {
    Before(leaf, DOT)
  }

  function Tail(leaf: seq<Byte>): seq<Byte> {
    if |Stem(leaf)| < |leaf| then leaf[|Stem(leaf)| + 1..] else []
  }

  /** A name that has an 8.3 form: one dot at most, 1 to 8 bytes before it and at most 3 behind. */
  predicate Fits83(leaf: seq<Byte>) {
    1 <= |Stem(leaf)| <= 8 && |Tail(leaf)| <= 3 && DOT !in Tail(leaf) && 0x2F !in leaf && 0x5C !in leaf
  }

  /** Byte k of a field that holds s in capitals, padded with spaces. */
  function Capital(s: seq<Byte>, k: nat): Byte {
    if k < |s| then Up(s[k]) else SPACE
  }

  predicate Is83(leaf: seq<Byte>, name: ShortName) {
    && (forall k :: 0 <= k < 8 ==> name[k] == Capital(Stem(leaf), k))
    && (forall k :: 8 <= k < 11 ==> name[k] == Capital(Tail(leaf), k - 8))
  }

  /** The 8.3 form of a name. */
  function Exact(leaf: seq<Byte>): (name: ShortName)
    ensures Is83(leaf, name)
  {
    seq<Byte>(8, k requires 0 <= k < 8 => Capital(Stem(leaf), k)) +
        seq<Byte>(3, k requires 0 <= k < 3 => Capital(Tail(leaf), k))
  }

  lemma ExactOnly(leaf: seq<Byte>, name: ShortName)
    requires Is83(leaf, name)
    ensures name == Exact(leaf)
  {
    assert forall k :: 8 <= k < 11 ==> name[k] == Capital(Tail(leaf), k - 8) == Exact(leaf)[k];
  }

  /** A long name is written unless the 8.3 form says it all and is not taken. */
  ghost predicate NeedsLong(slots: seq<Slot>, leaf: seq<Byte>) {
    !(Fits83(leaf) && StandsFor(Exact(leaf), leaf) && !Taken(slots, Exact(leaf), |slots|))
  }

  lemma BeforeStops(s: seq<Byte>, stop: Byte, i: nat)
    requires i <= |s| && forall k :: 0 <= k < i ==> s[k] != stop
    ensures i < |s| && s[i] == stop ==> Before(s, stop) == s[..i]
    ensures i <= |Before(s, stop)|
    ensures i == |s| ==> Before(s, stop) == s
  {
    var r := Before(s, stop);
    assert |r| < |s| ==> s[|r|] == stop;
    assert i < |r| ==> r[i] == s[i];
  }

  /** component_to_name */
  method ComponentToName(leaf: seq<Byte>) returns (ok: bool, name: ShortName)
    ensures ok <==> Fits83(leaf)
    ensures ok ==> Is83(leaf, name)
  {
    hide Before, Is83, Fits83;
    name := seq<Byte>(11, _ => SPACE);
    var nameIndex, extensionIndex, inExtension := 0, 8, false;
    if |leaf| == 0 {
      NoStem(leaf);
      return false, name;
    }
    for i := 0 to |leaf|
      invariant 0 <= nameIndex <= 8 <= extensionIndex <= 11
      invariant !inExtension ==> nameIndex == i && extensionIndex == 8 && forall k :: 0 <= k < i ==> leaf[k] != DOT
      invariant inExtension ==> nameIndex == |Stem(leaf)| && extensionIndex == 8 + i - nameIndex - 1 && nameIndex < i
      invariant inExtension ==> forall k :: nameIndex < k < i ==> leaf[k] != DOT
      invariant forall k :: 0 <= k < i ==> leaf[k] != 0x2F && leaf[k] != 0x5C
      invariant forall k :: 0 <= k < 8 ==> name[k] == if k < nameIndex then Up(leaf[k]) else SPACE
      invariant forall k :: 8 <= k < 11 ==> name[k] == if k < extensionIndex then Up(leaf[nameIndex + k - 7]) else SPACE
    {
      var value := Up(leaf[i]);
      if !inExtension {
        BeforeStops(leaf, DOT, i);
        if leaf[i] != DOT {
          BeforeStops(leaf, DOT, i + 1);
        }
      }
      if value == DOT {
        if inExtension {
          NotFits83(leaf, i, nameIndex);
          return false, name;
        }
        inExtension := true;
      } else if value == 0x2F || value == 0x5C || (!inExtension && nameIndex >= 8)
          || (inExtension && extensionIndex >= 11) {
        NotFits83(leaf, i, nameIndex);
        return false, name;
      } else if inExtension {
        name := name[extensionIndex := value];
        extensionIndex := extensionIndex + 1;
      } else {
        name := name[nameIndex := value];
        nameIndex := nameIndex + 1;
      }
    }
    if !inExtension {
      BeforeStops(leaf, DOT, |leaf|);
    }
    ok := nameIndex != 0;
    All83(leaf, nameIndex, extensionIndex, name);
  }

  lemma NoStem(leaf: seq<Byte>)
    requires |leaf| == 0
    ensures !Fits83(leaf)
  {
  }

  /** A byte that has no place in an 8.3 name. */
  lemma NotFits83(leaf: seq<Byte>, i: nat, stem: nat)
    requires i < |leaf| && stem <= |Stem(leaf)|
    requires || leaf[i] == 0x2F || leaf[i] == 0x5C || |Stem(leaf)| > 8
             || (stem == |Stem(leaf)| < i && (leaf[i] == DOT || i > stem + 3))
    ensures !Fits83(leaf)
  {
    if |Stem(leaf)| < i {
      assert Tail(leaf)[i - |Stem(leaf)| - 1] == leaf[i];
    }
  }

  lemma All83(leaf: seq<Byte>, stem: nat, end: nat, name: ShortName)
    requires stem == |Stem(leaf)| <= 8 && end == 8 + |Tail(leaf)| <= 11
    requires forall k :: 0 <= k < |leaf| ==> leaf[k] != 0x2F && leaf[k] != 0x5C
    requires forall k :: stem < k < |leaf| ==> leaf[k] != DOT
    requires forall k :: 0 <= k < 8 ==> name[k] == if k < stem then Up(leaf[k]) else SPACE
    requires forall k :: 8 <= k < 11 ==> name[k] == if k < end then Up(leaf[stem + k - 7]) else SPACE
    ensures Fits83(leaf) <==> stem != 0
    ensures Is83(leaf, name)
  {
    hide Before;
    forall k | 0 <= k < |Tail(leaf)|
      ensures Tail(leaf)[k] == leaf[stem + k + 1]
    {
    }
  }

  // ----- numbered aliases

  predicate Plain(b: Byte) {
    0x41 <= b <= 0x5A || 0x30 <= b <= 0x39 || b == 0x5F
  }

  /** The first limit letters, digits and underscores of s, in capitals. */
  function Sanitized(s: seq<Byte>, limit: nat): (r: seq<Byte>)
    ensures |r| <= limit && forall i :: 0 <= i < |r| ==> Plain(r[i])
  {
    if |s| == 0 then []
    else
      var r := Sanitized(s[..|s| - 1], limit);
      if |r| < limit && Plain(Up(s[|s| - 1])) then r + [Up(s[|s| - 1])] else r
  }

  lemma {:induction false} SanitizedFull(s: seq<Byte>, limit: nat, n: nat)
    requires n <= |s| && |Sanitized(s[..n], limit)| == limit
    ensures Sanitized(s, limit) == Sanitized(s[..n], limit)
    decreases |s| - n
  {
    if n < |s| {
      assert s[..n + 1][..n] == s[..n];
      SanitizedFull(s, limit, n + 1);
    } else {
      assert s[..n] == s;
    }
  }

  method Sanitize(s: seq<Byte>, limit: nat) returns (r: seq<Byte>)
    ensures r == Sanitized(s, limit)
  {
    r := [];
    var index := 0;
    while index < |s| && |r| < limit
      invariant 0 <= index <= |s| && r == Sanitized(s[..index], limit)
    {
      assert s[..index + 1][..index] == s[..index];
      var value := Up(s[index]);
      if Plain(value) {
        r := r + [value];
      }
      index := index + 1;
    }
    if |r| == limit {
      SanitizedFull(s, limit, index);
    } else {
      assert s[..index] == s;
    }
  }

  function Digits(number: nat): (d: seq<Byte>)
    requires 1 <= number <= 999
    ensures 1 <= |d| <= 3 && forall i :: 0 <= i < |d| ==> 0x30 <= d[i] <= 0x39
  {
    if number >= 100 then [0x30 + number / 100, 0x30 + number / 10 % 10, 0x30 + number % 10]
    else if number >= 10 then [0x30 + number / 10, 0x30 + number % 10]
    else [0x30 + number]
  }

  function Spaces(n: nat): seq<Byte> {
    seq(n, _ => SPACE)
  }

  /** Base, tilde and number in 8 bytes, then the extension. */
  function Numbered(base: seq<Byte>, extension: seq<Byte>, number: nat): (a: ShortName)
    requires 1 <= |base| && (forall i :: 0 <= i < |base| ==> Plain(base[i])) && |extension| <= 3 && 1 <= number <= 999
    ensures a[0] == base[0] && Plain(a[0])
  {
    var keep := Min(8 - |Digits(number)| - 1, |base|);
    var stem := base[..keep] + [0x7E] + Digits(number);
    stem + Spaces(8 - |stem|) + extension + Spaces(3 - |extension|)
  }

  /** Behind the last dot of a name, or everything before it. */
  function LastDot(leaf: seq<Byte>, n: nat): Option<nat>
    requires n <= |leaf|
    ensures LastDot(leaf, n).Some? ==> LastDot(leaf, n).value < n
  {
    if n == 0 then None else if leaf[n - 1] == DOT then Some(n - 1) else LastDot(leaf, n - 1)
  }

  function AliasBase(leaf: seq<Byte>): (b: seq<Byte>)
    ensures 1 <= |b| <= 6 && forall i :: 0 <= i < |b| ==> Plain(b[i])
  {
    var dot := LastDot(leaf, |leaf|);
    var b := Sanitized(if dot.Some? then leaf[..dot.value] else leaf, 6);
    if |b| == 0 then [0x5F] else b
  }

  function AliasExtension(leaf: seq<Byte>): (x: seq<Byte>)
    ensures |x| <= 3
  {
    var dot := LastDot(leaf, |leaf|);
    if dot.Some? then Sanitized(leaf[dot.value + 1..], 3) else []
  }

  function Alias(leaf: seq<Byte>, number: nat): (a: ShortName)
    requires 1 <= number <= 999
    ensures Plain(a[0])
  {
    Numbered(AliasBase(leaf), AliasExtension(leaf), number)
  }

  /** Every numbered alias below n is taken. */
  ghost predicate AllTaken(slots: seq<Slot>, leaf: seq<Byte>, n: nat)
    requires n <= 1000
  {
    forall i :: 1 <= i < n ==> Taken(slots, Alias(leaf, i), |slots|)
  }

  lemma OneMoreTaken(slots: seq<Slot>, leaf: seq<Byte>, n: nat)
    requires 1 <= n <= 999 && AllTaken(slots, leaf, n) && Taken(slots, Alias(leaf, n), |slots|)
    ensures AllTaken(slots, leaf, n + 1)
  {
    hide Taken, Alias;
  }

  /** The numbered alias with the lowest number that is not taken. */
  method NumberedAlias(x: Context, dir: nat, leaf: seq<Byte>, ghost cl: seq<nat>)
      returns (ok: bool, alias: ShortName, number: nat)
    requires x.Valid() && IsDir(x.G(), x.V(), dir, cl)
    modifies x.m`faults
    ensures x.Valid() && x.m.faults >= old(x.m.faults)
    ensures 1 <= number <= 1000 && (ok ==> number <= 999 && alias == Alias(leaf, number)) && (!ok ==> number == 1000)
    ensures AllTaken(DirSlots(x.G(), x.V(), cl), leaf, number)
    ensures ok && x.m.faults == old(x.m.faults) ==>
              !Taken(DirSlots(x.G(), x.V(), cl), alias, |DirSlots(x.G(), x.V(), cl)|)
  {
    hide Layout, Shaped, ViewOf, StateOf, Traced, Copies, Taken, DirSlots, IsDir, Alias, Numbered, Clusters, Chain,
         AllTaken, Sanitized;
    DirMeans(x.G(), x.V(), dir, cl);
    var base, extension := MakeBase(leaf);
    ghost var slots := DirSlots(x.G(), x.V(), cl);
    NoneTaken(slots, leaf);
    number, ok, alias := 1, false, seq<Byte>(11, _ => SPACE);
    while number <= 999
      invariant x.Valid() && x.m.faults >= old(x.m.faults) && x.V() == old(x.V()) && 1 <= number <= 1000 && !ok
      invariant AllTaken(slots, leaf, number)
      decreases 1000 - number
    {
      alias := Numbered(base, extension, number);
      AliasIs(leaf, number);
      ok := ShortNameAvailable(x, dir, alias, cl);
      if ok {
        return;
      }
      OneMoreTaken(slots, leaf, number);
      number := number + 1;
    }
  }

  lemma NoneTaken(slots: seq<Slot>, leaf: seq<Byte>)
    ensures AllTaken(slots, leaf, 1)
  {
  }

  /** fat32_make_short_alias: the 8.3 form of the name when that says it all and is not taken, else a
      numbered alias. */
  method MakeShortAlias(x: Context, dir: nat, leaf: seq<Byte>, ghost cl: seq<nat>)
    returns (ok: bool, alias: ShortName, needsLfn: bool)
    requires x.Valid() && IsDir(x.G(), x.V(), dir, cl)
    modifies x.m`faults
    ensures x.Valid() && x.m.faults >= old(x.m.faults)
    ensures ok && !needsLfn ==> Fits83(leaf) && Is83(leaf, alias) && StandsFor(alias, leaf)
    ensures ok && needsLfn ==> NeedsLong(DirSlots(x.G(), x.V(), cl), leaf)
    ensures ok && needsLfn ==>
              exists n :: 1 <= n <= 999 && alias == Alias(leaf, n) && AllTaken(DirSlots(x.G(), x.V(), cl), leaf, n)
    ensures ok && x.m.faults == old(x.m.faults) ==>
              !Taken(DirSlots(x.G(), x.V(), cl), alias, |DirSlots(x.G(), x.V(), cl)|)
    ensures !ok ==> AllTaken(DirSlots(x.G(), x.V(), cl), leaf, 1000)
  {
    hide Layout, Shaped, ViewOf, StateOf, Traced, Copies, Taken, DirSlots, IsDir, Fits83, Is83, Alias, Matches,
         Format, Clusters, Chain, AllTaken, Exact;
    needsLfn := false;
    DirMeans(x.G(), x.V(), dir, cl);
    ok, alias := ComponentToName(leaf);
    if ok {
      ExactOnly(leaf, alias);
    }
    if ok && Matches(Format(alias), leaf) {
      var free := ShortNameAvailable(x, dir, alias, cl);
      if free {
        return;
      }
    }
    needsLfn := true;
    var number;
    ok, alias, number := NumberedAlias(x, dir, leaf, cl);
  }

  lemma AliasIs(leaf: seq<Byte>, n: nat)
    requires 1 <= n <= 999
    ensures Alias(leaf, n) == Numbered(AliasBase(leaf), AliasExtension(leaf), n)
  {
  }

  method MakeBase(leaf: seq<Byte>) returns (base: seq<Byte>, extension: seq<Byte>)
    ensures base == AliasBase(leaf) && extension == AliasExtension(leaf)
  {
    var dot := None;
    for i := 0 to |leaf|
      invariant dot == LastDot(leaf, i)
    {
      if leaf[i] == DOT {
        dot := Some(i);
      }
    }
    base := Sanitize(if dot.Some? then leaf[..dot.value] else leaf, 6);
    if |base| == 0 {
      base := [0x5F];
    }
    extension := [];
    if dot.Some? {
      extension := Sanitize(leaf[dot.value + 1..], 3);
    }
  }

  // ----- writing the entries

  /** b is a with the entries es in the slots from k on. */
  ghost predicate Written(a: seq<Slot>, b: seq<Slot>, k: nat, es: seq<Slot>) {
    && |b| == |a| && k + |es| <= |a|
    && b[..k] == a[..k] && b[k..k + |es|] == es && b[k + |es|..] == a[k + |es|..]
  }

  lemma WrittenMore(a: seq<Slot>, b: seq<Slot>, c: seq<Slot>, k: nat, es: seq<Slot>, e: Slot)
    requires Written(a, b, k, es) && k + |es| < |a| && c == b[k + |es| := e]
    ensures Written(a, c, k, es + [e])
  {
    assert c[k..k + |es| + 1] == b[k..k + |es|] + [e];
    assert c[k + |es| + 1..] == b[k + |es|..][1..];
  }

  lemma SlotBytes(g: Geometry, v: View, cl: seq<nat>, k: nat, p: Position)
    requires Layout(g) && Shaped(g, v) && Clusters(g, cl) && SlotAt(g, cl, k, p)
    ensures ValidPosition(g, p) && k < |DirSlots(g, v, cl)|
    ensures var sector := v.heap[p.cluster][p.sector];
            && |sector| == g.sectorSize
            && sector[p.offset := DELETED] == Splice(sector, p.offset, DirSlots(g, v, cl)[k][0 := DELETED])
  {
    hide Multiples, Addresses, ByteAt;
    SlotPlace(g, cl, k, p);
    SectorBytes(g, v, cl, 32 * k, 32);
    var sector, slot := v.heap[p.cluster][p.sector], DirSlots(g, v, cl)[k];
    assert slot == SlotOf(g, v, cl, k);
    forall i | 0 <= i < 32
      ensures slot[i] == sector[p.offset + i]
    {
      assert slot[i] == ByteAt(g, v, cl, 32 * k + i);
    }
  }

  /** The first byte of count slots from k on has become the deletion mark. */
  ghost predicate Marked(a: seq<Slot>, b: seq<Slot>, k: nat, count: nat) {
    |a| == |b| && forall i :: 0 <= i < |a| ==> b[i] == if k <= i < k + count then a[i][0 := DELETED] else a[i]
  }

  /** fat32_mark_positions_deleted */
  method MarkDeleted(x: Context, positions: seq<Position>, count: nat, ghost h: set<nat>, ghost cl: seq<nat>,
                     ghost k: nat)
    returns (ok: bool)
    requires x.Valid() && count <= |positions| && Inside(x.G(), positions, h) && Clusters(x.G(), cl)
    requires forall i :: 0 <= i < count ==> SlotAt(x.G(), cl, k + i, positions[i])
    modifies x`trail, x.m
    ensures x.Valid() && x.m.faults >= old(x.m.faults) && Clusters(x.G(), cl)
    ensures Trail(x.G(), old(x.trail), x.trail, {}, h) && x.V().fat == old(x.V().fat)
    ensures ok ==> Marked(DirSlots(x.G(), old(x.V()), cl), DirSlots(x.G(), x.V(), cl), k, count)
    ensures !ok ==> x.m.faults > old(x.m.faults)
  {
    hide Multiples, Places, Addresses, Capacities, Shaped, ViewOf, StateOf, Traced, Copies, Trail, SlotAt, Clusters,
         DirSlots;
    ghost var g, t, v := x.G(), x.trail, x.V();
    TrailStay(g, t);
    TrailWiden(g, t, t, {}, {}, {}, h);
    ok := true;
    for index := 0 to count
      invariant x.Valid() && x.m.faults >= old(x.m.faults) && Trail(g, t, x.trail, {}, h) && x.V().fat == v.fat && ok
      invariant Marked(DirSlots(g, v, cl), DirSlots(g, x.V(), cl), k, index)
    {
      ghost var t1 := x.trail;
      ok := MarkOne(x, positions[index], cl, k + index);
      TrailMore(g, t, t1, x.trail, {}, h, {}, {positions[index].cluster});
      if !ok {
        return;
      }
    }
  }

  method MarkOne(x: Context, p: Position, ghost cl: seq<nat>, ghost k: nat) returns (ok: bool)
    requires x.Valid() && ValidPosition(x.G(), p) && Clusters(x.G(), cl) && SlotAt(x.G(), cl, k, p)
    modifies x`trail, x.m
    ensures x.Valid() && x.m.faults >= old(x.m.faults)
    ensures Trail(x.G(), old(x.trail), x.trail, {}, {p.cluster}) && x.V().fat == old(x.V().fat)
    ensures ok ==> && k < |DirSlots(x.G(), old(x.V()), cl)|
                   && DirSlots(x.G(), x.V(), cl) ==
                      DirSlots(x.G(), old(x.V()), cl)[k := DirSlots(x.G(), old(x.V()), cl)[k][0 := DELETED]]
    ensures !ok ==> x.m.faults > old(x.m.faults)
  {
    hide Multiples, Places, Addresses, Capacities, Shaped, ViewOf, StateOf, Traced, Copies, Trail, SlotAt, Clusters,
         DirSlots;
    ghost var g, v := x.G(), x.V();
    TrailStay(g, x.trail);
    TrailWiden(g, x.trail, x.trail, {}, {}, {}, {p.cluster});
    SlotBytes(g, v, cl, k, p);
    SlotReplaced(g, v, cl, k, p, DirSlots(g, v, cl)[k][0 := DELETED]);
    var sector;
    ok, sector := x.ReadCluster(p.cluster, p.sector);
    if !ok {
      return;
    }
    ok := x.WriteCluster(p.cluster, p.sector, sector[p.offset := DELETED]);
  }

  /** The directory while entries are being written. */
  ghost predicate Writing(g: Geometry, v: View, w: View, dir: nat, cl: seq<nat>, k: nat, es: seq<Slot>,
                          positions: seq<Position>)
  {
    && IsDir(g, v, dir, cl) && IsDir(g, w, dir, cl)
    && Written(DirSlots(g, v, cl), DirSlots(g, w, cl), k, es)
    && k + |positions| <= |DirSlots(g, v, cl)| && |es| <= |positions|
    && forall i :: 0 <= i < |positions| ==> SlotAt(g, cl, k + i, positions[i])
  }

  lemma WritingMore(g: Geometry, v: View, w: View, u: View, dir: nat, cl: seq<nat>, k: nat, es: seq<Slot>,
                    positions: seq<Position>, e: Slot)
    requires Writing(g, v, w, dir, cl, k, es, positions) && |es| < |positions| && Shaped(g, u) && u.fat == w.fat
    requires Layout(g) && Shaped(g, w) && Clusters(g, cl) && k + |es| < |DirSlots(g, w, cl)|
    requires DirSlots(g, u, cl) == DirSlots(g, w, cl)[k + |es| := e]
    ensures Writing(g, v, u, dir, cl, k, es + [e], positions)
  {
    hide Layout, Shaped, Clusters, DirSlots, SlotAt, Written;
    WrittenMore(DirSlots(g, v, cl), DirSlots(g, w, cl), DirSlots(g, u, cl), k, es, e);
  }

  lemma WritingAt(g: Geometry, v: View, w: View, dir: nat, cl: seq<nat>, k: nat, es: seq<Slot>,
                  positions: seq<Position>)
    requires Writing(g, v, w, dir, cl, k, es, positions) && |es| < |positions|
    ensures Layout(g) && Shaped(g, w) && Clusters(g, cl) && k + |es| < |DirSlots(g, w, cl)|
    ensures SlotAt(g, cl, k + |es|, positions[|es|])
  {
    hide Layout, Shaped, Clusters, DirSlots, SlotAt;
  }

  /** Write the parts of the long name and then the short entry; when one of them cannot be written,
      delete those that were. */
  method WriteEntries(x: Context, positions: seq<Position>, u: seq<nat>, total: nat, entry: Slot,
                      ghost h: set<nat>, ghost dir: nat, ghost cl: seq<nat>, ghost k: nat) returns (ok: bool)
    requires x.Valid() && ValidUnits(u) && total <= MAX_LFN_ENTRIES && |positions| == total + 1
             && Inside(x.G(), positions, h)
    requires Writing(x.G(), x.V(), x.V(), dir, cl, k, [], positions)
    modifies x`trail, x.m
    ensures x.Valid() && x.m.faults >= old(x.m.faults)
    ensures Trail(x.G(), old(x.trail), x.trail, {}, h)
    ensures ok ==> Writing(x.G(), old(x.V()), x.V(), dir, cl, k, NameEntries(u, total, entry), positions)
    ensures !ok ==> x.m.faults > old(x.m.faults)
    ensures !ok && x.m.faults == old(x.m.faults) + 1 ==>
              Undone(x.G(), old(x.V()), x.V(), dir, cl, k, |positions|)
  {
    hide Layout, Shaped, ViewOf, StateOf, Traced, Copies, Trail, Writing, DirSlots, Clusters, SlotAt, LfnEntry,
         ShortSum;
    ghost var g, t, v := x.G(), x.trail, x.V();
    TrailStay(g, t);
    TrailWiden(g, t, t, {}, {}, {}, h);
    var sum := ShortChecksum(entry[..11]);
    ghost var es := NameEntries(u, total, entry);
    assert es[..0] == [];
    for index := 0 to total + 1
      invariant x.Valid() && x.m.faults >= old(x.m.faults) && Trail(g, t, x.trail, {}, h)
      invariant Writing(g, v, x.V(), dir, cl, k, es[..index], positions)
    {
      var e := if index < total then LfnEntry(u, total - index, total, sum) else entry;
      assert e == es[index] && es[..index] + [e] == es[..index + 1];
      ghost var t1, w := x.trail, x.V();
      WritingAt(g, v, w, dir, cl, k, es[..index], positions);
      ok := PositionWrite(x, positions[index], e, cl, k + index);
      if !ok {
        WritingPlaces(g, v, w, dir, cl, k, es[..index], positions);
        var marked := MarkDeleted(x, positions, index, h, cl, k);
        TrailMore(g, t, t1, x.trail, {}, h, {}, h);
        if marked {
          NowUndone(g, v, w, x.V(), dir, cl, k, es[..index], positions, index);
        }
        return;
      }
      OneWrite(g, t1, x.trail, {}, {positions[index].cluster});
      TrailMore(g, t, t1, x.trail, {}, h, {}, {positions[index].cluster});
      WritingMore(g, v, w, x.V(), dir, cl, k, es[..index], positions, e);
    }
    ok := true;
    assert es[..total + 1] == es;
  }

  /** The directory is still there, and every slot is as it was or, among n from k on, deleted. */
  ghost predicate Undone(g: Geometry, v: View, w: View, dir: nat, cl: seq<nat>, k: nat, n: nat) {
    && IsDir(g, v, dir, cl) && IsDir(g, w, dir, cl)
    && var a, b := DirSlots(g, v, cl), DirSlots(g, w, cl);
       forall i :: 0 <= i < |a| ==> b[i] == a[i] || (k <= i < k + n && b[i][0] == DELETED)
  }

  lemma WritingPlaces(g: Geometry, v: View, w: View, dir: nat, cl: seq<nat>, k: nat, es: seq<Slot>,
                      positions: seq<Position>)
    requires Writing(g, v, w, dir, cl, k, es, positions)
    ensures Layout(g) && Clusters(g, cl) && Shaped(g, w)
    ensures forall i :: 0 <= i < |positions| ==> SlotAt(g, cl, k + i, positions[i])
  {
    hide Multiples, Places, Addresses, DirSlots, SlotAt, Written;
  }

  lemma NowUndone(g: Geometry, v: View, w: View, u: View, dir: nat, cl: seq<nat>, k: nat, es: seq<Slot>,
                  positions: seq<Position>, index: nat)
    requires Writing(g, v, w, dir, cl, k, es, positions) && |es| == index <= |positions| && Shaped(g, u)
    requires Layout(g) && Shaped(g, w) && Clusters(g, cl)
    requires u.fat == w.fat && Marked(DirSlots(g, w, cl), DirSlots(g, u, cl), k, index)
    ensures Undone(g, v, u, dir, cl, k, |positions|)
  {
    hide Multiples, Places, Addresses, Capacities, DirSlots, SlotAt, Shaped, Clusters;
    SameDirs(g, v, w, u, dir, cl);
    var a, b := DirSlots(g, v, cl), DirSlots(g, w, cl);
    forall i | 0 <= i < |a| && !(k <= i < k + index)
      ensures b[i] == a[i]
    {
      WrittenElsewhere(a, b, k, es, i);
    }
  }

  lemma SameDirs(g: Geometry, v: View, w: View, u: View, dir: nat, cl: seq<nat>)
    requires IsDir(g, w, dir, cl) && Shaped(g, u) && u.fat == w.fat && IsDir(g, v, dir, cl)
    ensures IsDir(g, u, dir, cl) && Layout(g) && Shaped(g, v) && Clusters(g, cl)
  {
    hide Multiples, Places, Addresses, Capacities;
  }

  lemma WrittenElsewhere(a: seq<Slot>, b: seq<Slot>, k: nat, es: seq<Slot>, i: nat)
    requires Written(a, b, k, es) && i < |a| && !(k <= i < k + |es|)
    ensures |b| == |a| && b[i] == a[i]
  {
    if i >= k + |es| {
      assert b[i] == b[k + |es|..][i - (k + |es|)];
    } else {
      assert b[i] == b[..k][i];
    }
  }

  lemma OneWrite(g: Geometry, t0: seq<State>, t1: seq<State>, f: set<nat>, h: set<nat>)
    requires |t0| > 0 && ShapedState(g, t0[|t0| - 1]) && |t1| == |t0| + 1 && t1[..|t0|] == t0
    requires Moved(g, t0[|t0| - 1], t1[|t0|], f, h)
    ensures Trail(g, t0, t1, f, h)
  {
    assert t1[|t0| - 1] == t1[..|t0|][|t0| - 1];
  }

  /** The slots a became b when the name of leaf was created at slot k: total long name entries and the
      short entry e over free slots, behind one that is in use. */
  ghost predicate Created(a: seq<Slot>, b: seq<Slot>, leaf: seq<Byte>, k: nat, total: nat, e: Slot) {
    && Accepted(leaf) && ValidUnits(Units(leaf, 0).value) && total <= MAX_LFN_ENTRIES
    && (if total == 0 then StandsFor(e[..11], leaf) else total == (|Units(leaf, 0).value| + 12) / 13)
    && k <= |a| <= |b| && k + total < |b|
    && a[..k] == b[..k] && (k > 0 ==> !IsFree(a[k - 1]))
    && b[k..k + total + 1] == NameEntries(Units(leaf, 0).value, total, e)
    && (forall i :: k <= i < |a| && i <= k + total ==> IsFree(a[i]))
    && (forall i :: k + total < i < |b| ==> b[i] == if i < |a| then a[i] else Zeros(32))
  }

  /** A directory as the driver leaves it: nothing is in use behind an end mark, and every long name
      entry has an entry in use right behind it. */
  ghost predicate Tidy(slots: seq<Slot>) {
    && (forall i, j :: 0 <= i < j < |slots| && slots[i][0] == 0 ==> IsFree(slots[j]))
    && (forall i :: 0 <= i < |slots| && !IsFree(slots[i]) && IsLfn(slots[i]) ==>
        i + 1 < |slots| && !IsFree(slots[i + 1]))
  }

  /** Create, then find: in a tidy directory that did not have the name, the search delivers the new entry
      and the number of its long name entries if and only if the entries answer to the name, and otherwise
      finds nothing.  An entry whose first byte is the deletion mark is gone at once; so is a long name
      with U+FFFF, which passes for its end. */
  lemma CreateThenFind(a: seq<Slot>, b: seq<Slot>, leaf: seq<Byte>, k: nat, total: nat, e: Slot)
    requires Created(a, b, leaf, k, total, e) && Tidy(a) && !Find(a, leaf, |a|).Found? && |leaf| <= 255
    requires e[0] != 0 && !IsLfn(e) && !Bit(e[11], VOLUME_ID)
    ensures Find(b, leaf, |b|).Found? <==>
            e[0] != DELETED && (total == 0 || StandsFor(e[..11], leaf) || 0xFFFF !in Units(leaf, 0).value)
    ensures Find(b, leaf, |b|).Found? ==> Find(b, leaf, |b|) == Found(k + total, e, total)
  {
    hide Created, Find, Units, StandsFor, Bit, Tidy, IsLfn, Answers;
    CreatedNames(a, b, leaf, k, total, e);
    AnswersItself(leaf, total, e);
    AfterCreation(a, b, leaf, k, total, e, leaf);
  }

  lemma CreatedNames(a: seq<Slot>, b: seq<Slot>, leaf: seq<Byte>, k: nat, total: nat, e: Slot)
    requires Created(a, b, leaf, k, total, e)
    ensures Accepted(leaf) && (total == 0 ==> StandsFor(e[..11], leaf)) && k + total < |b|
    ensures |leaf| <= 255 && e[0] != 0 && !IsLfn(e) && !Bit(e[11], VOLUME_ID) ==> NameAt(b, leaf, k, total, e)
  {
    hide Units, NameEntries, StandsFor, IsLfn, Bit;
  }

  lemma TidyBefore(a: seq<Slot>, k: nat)
    requires Tidy(a) && k <= |a| && (k > 0 ==> !IsFree(a[k - 1])) && (k < |a| ==> IsFree(a[k]))
    ensures (k > 0 ==> !IsLfn(a[k - 1])) && forall i :: 0 <= i < k ==> a[i][0] != 0
  {
  }

  lemma CreatedAt(a: seq<Slot>, b: seq<Slot>, leaf: seq<Byte>, k: nat, total: nat, e: Slot, i: nat)
    requires Created(a, b, leaf, k, total, e) && e[0] != 0 && i < |b|
    ensures i < k ==> i < |a| && b[i] == a[i]
    ensures k <= i <= k + total ==> b[i][0] != 0 && (i < |a| ==> IsFree(a[i]))
    ensures k <= i < k + total ==> b[i][0] != DELETED && IsLfn(b[i])
    ensures i == k + total ==> b[i] == e
    ensures k + total < i ==> b[i] == if i < |a| then a[i] else Zeros(32)
  {
    hide Units, NameEntries, StandsFor, IsFree, IsLfn;
    if i < k {
      assert b[i] == b[..k][i] == a[..k][i];
    } else if i <= k + total {
      var u := Units(leaf, 0).value;
      assert b[i] == b[k..k + total + 1][i - k] == NameEntries(u, total, e)[i - k];
      EntriesInUse(u, total, e, i - k);
    }
  }

  /** A tidy directory is tidy after the creation, unless a long name stands before a short entry that
      begins with the deletion mark. */
  lemma CreatedTidy(a: seq<Slot>, b: seq<Slot>, leaf: seq<Byte>, k: nat, total: nat, e: Slot)
    requires Created(a, b, leaf, k, total, e) && Tidy(a) && e[0] != 0 && !IsLfn(e)
    ensures Tidy(b) <==> e[0] != DELETED || total == 0
  {
    hide Created;
    CreatedBefore(a, b, leaf, k, total, e);
    forall i, j | 0 <= i < j < |b| && b[i][0] == 0
      ensures IsFree(b[j])
    {
      CreatedAt(a, b, leaf, k, total, e, i);
      CreatedAt(a, b, leaf, k, total, e, j);
    }
    CreatedAt(a, b, leaf, k, total, e, k + total);
    if total > 0 {
      CreatedAt(a, b, leaf, k, total, e, k + total - 1);
    }
    forall i | 0 <= i < |b| && !IsFree(b[i]) && IsLfn(b[i]) && (e[0] != DELETED || total == 0)
      ensures i + 1 < |b| && !IsFree(b[i + 1])
    {
      CreatedAt(a, b, leaf, k, total, e, i);
      if i + 1 < |b| {
        CreatedAt(a, b, leaf, k, total, e, i + 1);
      }
    }
  }

  lemma CreatedBefore(a: seq<Slot>, b: seq<Slot>, leaf: seq<Byte>, k: nat, total: nat, e: Slot)
    requires Created(a, b, leaf, k, total, e) && Tidy(a)
    ensures k <= |a| <= |b| && k + total < |b| && (k > 0 ==> !IsLfn(a[k - 1])) && forall i :: 0 <= i < k ==>
              a[i][0] != 0
  {
    hide Accepted, Units, NameEntries, StandsFor, IsLfn;
    TidyBefore(a, k);
  }

  /** What any name finds after the creation in a tidy directory.  A name that the new entries do not answer
      to finds what it found before: an entry, or none.  A name that they do answer to and that found
      nothing before finds the new entry. */
  lemma AfterCreation(a: seq<Slot>, b: seq<Slot>, leaf: seq<Byte>, k: nat, total: nat, e: Slot, leaf2: seq<Byte>)
    requires Created(a, b, leaf, k, total, e) && Tidy(a) && |leaf| <= 255
    requires e[0] != 0 && !IsLfn(e) && !Bit(e[11], VOLUME_ID)
    ensures Accepted(leaf)
    ensures !Answers(leaf2, leaf, total, e) && (Find(a, leaf2, |a|).Found? || Find(b, leaf2, |b|).Found?) ==>
              Find(b, leaf2, |b|) == Find(a, leaf2, |a|)
    ensures Answers(leaf2, leaf, total, e) && !Find(a, leaf2, |a|).Found? ==>
              Find(b, leaf2, |b|) == Found(k + total, e, total)
  {
    hide Created, Find, IsLfn, IsFree, Units, Tidy, Answers, NameAt, Bit;
    CreatedNames(a, b, leaf, k, total, e);
    CreatedBefore(a, b, leaf, k, total, e);
    forall i | 0 <= i < k
      ensures a[i] == b[i]
    {
      CreatedAt(a, b, leaf, k, total, e, i);
    }
    FindSame(a, b, leaf2, k);
    if !Find(a, leaf2, k).Going? {
      FindOver(a, leaf2, k, |a|);
      FindOver(b, leaf2, k, |b|);
      if !Find(a, leaf2, k).Found? {
        FindGoing(a, leaf2, k);
      }
    } else {
      IdleBehind(a, leaf2, k);
      WrittenSeek(b, leaf, leaf2, k, total, e);
      var m := k + total + 1;
      if Answers(leaf2, leaf, total, e) {
        FindOver(b, leaf2, m, |b|);
      } else if m <= |a| && !exists i :: k <= i < m && a[i][0] == 0 {
        OthersBehind(a, b, leaf, k, total, e, leaf2);
      } else {
        OthersEnd(a, b, leaf, k, total, e, leaf2);
      }
    }
  }

  /** The slots overwritten were deleted entries: behind them both searches go on alike. */
  lemma OthersBehind(a: seq<Slot>, b: seq<Slot>, leaf: seq<Byte>, k: nat, total: nat, e: Slot, leaf2: seq<Byte>)
    requires Created(a, b, leaf, k, total, e) && e[0] != 0 && k + total + 1 <= |a| <= |b|
    requires Find(a, leaf2, k) == Going(Idle()) && Find(b, leaf2, k + total + 1) == Going(Idle())
    requires forall i :: k <= i < k + total + 1 ==> a[i][0] != 0
    ensures Find(a, leaf2, |a|).Found? || Find(b, leaf2, |b|).Found? ==> Find(b, leaf2, |b|) == Find(a, leaf2, |a|)
  {
    hide Created, Find;
    var m := k + total + 1;
    forall i | k <= i < |b|
      ensures i < m ==> a[i][0] == DELETED
      ensures m <= i < |a| ==> a[i] == b[i]
      ensures |a| <= i ==> IsFree(b[i])
    {
      CreatedAt(a, b, leaf, k, total, e, i);
    }
    FindPassed(a, leaf2, k, m);
    FindParallel(a, b, leaf2, m, |a|);
    if Find(b, leaf2, |a|).Found? {
      FindOver(b, leaf2, |a|, |b|);
    } else {
      FindNothing(b, leaf2, |a|, |b|);
    }
  }

  /** An end mark, or the end of the directory, was overwritten: behind it nothing is in use. */
  lemma OthersEnd(a: seq<Slot>, b: seq<Slot>, leaf: seq<Byte>, k: nat, total: nat, e: Slot, leaf2: seq<Byte>)
    requires Created(a, b, leaf, k, total, e) && Tidy(a) && e[0] != 0 && k <= |a| <= |b| && k + total + 1 <= |b|
    requires Find(a, leaf2, k) == Going(Idle()) && Find(b, leaf2, k + total + 1) == Going(Idle())
    requires k + total + 1 <= |a| ==> exists i :: k <= i < k + total + 1 && a[i][0] == 0
    ensures !Find(a, leaf2, |a|).Found? && !Find(b, leaf2, |b|).Found?
  {
    hide Created, Find;
    forall i | k <= i < |b|
      ensures i < |a| ==> IsFree(a[i])
      ensures k + total < i ==> IsFree(b[i])
    {
      CreatedAt(a, b, leaf, k, total, e, i);
    }
    FindNothing(a, leaf2, k, |a|);
    FindNothing(b, leaf2, k + total + 1, |b|);
  }

  // ----- which names can be found

  /** What a caller can check before the call: the name will be found again.  An 8.3 name must not begin
      with the byte that marks deleted entries, a long name must not contain U+FFFF. */
  ghost predicate Findable(slots: seq<Slot>, leaf: seq<Byte>)
    requires Accepted(leaf)
  {
    if NeedsLong(slots, leaf) then 0xFFFF !in Units(leaf, 0).value else leaf[0] != DELETED
  }

  ghost predicate IsAlias(name: ShortName, leaf: seq<Byte>) {
    exists n :: 1 <= n <= 999 && name == Alias(leaf, n)
  }

  lemma ExactFirst(leaf: seq<Byte>)
    requires Fits83(leaf) && CString(leaf)
    ensures |leaf| > 0 && Exact(leaf)[0] != 0 && (Exact(leaf)[0] == DELETED <==> leaf[0] == DELETED)
  {
    hide Before;
    assert Stem(leaf)[0] == leaf[0] && Exact(leaf)[0] == Capital(Stem(leaf), 0);
  }

  /** A numbered alias has only ASCII bytes, so it stands for no name with U+FFFF. */
  lemma AliasAscii(leaf: seq<Byte>, n: nat)
    requires 1 <= n <= 999
    ensures forall k :: 0 <= k < 11 ==> 0 < Alias(leaf, n)[k] < 0x80
  {
    hide Sanitized, LastDot, Digits;
    assert forall i :: 0 <= i < |AliasExtension(leaf)| ==> Plain(AliasExtension(leaf)[i]);
  }

  lemma FormatAscii(name: ShortName)
    requires forall k :: 0 <= k < 11 ==> name[k] < 0x80
    ensures forall k :: 0 <= k < |Format(name)| ==> Format(name)[k] < 0x80
  {
    hide Before;
    var stem, tail := Before(name[..8], SPACE), Before(name[8..], SPACE);
    BeforeAscii(name[..8], SPACE);
    BeforeAscii(name[8..], SPACE);
    BeforeAscii(stem + if name[8] != SPACE then [DOT] + tail else [], 0);
  }

  lemma BeforeAscii(s: seq<Byte>, stop: Byte)
    requires forall k :: 0 <= k < |s| ==> s[k] < 0x80
    ensures forall k :: 0 <= k < |Before(s, stop)| ==> Before(s, stop)[k] < 0x80
  {
    hide Before;
    assert forall k :: 0 <= k < |Before(s, stop)| ==> Before(s, stop)[k] == s[k];
  }

  lemma AliasNoMark(name: ShortName, leaf: seq<Byte>)
    requires IsAlias(name, leaf) && Accepted(leaf)
    ensures name[0] != 0 && name[0] != DELETED
    ensures StandsFor(name, leaf) ==> 0xFFFF !in Units(leaf, 0).value
  {
    hide Alias, Format, Units;
    var n :| 1 <= n <= 999 && name == Alias(leaf, n);
    AliasAscii(leaf, n);
    FormatAscii(name);
    if StandsFor(name, leaf) {
      forall k | 0 <= k < |leaf|
        ensures leaf[k] < 0x80
      {
        assert Up(Format(name)[k]) == Up(leaf[k]);
      }
      AsciiUnits(leaf, 0);
    }
  }

  /** How the entries for a name came about. */
  ghost predicate Shape(slots: seq<Slot>, leaf: seq<Byte>, total: nat, e: Slot) {
    && (total > 0 <==> NeedsLong(slots, leaf))
    && (if total == 0 then Fits83(leaf) && e[..11] == Exact(leaf) else IsAlias(e[..11], leaf))
  }

  /** The entries that the driver writes for a name answer to it exactly when the name is findable. */
  lemma FindableIff(slots: seq<Slot>, leaf: seq<Byte>, total: nat, e: Slot)
    requires Accepted(leaf) && Shape(slots, leaf, total, e)
    ensures e[0] != 0 && |leaf| > 0 && (e[0] == DELETED <==> total == 0 && leaf[0] == DELETED)
    ensures Findable(slots, leaf) <==>
            e[0] != DELETED && (total == 0 || StandsFor(e[..11], leaf) || 0xFFFF !in Units(leaf, 0).value)
  {
    hide NeedsLong, Fits83, Exact, IsAlias, Units, StandsFor;
    assert e[0] == e[..11][0];
    AcceptedNotEmpty(leaf);
    if total == 0 {
      ExactFirst(leaf);
    } else {
      AliasNoMark(e[..11], leaf);
    }
  }

  lemma AcceptedNotEmpty(leaf: seq<Byte>)
    requires Accepted(leaf)
    ensures |leaf| > 0
  {
  }

  /** U+5927 fits an 8.3 name whose first byte is the deletion mark. */
  lemma DeletedLeaf() returns (leaf: seq<Byte>)
    ensures leaf == [0xE5, 0xA4, 0xA7] && Accepted(leaf) && Fits83(leaf) && StandsFor(Exact(leaf), leaf)
            && Exact(leaf)[0] == DELETED
  {
    hide Units, Stem, Tail, Format, Utf16, Before, Exact;
    leaf := [0xE5, 0xA4, 0xA7];
    assert Take(leaf, 0) == Some(Char(0x5927, 3));
    UnitsEnd(leaf);
    UnitsStep(leaf, 0);
    SmallUtf16(0x5927);
    assert [0x5927] + [] == [0x5927];
    DeletedStem(leaf);
    DeletedShort(leaf);
  }

  lemma SmallUtf16(cp: nat)
    requires cp < 0x1_0000
    ensures Utf16(cp) == [cp]
  {
  }

  lemma DeletedStem(leaf: seq<Byte>)
    requires leaf == [0xE5, 0xA4, 0xA7]
    ensures Stem(leaf) == leaf && Tail(leaf) == []
  {
    hide Before;
    BeforeStops(leaf, DOT, 3);
  }

  lemma DeletedShort(leaf: seq<Byte>)
    requires leaf == [0xE5, 0xA4, 0xA7] && Stem(leaf) == leaf && Tail(leaf) == []
    ensures Exact(leaf)[0] == DELETED && Format(Exact(leaf)) == leaf
  {
    hide Before, Stem, Tail;
    var name := Exact(leaf);
    assert name[..8] == leaf + Spaces(5);
    BeforeStops(name[..8], SPACE, 3);
    assert Before(name[..8], SPACE) == leaf;
    BeforeStops(leaf, 0, 3);
    assert leaf + [] == leaf;
  }

  /** Seven letters and U+FFFF do not fit an 8.3 name, and the long name reads as the seven letters. */
  lemma MarkedLeaf() returns (leaf: seq<Byte>)
    ensures leaf == [0x61, 0x62, 0x63, 0x64, 0x65, 0x66, 0x67, 0xEF, 0xBF, 0xBF]
    ensures Accepted(leaf) && !Fits83(leaf) && 0xFFFF in Units(leaf, 0).value && UpToMark(leaf, 0) == leaf[..7]
  {
    hide Units, UpToMark, Stem, Tail;
    leaf := [0x61, 0x62, 0x63, 0x64, 0x65, 0x66, 0x67, 0xEF, 0xBF, 0xBF];
    MarkedRest(leaf, 0);
    assert leaf[0..7] == leaf[..7];
    MarkedStem(leaf);
  }

  lemma MarkedStem(leaf: seq<Byte>)
    requires |leaf| == 10 && DOT !in leaf
    ensures !Fits83(leaf)
  {
    hide Before;
    BeforeStops(leaf, DOT, 10);
  }

  lemma {:induction false} MarkedRest(leaf: seq<Byte>, i: nat)
    requires leaf == [0x61, 0x62, 0x63, 0x64, 0x65, 0x66, 0x67, 0xEF, 0xBF, 0xBF] && i <= 7
    ensures UpToMark(leaf, i) == leaf[i..7]
    ensures var u := Units(leaf, i); u.Some? && |u.value| == 8 - i && u.value[7 - i] == 0xFFFF
    decreases 7 - i
  {
    hide UpToMark, Units;
    UnitsStep(leaf, i);
    UpToMarkStep(leaf, i);
    if i < 7 {
      assert Take(leaf, i) == Some(Char(leaf[i], 1)) && Utf16(leaf[i]) == [leaf[i] as nat];
      MarkedRest(leaf, i + 1);
    } else {
      assert Take(leaf, 7) == Some(Char(0xFFFF, 3)) && Utf16(0xFFFF) + [] == [0xFFFF];
      UnitsEnd(leaf);
    }
  }

  lemma SamePosition(g: Geometry, cl: seq<nat>, k: nat, p: Position, q: Position)
    requires Layout(g) && Clusters(g, cl) && SlotAt(g, cl, k, p) && SlotAt(g, cl, k, q)
    ensures p == q
  {
  }

  /** So what fat32_find_named_entry returns after the name has been created is the entry that was
      written and the positions it was written to. */
  lemma FoundIsCreated(g: Geometry, v: View, cl: seq<nat>, a: seq<Slot>, leaf: seq<Byte>, k: nat, e: Slot,
                       positions: seq<Position>, k': nat, e': Slot, positions': seq<Position>)
    requires Layout(g) && Shaped(g, v) && Clusters(g, cl) && |positions| >= 1
    requires Created(a, DirSlots(g, v, cl), leaf, k, |positions| - 1, e) && Tidy(a) && !Find(a, leaf, |a|).Found?
    requires |leaf| <= 255 && e[0] != 0 && !IsLfn(e) && !Bit(e[11], VOLUME_ID)
    requires forall i :: 0 <= i < |positions| ==> SlotAt(g, cl, k + i, positions[i])
    requires FoundAt(g, v, cl, leaf, k', e', positions')
    ensures k' == k + |positions| - 1 && e' == e && positions' == positions
  {
    hide Multiples, Places, Addresses, Capacities, Shaped, Created, Tidy, Find, Units, SlotAt, Clusters, DirSlots,
         Bit, IsLfn, IsFree, StandsFor, Accepted;
    CreatedNames(a, DirSlots(g, v, cl), leaf, k, |positions| - 1, e);
    CreateThenFind(a, DirSlots(g, v, cl), leaf, k, |positions| - 1, e);
    forall i | 0 <= i < |positions|
      ensures positions'[i] == positions[i]
    {
      SamePosition(g, cl, k + i, positions[i], positions'[i]);
    }
  }

  /** The entry that is written: the alias, and the rest of the source entry. */
  function Renamed(source: Slot, alias: ShortName): (e: Slot)
    ensures e[..11] == alias && e[11..] == source[11..]
  {
    alias + source[11..]
  }

  lemma ReservedIsCreated(a: seq<Slot>, r: seq<Slot>, b: seq<Slot>, g: Geometry, cl: seq<nat>, n: nat,
                          positions: seq<Position>, leaf: seq<Byte>, total: nat, e: Slot)
    requires Accepted(leaf) && ValidUnits(Units(leaf, 0).value) && total <= MAX_LFN_ENTRIES
    requires if total == 0 then StandsFor(e[..11], leaf) else total == (|Units(leaf, 0).value| + 12) / 13
    requires SlotsGrown(a, r) && FreeRun(g, cl, r, n, positions) && |positions| == total + 1 && n - |positions| <= |a|
    requires n >= |positions| && Written(r, b, n - |positions|, NameEntries(Units(leaf, 0).value, total, e))
    ensures Created(a, b, leaf, n - |positions|, total, e)
  {
    hide Accepted, Units, NameEntries, StandsFor, Layout, Clusters, SlotAt;
    var k := n - |positions|;
    forall i | 0 <= i < |r|
      ensures r[i] == if i < |a| then a[i] else Zeros(32)
    {
      if i < |a| {
        assert r[i] == r[..|a|][i];
      }
    }
    assert a[..k] == r[..k];
    forall i | k + total < i < |b|
      ensures b[i] == r[i]
    {
      assert b[i] == b[k + total + 1..][i - (k + total + 1)];
    }
  }

  /** fat32_write_named_entry.  Only free clusters and the directory's own change.  On success the name has
      been created at slot k of the directory, as far as that goes: without device errors it is all there,
      and otherwise its first m clusters are. */
  method WriteNamedEntry(x: Context, dir: nat, leaf: seq<Byte>, source: Slot, ghost cl0: seq<nat>)
    returns (ok: bool, entry: Slot, positions: seq<Position>, ghost cl: seq<nat>, ghost k: nat, ghost m: nat)
    requires x.Valid() && IsDir(x.G(), x.V(), dir, cl0) && CString(leaf)
    modifies x`trail, x`freeCount, x`nextFree, x.m
    ensures x.Valid() && x.m.faults >= old(x.m.faults)
    ensures Trail(x.G(), old(x.trail), x.trail, Free(x.G(), old(x.V())) + Members(cl0),
                  Free(x.G(), old(x.V())) + Members(cl0))
    ensures ok ==> Accepted(leaf) && |positions| > 0
    ensures ok ==>
              && 0 < m <= |cl0| && cl0[..m] <= cl && IsDir(x.G(), x.V(), dir, cl) && Clusters(x.G(), cl0[..m])
              && entry[11..] == source[11..]
              && Created(DirSlots(x.G(), old(x.V()), cl0[..m]), DirSlots(x.G(), x.V(), cl), leaf, k, |positions| - 1,
                         entry)
              && (forall i :: 0 <= i < |positions| ==> SlotAt(x.G(), cl, k + i, positions[i]))
    ensures ok && x.m.faults == old(x.m.faults) ==>
              && m == |cl0|
              && !Taken(DirSlots(x.G(), old(x.V()), cl0), entry[..11], |DirSlots(x.G(), old(x.V()), cl0)|)
              && Shape(DirSlots(x.G(), old(x.V()), cl0), leaf, |positions| - 1, entry)
    ensures !ok && x.m.faults == old(x.m.faults) ==>
              || !Accepted(leaf) || AllTaken(DirSlots(x.G(), old(x.V()), cl0), leaf, 1000)
              || |Free(x.G(), old(x.V()))| < 2
    ensures !ok && x.m.faults == old(x.m.faults) ==> |Free(x.G(), x.V())| >= |Free(x.G(), old(x.V()))| - 1
  {
    hide Multiples, Places, Addresses, Capacities, Shaped, ViewOf, StateOf, Traced, Copies, Trail, Writing, DirSlots,
         Clusters, SlotAt, FreeRun, SlotsGrown, IsDir, Chain, Free, Taken, Is83, Fits83, Alias, Created, NameEntries,
         Inside, StandsFor, Accepted, AllTaken, Units, Exact, NeedsLong, IsAlias;
    ghost var g, t, v := x.G(), x.trail, x.V();
    ghost var free := Free(g, v);
    DirMeans(g, v, dir, cl0);
    TrailStay(g, t);
    TrailWiden(g, t, t, {}, {}, free + Members(cl0), free + Members(cl0));
    entry, positions, cl, k, m := source, [], cl0, 0, |cl0|;
    var units, alias, needsLfn;
    ok, units := NameToUtf16(leaf);
    if !ok {
      return;
    }
    ok, alias, needsLfn := MakeShortAlias(x, dir, leaf, cl0);
    if !ok {
      return;
    }
    UnitCount(leaf);
    if needsLfn {
      ghost var number :| 1 <= number <= 999 && alias == Alias(leaf, number)
          && AllTaken(DirSlots(g, v, cl0), leaf, number);
      AliasNamed(alias, leaf, number);
    } else {
      ExactOnly(leaf, alias);
      NotNeeded(DirSlots(g, v, cl0), leaf);
    }
    var lfnCount := if needsLfn then (|units| + 12) / 13 else 0;
    if lfnCount > MAX_LFN_ENTRIES {
      return false, entry, positions, cl, k, m;
    }
    entry := Renamed(source, alias);
    ok, positions, cl, k, m := WriteReserved(x, dir, leaf, units, lfnCount, entry, cl0);
  }

  /** The second half of it: reserve the slots and write the entries. */
  method WriteReserved(x: Context, dir: nat, leaf: seq<Byte>, units: seq<nat>, lfnCount: nat, entry: Slot,
                       ghost cl0: seq<nat>)
    returns (ok: bool, positions: seq<Position>, ghost cl: seq<nat>, ghost k: nat, ghost m: nat)
    requires x.Valid() && IsDir(x.G(), x.V(), dir, cl0) && Accepted(leaf) && units == Units(leaf, 0).value
    requires ValidUnits(units) && lfnCount <= MAX_LFN_ENTRIES
    requires if lfnCount == 0 then StandsFor(entry[..11], leaf) else lfnCount == (|units| + 12) / 13
    modifies x`trail, x`freeCount, x`nextFree, x.m
    ensures x.Valid() && x.m.faults >= old(x.m.faults)
    ensures Trail(x.G(), old(x.trail), x.trail, Free(x.G(), old(x.V())) + Members(cl0),
                  Free(x.G(), old(x.V())) + Members(cl0))
    ensures ok ==>
              && |positions| == lfnCount + 1
              && 0 < m <= |cl0| && cl0[..m] <= cl && IsDir(x.G(), x.V(), dir, cl) && Clusters(x.G(), cl0[..m])
              && Created(DirSlots(x.G(), old(x.V()), cl0[..m]), DirSlots(x.G(), x.V(), cl), leaf, k, lfnCount, entry)
              && (forall i :: 0 <= i < |positions| ==> SlotAt(x.G(), cl, k + i, positions[i]))
    ensures ok && x.m.faults == old(x.m.faults) ==> m == |cl0|
    ensures !ok && x.m.faults == old(x.m.faults) ==> |Free(x.G(), old(x.V()))| < 2
  {
    hide Multiples, Places, Addresses, Capacities, Shaped, ViewOf, StateOf, Traced, Copies, Trail, Writing, DirSlots,
         Clusters, SlotAt, FreeRun, SlotsGrown, IsDir, Chain, Free, Created, NameEntries, Inside, StandsFor, Accepted,
         Units;
    ghost var g, t, v, free := x.G(), x.trail, x.V(), Free(x.G(), x.V());
    k := 0;
    ghost var n;
    ok, positions, cl, n, m := ReserveEntries(x, dir, lfnCount + 1, cl0);
    ghost var t1, v1 := x.trail, x.V();
    TrailWiden(g, t, t1, free + Members(cl0), free, free + Members(cl0), free + Members(cl0));
    if !ok {
      return;
    }
    RunWriting(g, v1, dir, cl, n, positions);
    k := n - |positions|;
    ok := WriteEntries(x, positions, units, lfnCount, entry, free + Members(cl0), dir, cl, k);
    TrailMore(g, t, t1, x.trail, free + Members(cl0), free + Members(cl0), {}, free + Members(cl0));
    if ok {
      WritingDone(g, v1, x.V(), dir, cl, k, NameEntries(units, lfnCount, entry), positions);
      ReservedIsCreated(DirSlots(g, v, cl0[..m]), DirSlots(g, v1, cl), DirSlots(g, x.V(), cl), g, cl, n, positions,
                        leaf, lfnCount, entry);
    }
  }

  lemma AliasNamed(name: ShortName, leaf: seq<Byte>, n: nat)
    requires 1 <= n <= 999 && name == Alias(leaf, n)
    ensures IsAlias(name, leaf)
  {
  }

  lemma NotNeeded(slots: seq<Slot>, leaf: seq<Byte>)
    requires Fits83(leaf) && StandsFor(Exact(leaf), leaf)
    ensures !Taken(slots, Exact(leaf), |slots|) ==> !NeedsLong(slots, leaf)
  {
  }

  lemma UnitCount(leaf: seq<Byte>)
    requires Accepted(leaf)
    ensures var u := Units(leaf, 0).value; ValidUnits(u) && 1 <= |u| <= 255
  {
    hide Units;
    UnitsBounds(leaf, 0);
  }

  lemma RunWriting(g: Geometry, v: View, dir: nat, cl: seq<nat>, n: nat, positions: seq<Position>)
    requires IsDir(g, v, dir, cl) && FreeRun(g, cl, DirSlots(g, v, cl), n, positions)
    ensures n >= |positions| && Writing(g, v, v, dir, cl, n - |positions|, [], positions)
  {
    hide Layout, Shaped, Clusters, DirSlots, SlotAt;
  }

  lemma WritingDone(g: Geometry, v: View, w: View, dir: nat, cl: seq<nat>, k: nat, es: seq<Slot>,
                    positions: seq<Position>)
    requires Writing(g, v, w, dir, cl, k, es, positions)
    ensures IsDir(g, v, dir, cl) && IsDir(g, w, dir, cl) && Layout(g) && Shaped(g, v) && Shaped(g, w) && Clusters(g, cl)
    ensures Written(DirSlots(g, v, cl), DirSlots(g, w, cl), k, es)
    ensures forall i :: 0 <= i < |positions| ==> SlotAt(g, cl, k + i, positions[i])
  {
    hide Multiples, Places, Addresses, DirSlots, SlotAt;
  }

  // ----- creating a file with contents

  lemma DirKept(g: Geometry, v: View, w: View, f: set<nat>, h: set<nat>, dir: nat, cl: seq<nat>)
    requires IsDir(g, v, dir, cl) && Shaped(g, w) && Within(g, v, w, f, h) && Members(cl) !! f && Members(cl) !! h
    ensures IsDir(g, w, dir, cl) && DirSlots(g, w, cl) == DirSlots(g, v, cl)
  {
    hide Multiples, Places, Addresses, Capacities, Chain, DirSlots, Within;
    ChainKept(g, v, w, f, h, cl);
    SlotsKept(g, v, w, f, h, cl);
  }

  /** The chain of the data is left alone while the name is being created. */
  lemma DataStands(g: Geometry, s: State, t: State, u: State, first: nat, ncl: seq<nat>, data: seq<Byte>, h: set<nat>)
    requires Stored(g, s, t, first, ncl, data) && first != 0 && Moved(g, t, u, h, h) && Members(ncl) !! h
    ensures |u| >= 1 && ChainFrom(g, u[0], first, ncl)
  {
    hide Multiples, Places, Addresses, Capacities, Holds, Free;
    assert |t| >= 1 && Within(g, t[0], u[0], h, h);
    ChainKept(g, t[0], u[0], h, h, ncl);
  }

  /** So it can be given back. */
  lemma DataBack(g: Geometry, s: State, t: State, u: State, w: State, first: nat, ncl: seq<nat>, data: seq<Byte>)
    requires Stored(g, s, t, first, ncl, data) && |u| >= 1 && Chain(g, u[0], ncl) && FreedState(g, u, w, ncl)
    requires g.clusterCount + 2 <= EOC
    ensures |u[0].fat| == |w[0].fat| == g.clusterCount + 2 && g.clusterSize > 0
    ensures |Free(g, w[0])| == |Free(g, u[0])| + ClustersFor(g, |data|)
  {
    hide Multiples, Places, Addresses, Capacities, Holds, Free, Freed;
    assert Freed(g, u[0], w[0], ncl);
    FreedShape(g, u[0], w[0], ncl);
    FreedCount(g, u[0], w[0], ncl);
  }

  lemma FreedShape(g: Geometry, v: View, w: View, cl: seq<nat>)
    requires Freed(g, v, w, cl)
    ensures |v.fat| == |w.fat| == g.clusterCount + 2
  {
  }

  lemma NoData(g: Geometry, s: State, t: State, first: nat, ncl: seq<nat>, data: seq<Byte>)
    requires Stored(g, s, t, first, ncl, data) && first == 0
    ensures g.clusterSize > 0 && ClustersFor(g, |data|) == 0
  {
    hide Multiples, Places, Addresses, Capacities, Holds, Free;
  }

  lemma StoredFree(g: Geometry, s: State, t: State, first: nat, ncl: seq<nat>, data: seq<Byte>)
    requires Stored(g, s, t, first, ncl, data)
    ensures |s| >= 1 && |t| >= 1 && |s[0].fat| == |t[0].fat| == g.clusterCount + 2 && g.clusterSize > 0
    ensures |Free(g, t[0])| == |Free(g, s[0])| - ClustersFor(g, |data|)
  {
    hide Multiples, Places, Addresses, Holds, Free;
  }

  lemma NewApart(g: Geometry, s: State, t: State, first: nat, ncl: seq<nat>, data: seq<Byte>, dir: nat, cl: seq<nat>)
    requires Stored(g, s, t, first, ncl, data) && Moved(g, s, t, Free(g, s[0]), Free(g, s[0]))
             && IsDir(g, s[0], dir, cl)
    ensures Members(cl) !! Free(g, s[0]) && Free(g, t[0]) <= Free(g, s[0])
    ensures Members(ncl) !! (Free(g, t[0]) + Members(cl)) + (Free(g, t[0]) + Members(cl))
    ensures IsDir(g, t[0], dir, cl) && DirSlots(g, t[0], cl) == DirSlots(g, s[0], cl)
  {
    hide Multiples, Places, Addresses, Capacities, Chain, DirSlots, Within, Holds, Members, Free;
    StoredShape(g, s, t, first, ncl, data);
    ChainNotFree(g, s[0], cl);
    assert Within(g, s[0], t[0], Free(g, s[0]), Free(g, s[0]));
    DirKept(g, s[0], t[0], Free(g, s[0]), Free(g, s[0]), dir, cl);
  }

  /** fat32_context_write_file for a name that does not exist yet: store the data, then create the name.
      created holds the five bytes of the creation time. */
  method CreateFile(x: Context, dir: nat, leaf: seq<Byte>, data: seq<Byte>, stamp: Stamp, created: seq<Byte>,
                    ghost cl0: seq<nat>)
    returns (ok: bool, entry: Slot, positions: seq<Position>, ghost cl: seq<nat>, ghost k: nat, ghost m: nat)
    requires x.Valid() && IsDir(x.G(), x.V(), dir, cl0) && CString(leaf) && |created| == 5
    modifies x`trail, x`freeCount, x`nextFree, x.m
    ensures x.Valid() && x.m.faults >= old(x.m.faults)
    ensures Trail(x.G(), old(x.trail), x.trail, Free(x.G(), old(x.V())) + Members(cl0),
                  Free(x.G(), old(x.V())) + Members(cl0))
    ensures ok ==> Accepted(leaf) && |positions| > 0
    ensures ok ==>
              && 0 < m <= |cl0| && cl0[..m] <= cl && IsDir(x.G(), x.V(), dir, cl) && Clusters(x.G(), cl0[..m])
              && Reads(x.G(), x.V(), entry, data) && entry[11] == ARCHIVE
              && Created(DirSlots(x.G(), old(x.V()), cl0[..m]), DirSlots(x.G(), x.V(), cl), leaf, k, |positions| - 1,
                         entry)
              && (forall i :: 0 <= i < |positions| ==> SlotAt(x.G(), cl, k + i, positions[i]))
    ensures ok && x.m.faults == old(x.m.faults) ==>
              m == |cl0| && Shape(DirSlots(x.G(), old(x.V()), cl0), leaf, |positions| - 1, entry)
    ensures !ok && x.m.faults == old(x.m.faults) ==>
              || |data| > 0xFFFF_FFFF || old(Scarce(x, ClustersFor(x.G(), |data|)))
              || !Accepted(leaf) || AllTaken(DirSlots(x.G(), old(x.V()), cl0), leaf, 1000)
              || |Free(x.G(), old(x.V()))| < ClustersFor(x.G(), |data|) + 2
    ensures !ok && x.m.faults == old(x.m.faults) ==> |Free(x.G(), x.V())| >= |Free(x.G(), old(x.V()))| - 1
  {
    hide Multiples, Places, Addresses, Capacities, Shaped, ViewOf, StateOf, Traced, Copies, Trail, DirSlots, Clusters,
         SlotAt, IsDir, Chain, Free, Taken, Is83, Created, Accepted, Members, Stored, Reads, Moved, NewEntry, First,
         Size, Units, Closed, Shape, AllTaken, Scarce, ClustersFor;
    ghost var g, t0, s0 := x.G(), x.trail, x.S();
    DirMeans(g, s0[0], dir, cl0);
    ghost var free, both := Free(g, s0[0]), Free(g, s0[0]) + Members(cl0);
    TrailStay(g, t0);
    TrailWiden(g, t0, t0, {}, {}, both, both);
    ok, entry, positions, cl, k, m := false, Zeros(32), [], cl0, 0, |cl0|;
    if |data| > 0xFFFF_FFFF {
      return;
    }
    var first;
    ghost var ncl;
    ok, first, ncl := StoreData(x, data);
    ghost var t1, s1, v1 := x.trail, x.S(), x.V();
    TrailWiden(g, t0, t1, free, free, both, both);
    if !ok {
      if x.m.faults == old(x.m.faults) {
        SameFatFree(g, s0[0], v1);
      }
      return;
    }
    TrailEnd(g, t0, t1, free, free);
    StoredFirst(g, s0, s1, first, ncl, data);
    NewApart(g, s0, s1, first, ncl, data, dir, cl0);
    StoredFree(g, s0, s1, first, ncl, data);
    var target := NewEntry(Splice(Zeros(32), 13, created), first, |data|, stamp);
    ghost var more := Free(g, s1[0]) + Members(cl0);
    ok, entry, positions, cl, k, m := WriteNamedEntry(x, dir, leaf, target, cl0);
    ghost var t2 := x.trail;
    TrailMore(g, t0, t1, t2, both, both, more, more);
    TrailEnd(g, t1, t2, more, more);
    if !ok {
      if first != 0 {
        StillClosed(g, s1, x.S(), ncl, more);
        ghost var u := x.S();
        DataStands(g, s0, s1, u, first, ncl, data, more);
        var freed := FreeChain(x, first, Members(ncl));
        TrailMore(g, t0, t2, x.trail, both, both, Members(ncl), {});
        if x.m.faults == old(x.m.faults) {
          DataBack(g, s0, s1, u, x.S(), first, ncl, data);
        }
      } else {
        NoData(g, s0, s1, first, ncl, data);
      }
      return;
    }
    SameFields(entry, target);
    MovedFirst(g, s1, x.S(), more);
    StoredReads(g, s0, s1, x.V(), more, more, ncl, entry, data);
    PartKept(g, s0[0], s1[0], dir, cl0, m);
  }

  /** The first clusters of a directory whose slots are unchanged hold unchanged slots. */
  lemma PartKept(g: Geometry, v: View, w: View, dir: nat, cl: seq<nat>, m: nat)
    requires IsDir(g, v, dir, cl) && IsDir(g, w, dir, cl) && 0 < m <= |cl|
    requires Layout(g) && Shaped(g, v) && Shaped(g, w) && Clusters(g, cl) && DirSlots(g, w, cl) == DirSlots(g, v, cl)
    ensures Clusters(g, cl[..m]) && DirSlots(g, w, cl[..m]) == DirSlots(g, v, cl[..m])
  {
    hide Multiples, Places, Addresses, Shaped, Chain, DirSlots;
    FirstWhole(g, cl, m);
    PartSlots(g, v, cl, m, g.capacity[m] / 32);
    PartSlots(g, w, cl, m, g.capacity[m] / 32);
  }

  lemma MovedFirst(g: Geometry, s: State, t: State, h: set<nat>)
    requires Moved(g, s, t, h, h) && |s| >= 1
    ensures Within(g, s[0], t[0], h, h)
  {
  }

  lemma StillClosed(g: Geometry, s: State, t: State, cl: seq<nat>, h: set<nat>)
    requires |s| >= 1 && Moved(g, s, t, h, h) && Members(cl) !! h + h && Closed(g, s[0], Members(cl))
    ensures |t| >= 1 && Closed(g, t[0], Members(cl))
  {
    assert Within(g, s[0], t[0], h, h);
  }

  lemma SameFields(a: Slot, b: Slot)
    requires a[11..] == b[11..]
    ensures First(a) == First(b) && Size(a) == Size(b) && a[11] == b[11]
  {
    assert forall i :: 11 <= i < 32 ==> a[i] == a[11..][i - 11] == b[11..][i - 11] == b[i];
  }

  // ----- creating a file and looking it up

  /** Look a name up in a tidy directory, create the file when it is not there, and look it up again.
      Without device errors the second search finds exactly the file that was created, if and only if the
      name is findable, and the directory is tidy again. */
  method CreateThenSearch(x: Context, dir: nat, leaf: seq<Byte>, data: seq<Byte>, stamp: Stamp, created: seq<Byte>,
                          ghost cl0: seq<nat>)
    returns (ok: bool, entry: Slot, positions: seq<Position>, found: bool, entry': Slot, positions': seq<Position>,
             ghost cl: seq<nat>)
    requires x.Valid() && IsDir(x.G(), x.V(), dir, cl0) && CString(leaf) && |leaf| <= 255 && |created| == 5
    requires TidyDir(x.G(), x.V(), cl0)
    modifies x`trail, x`freeCount, x`nextFree, x.m
    ensures x.Valid() && x.m.faults >= old(x.m.faults)
    ensures ok && x.m.faults == old(x.m.faults) ==>
              && TidyDir(x.G(), x.V(), cl) && Reads(x.G(), x.V(), entry, data) && Accepted(leaf)
              && (found <==> Findable(DirSlots(x.G(), old(x.V()), cl0), leaf))
              && (found ==> entry' == entry && positions' == positions)
  {
    hide Multiples, Places, Addresses, Capacities, Shaped, ViewOf, StateOf, Traced, Copies, Trail, DirSlots, Clusters,
         SlotAt, IsDir, Chain, Free, Created, Accepted, Members, Reads, Shape, Findable, Tidy, Find, Units, StandsFor,
         FoundAt;
    ghost var g, v := x.G(), x.V();
    DirMeans(g, v, dir, cl0);
    entry, positions, entry', positions', cl := Zeros(32), [], Zeros(32), [], cl0;
    var k;
    found, k, entry', positions' := FindNamedEntry(x, dir, leaf, cl0);
    if found {
      return false, entry, positions, found, entry', positions', cl;
    }
    assert x.V() == v;
    ghost var slot, m;
    ok, entry, positions, cl, slot, m := CreateFile(x, dir, leaf, data, stamp, created, cl0);
    if !ok {
      return;
    }
    ghost var exact := x.m.faults == old(x.m.faults);
    ghost var a := DirSlots(g, v, cl0);
    DirMeans(g, x.V(), dir, cl);
    if exact {
      assert cl0[..m] == cl0;
      FindableIff(a, leaf, |positions| - 1, entry);
      FileEntry(entry);
      CreatedTidy(a, DirSlots(g, x.V(), cl), leaf, slot, |positions| - 1, entry);
      CreateThenFind(a, DirSlots(g, x.V(), cl), leaf, slot, |positions| - 1, entry);
    }
    ghost var w := x.V();
    found, k, entry', positions' := FindNamedEntry(x, dir, leaf, cl);
    if found && x.m.faults == old(x.m.faults) {
      FoundIsCreated(g, w, cl, a, leaf, slot, entry, positions, k, entry', positions');
      FoundMeans(g, w, cl, leaf, k, entry', positions');
    }
  }

  ghost predicate TidyDir(g: Geometry, v: View, cl: seq<nat>) {
    Layout(g) && Shaped(g, v) && Clusters(g, cl) && Tidy(DirSlots(g, v, cl))
  }

  lemma FileEntry(e: Slot)
    requires e[11] == ARCHIVE
    ensures !IsLfn(e) && !Bit(e[11], VOLUME_ID)
  {
    assert Bit(0x20, 3) == Bit(0x10, 2) == Bit(0x8, 1) == Bit(0x4, 0);
  }

  lemma FoundMeans(g: Geometry, v: View, cl: seq<nat>, leaf: seq<Byte>, k: nat, entry: Slot, positions: seq<Position>)
    requires Layout(g) && Shaped(g, v) && Clusters(g, cl) && FoundAt(g, v, cl, leaf, k, entry, positions)
    ensures Find(DirSlots(g, v, cl), leaf, |DirSlots(g, v, cl)|).Found?
  {
    hide Find, DirSlots;
  }
}
