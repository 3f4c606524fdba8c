/** Long and short names in FAT32 directories, and the search for a name. */
module Fat32Names {
  import opened Bytes
  import opened Bits
  import opened Unicode

  const DELETED: Byte := 0xE5
  const LFN_ATTRIBUTES: Byte := 0x0F
  const VOLUME_ID: nat := 3
  const MAX_LFN_ENTRIES: nat := 20

  predicate IsFree(e: Slot) {
    e[0] == 0 || e[0] == DELETED
  }

  predicate IsLfn(e: Slot) {
    e[11] % 16 == 15
  }

  // ----- long name entries

  /** Where unit i of the 13 units of an entry is stored. */
  function UnitPos(i: nat): (p: nat)
    requires i < 13
    ensures p + 2 <= 32
  {
    if i < 5 then 1 + 2 * i else if i < 11 then 14 + 2 * (i - 5) else 28 + 2 * (i - 11)
  }

  /** Unit i of a long name: the name, one terminator if there is room, then padding. */
  function Padded(u: seq<nat>, i: nat): (w: nat)
    requires ValidUnits(u)
    ensures w < 0x1_0000
  {
    if i < |u| then u[i] else if i == |u| then 0 else 0xFFFF
  }

  predicate ValidUnits(u: seq<nat>) {
    forall i :: 0 <= i < |u| ==> u[i] < 0x1_0000
  }

  /** Byte p of an entry that stores the units c. */
  function EntryByte(order: Byte, sum: Byte, c: seq<nat>, p: nat): Byte
    requires |c| == 13 && ValidUnits(c) && p < 32
  {
    if p == 0 then order
    else if p == 11 then LFN_ATTRIBUTES
    else if p == 13 then sum
    else if p == 12 || p == 26 || p == 27 then 0
    else
      var i := if p < 11 then (p - 1) / 2 else if p < 26 then 5 + (p - 14) / 2 else 11 + (p - 28) / 2;
      if (p < 11) == (p % 2 == 1) then c[i] % 0x100 else c[i] / 0x100
  }

  function EntryBytes(order: Byte, sum: Byte, c: seq<nat>): (e: Slot)
    requires |c| == 13 && ValidUnits(c)
    ensures forall p :: 0 <= p < 32 ==> e[p] == EntryByte(order, sum, c, p)
  {
    seq<Byte>(32, p requires 0 <= p < 32 => EntryByte(order, sum, c, p))
  }

  lemma EntryUnit(order: Byte, sum: Byte, c: seq<nat>, i: nat)
    requires |c| == 13 && ValidUnits(c) && i < 13
    ensures U16(EntryBytes(order, sum, c), UnitPos(i)) == c[i]
  {
    var e, p := EntryBytes(order, sum, c), UnitPos(i);
    assert e[p] == c[i] % 0x100 && e[p + 1] == c[i] / 0x100;
  }

  function PartUnits(u: seq<nat>, ordinal: nat): (c: seq<nat>)
    requires ValidUnits(u) && ordinal >= 1
    ensures |c| == 13 && forall i :: 0 <= i < 13 ==> c[i] == Padded(u, 13 * (ordinal - 1) + i)
    ensures ValidUnits(c)
  {
    seq<nat>(13, i requires 0 <= i => Padded(u, 13 * (ordinal - 1) + i))
  }

  /** fat32_build_lfn_entry */
  function LfnEntry(u: seq<nat>, ordinal: nat, total: nat, sum: Byte): (e: Slot)
    requires ValidUnits(u) && 1 <= ordinal <= total <= 20
  {
    EntryBytes(ordinal + (if ordinal == total then 0x40 else 0), sum, PartUnits(u, ordinal))
  }

  lemma LfnFields(u: seq<nat>, ordinal: nat, total: nat, sum: Byte)
    requires ValidUnits(u) && 1 <= ordinal <= total <= 20
    ensures var e := LfnEntry(u, ordinal, total, sum);
            && e[0] == ordinal + (if ordinal == total then 0x40 else 0)
            && e[11] == LFN_ATTRIBUTES && e[12] == 0 && e[13] == sum && U16(e, 26) == 0
            && (forall i :: 0 <= i < 13 ==> U16(e, UnitPos(i)) == Padded(u, 13 * (ordinal - 1) + i))
            && (forall i :: 0 <= i < 13 ==>
                  var w := U16(e, if i < 5 then 1 + 2 * i else if i < 11 then 4 + 2 * i else 6 + 2 * i);
                  var k := 13 * (ordinal - 1) + i;
                  (k < |u| ==> w == u[k]) && (k == |u| ==> w == 0) && (k > |u| ==> w == 0xFFFF))
  {
    var order := ordinal + (if ordinal == total then 0x40 else 0);
    forall i | 0 <= i < 13
      ensures U16(LfnEntry(u, ordinal, total, sum), UnitPos(i)) == Padded(u, 13 * (ordinal - 1) + i)
    {
      EntryUnit(order, sum, PartUnits(u, ordinal), i);
    }
  }

  /** What has been collected of a long name. */
  datatype Lfn = Lfn(name: seq<nat>, sum: Byte, valid: bool)

  predicate ValidLfn(l: Lfn) {
    |l.name| == 256 && forall k :: 0 <= k < 256 ==> l.name[k] < 0x1_0000
  }

  /** lfn_reset */
  function NoLfn(): (l: Lfn)
    ensures ValidLfn(l) && !l.valid && forall k :: 0 <= k < 256 ==> l.name[k] == 0xFFFF
  {
    Lfn(seq(256, _ => 0xFFFF), 0, false)
  }

  /** The name with the 13 units of an entry laid over it from unit base on; unit 255 stays out of reach. */
  function Overlay(name: seq<nat>, base: nat, e: Slot): (r: seq<nat>)
    requires |name| == 256
    ensures |r| == 256
    ensures forall k :: 0 <= k < 256 ==> r[k] == OverlayUnit(name, base, e, k)
  {
    seq<nat>(256, k requires 0 <= k < 256 => OverlayUnit(name, base, e, k))
  }

  function OverlayUnit(name: seq<nat>, base: nat, e: Slot, k: nat): nat
    requires |name| == 256 && k < 256
  {
    if base <= k < base + 13 && k < 255 then U16(e, UnitPos(k - base)) else name[k]
  }

  /** lfn_accept; a refused entry makes the caller forget what was collected. */
  function Accept(l: Lfn, e: Slot): (r: Option<Lfn>)
    requires ValidLfn(l)
    ensures r.Some? ==> ValidLfn(r.value)
  {
    var ordinal := e[0] % 32;
    if ordinal == 0 || ordinal > 20 || e[12] != 0 || U16(e, 26) != 0 then None
    else if e[0] / 64 % 2 == 1 then Some(Lfn(Overlay(NoLfn().name, 13 * (ordinal - 1), e), e[13], true))
    else if !l.valid || e[13] != l.sum then None
    else Some(l.(name := Overlay(l.name, 13 * (ordinal - 1), e)))
  }

  // ----- short names

  type ShortName = s: seq<Byte> | |s| == 11 witness Zeros(11)

  /** fat32_short_checksum: rotate right by one bit and add, in 8 bits. */
  function ShortSum(name: ShortName, n: nat): (r: Byte)
    requires n <= 11
  {
    if n == 0 then 0
    else
      var sum := ShortSum(name, n - 1);
      (sum % 2 * 0x80 + sum / 2 + name[n - 1]) % 0x100
  }

  /** It is the rotating 8-bit sum of the bytes of the name. */
  lemma {:induction false} ShortSums(name: ShortName, n: nat)
    requires n <= 11
    ensures SumsTo(name[..n], ShortSum(name, n), 8)
  {
    hide SumsTo, Rotated;
    if n == 0 {
      SumsToNothing(8);
    } else {
      ShortSums(name, n - 1);
      var sum := ShortSum(name, n - 1);
      assert Pow2(7) == 0x80;
      assert Pow2(8) == 0x100;
      RotatedWord(sum, 8);
      var r := (if sum as int % 2 == 1 then 0x80 else 0) + sum as int / 2;
      assert Rotated(sum, r, 8);
      assert Adds(sum, name[n - 1], ShortSum(name, n), 8);
      SumsToMore(name[..n - 1], sum, name[n - 1], ShortSum(name, n), 8);
      assert name[..n] == name[..n - 1] + [name[n - 1]];
    }
  }

  method ShortChecksum(name: ShortName) returns (sum: Byte)
    ensures sum == ShortSum(name, 11) && SumsTo(name, sum, 8)
  {
    hide SumsTo;
    ShortSums(name, 11);
    assert name[..11] == name;
    sum := 0;
    for index := 0 to 11
      invariant sum == ShortSum(name, index)
    {
      sum := (sum % 2 * 0x80 + sum / 2 + name[index]) % 0x100;
    }
  }

  /** The bytes before the first stop byte. */
  function Before(s: seq<Byte>, stop: Byte): (r: seq<Byte>)
    ensures |r| <= |s| && r == s[..|r|] && (|r| < |s| ==> s[|r|] == stop) && forall i :: 0 <= i < |r| ==> r[i] != stop
  {
    if |s| == 0 || s[0] == stop then [] else [s[0]] + Before(s[1..], stop)
  }

  /** format_name, as the C string that it leaves. */
  function Format(name: ShortName): seq<Byte> {
    var extension := if name[8] != 0x20 then [0x2E] + Before(name[8..], 0x20) else [];
    Before(Before(name[..8], 0x20) + extension, 0)
  }

  function Up(b: Byte): Byte {
    if 0x61 <= b <= 0x7A then b - 32 else b
  }

  /** entry_matches and utf8_name_matches: equal up to the case of ASCII letters. */
  predicate Matches(left: seq<Byte>, right: seq<Byte>) {
    |left| == |right| && forall i :: 0 <= i < |left| ==> Up(left[i]) == Up(right[i])
  }

  // ----- searching

  /** State of a search: the long name collected so far and the number of its entries. */
  datatype Seek = Seek(lfn: Lfn, count: nat)

  function Idle(): Seek {
    Seek(NoLfn(), 0)
  }

  predicate ValidSeek(st: Seek) {
    ValidLfn(st.lfn) && st.count <= MAX_LFN_ENTRIES
  }

  lemma IdleIsValid()
    ensures ValidSeek(Idle())
  {
  }

  /** Does a short entry, behind the collected long name, carry the name? */
  predicate Named(lfn: Lfn, e: Slot, leaf: seq<Byte>)
    requires ValidLfn(lfn)
  {
    || Matches(Format(e[..11]), leaf)
    || (lfn.valid && lfn.sum == ShortSum(e[..11], 11) && Matches(Text(lfn.name, 0, 0), leaf))
  }

  /** Where a search stands before a slot, or how it ended. */
  datatype Search = Going(st: Seek) | Ended | Found(slot: nat, entry: Slot, lfnCount: nat)

  /** One slot of the directory. */
  function SeekSlot(st: Seek, e: Slot, index: nat, leaf: seq<Byte>): (r: Search)
    requires ValidSeek(st)
    ensures r.Going? ==> ValidSeek(r.st)
  {
    IdleIsValid();
    if e[0] == 0 then Ended
    else if e[0] == DELETED then Going(Idle())
    else if IsLfn(e) then
      var l := Accept(st.lfn, e);
      if st.count >= MAX_LFN_ENTRIES || l.None? then Going(Idle()) else Going(Seek(l.value, st.count + 1))
    else if !Bit(e[11], VOLUME_ID) && Named(st.lfn, e, leaf) then Found(index, e, st.count)
    else Going(Idle())
  }

  /** The search after the first n slots. */
  function Find(slots: seq<Slot>, leaf: seq<Byte>, n: nat): (r: Search)
    requires n <= |slots|
    ensures r.Going? ==> ValidSeek(r.st)
  {
    if n == 0 then IdleIsValid(); Going(Idle())
    else
      var r := Find(slots, leaf, n - 1);
      if r.Going? then SeekSlot(r.st, slots[n - 1], n - 1, leaf) else r
  }

  lemma {:induction false} FindSame(a: seq<Slot>, b: seq<Slot>, leaf: seq<Byte>, n: nat)
    requires n <= |a| && n <= |b| && forall i :: 0 <= i < n ==> a[i] == b[i]
    ensures Find(a, leaf, n) == Find(b, leaf, n)
  {
    if n > 0 {
      FindSame(a, b, leaf, n - 1);
    }
  }

  lemma {:induction false} FindOver(slots: seq<Slot>, leaf: seq<Byte>, i: nat, n: nat)
    requires i <= n <= |slots| && !Find(slots, leaf, i).Going?
    ensures Find(slots, leaf, n) == Find(slots, leaf, i)
  {
    if i < n {
      FindOver(slots, leaf, i, n - 1);
    }
  }

  /** A search that has not met its name is still going unless it met an end mark. */
  lemma {:induction false} FindGoing(slots: seq<Slot>, leaf: seq<Byte>, n: nat)
    requires n <= |slots| && !Find(slots, leaf, n).Found?
    ensures Find(slots, leaf, n).Ended? <==> exists i :: 0 <= i < n && slots[i][0] == 0
  {
    if n > 0 {
      FindGoing(slots, leaf, n - 1);
    }
  }

  // ----- a name that has just been written is found

  /** The entries that fat32_write_named_entry writes: the long name, last part first, and the short entry. */
  function NameEntries(u: seq<nat>, total: nat, e: Slot): (r: seq<Slot>)
    requires ValidUnits(u) && total <= MAX_LFN_ENTRIES
    ensures |r| == total + 1 && r[total] == e
    ensures forall i :: 0 <= i < total ==> r[i] == LfnEntry(u, total - i, total, ShortSum(e[..11], 11))
  {
    hide LfnEntry, ShortSum;
    seq<Slot>(total, i requires 0 <= i < total => LfnEntry(u, total - i, total, ShortSum(e[..11], 11))) + [e]
  }

  /** The long name as it stands after the parts total, total - 1, ..., down to ordinal have been read. */
  ghost predicate Collected(l: Lfn, u: seq<nat>, ordinal: nat, total: nat, sum: Byte) {
    && ValidUnits(u) && ValidLfn(l) && l.valid && l.sum == sum
    && forall k {:trigger l.name[k]} :: 0 <= k < 256 ==>
         l.name[k] == if 13 * (ordinal - 1) <= k < 13 * total && k < 255 then Padded(u, k) else 0xFFFF
  }

  lemma AcceptPart(l: Lfn, u: seq<nat>, ordinal: nat, total: nat, sum: Byte)
    requires ValidUnits(u) && 1 <= ordinal <= total <= 20 && ValidLfn(l)
    requires ordinal < total ==> Collected(l, u, ordinal + 1, total, sum)
    ensures var r := Accept(l, LfnEntry(u, ordinal, total, sum)); r.Some? && Collected(r.value, u, ordinal, total, sum)
  {
    hide LfnEntry, UnitPos, U16;
    LfnFields(u, ordinal, total, sum);
    var e := LfnEntry(u, ordinal, total, sum);
    assert e[0] as int % 32 == ordinal;
    assert (e[0] as int / 64 % 2 == 1) <==> ordinal == total;
    var r := Accept(l, e).value;
    forall k | 0 <= k < 256
      ensures r.name[k] == if 13 * (ordinal - 1) <= k < 13 * total && k < 255 then Padded(u, k) else 0xFFFF
    {
      if 13 * (ordinal - 1) <= k < 13 * ordinal && k < 255 {
        assert U16(e, UnitPos(k - 13 * (ordinal - 1))) == Padded(u, 13 * (ordinal - 1) + (k - 13 * (ordinal - 1)));
      }
    }
  }

  /** Reading the parts of a freshly written long name. */
  lemma {:induction false} FindParts(slots: seq<Slot>, leaf: seq<Byte>, k: nat, u: seq<nat>, total: nat, e: Slot,
                                     n: nat)
    requires ValidUnits(u) && 1 <= n <= total <= MAX_LFN_ENTRIES && k + total < |slots|
    requires slots[k..k + total + 1] == NameEntries(u, total, e)
    requires Find(slots, leaf, k) == Going(Idle())
    ensures var r := Find(slots, leaf, k + n);
            r.Going? && r.st.count == n && Collected(r.st.lfn, u, total - n + 1, total, ShortSum(e[..11], 11))
  {
    hide LfnEntry, ShortSum, Accept, Collected, Named, Padded, Bit;
    var ordinal, sum := total - n + 1, ShortSum(e[..11], 11);
    LfnFields(u, ordinal, total, sum);
    if n > 1 {
      FindParts(slots, leaf, k, u, total, e, n - 1);
    }
    assert slots[k + (n - 1)] == slots[k..k + total + 1][n - 1] == LfnEntry(u, ordinal, total, sum);
    AcceptPart(Find(slots, leaf, k + n - 1).st.lfn, u, ordinal, total, sum);
  }

  /** The whole long name, once collected, reads as the name it was made from, up to its first U+FFFF. */
  lemma CollectedText(l: Lfn, s: seq<Byte>, total: nat, sum: Byte)
    requires Accepted(s) && |s| <= 255 && total == (|Units(s, 0).value| + 12) / 13
    requires Collected(l, Units(s, 0).value, 1, total, sum)
    ensures Text(l.name, 0, 0) == UpToMark(s, 0)
  {
    hide Units, Text, UpToMark;
    var u := Units(s, 0).value;
    assert forall k :: 0 <= k < |u| ==> l.name[k] == u[k];
    assert l.name[0..0 + |u|] == u;
    TextOfUnits(l.name, 0, s, 0);
  }

  /** How a short name can stand for a leaf without a long name. */
  predicate StandsFor(name: ShortName, leaf: seq<Byte>) {
    Matches(Format(name), leaf)
  }

  /** Entries made for leaf, total for its long name and the short one e, answer to leaf2: the short entry
      is not taken for a deleted one, and it or the long name, as far as that is read, is leaf2. */
  predicate Answers(leaf2: seq<Byte>, leaf: seq<Byte>, total: nat, e: Slot)
    requires CString(leaf)
  {
    e[0] != DELETED && (StandsFor(e[..11], leaf2) || (total > 0 && Matches(UpToMark(leaf, 0), leaf2)))
  }

  /** The entries that fat32_write_named_entry writes for leaf, at slot k. */
  ghost predicate NameAt(slots: seq<Slot>, leaf: seq<Byte>, k: nat, total: nat, e: Slot) {
    && Accepted(leaf) && |leaf| <= 255 && ValidUnits(Units(leaf, 0).value) && total <= MAX_LFN_ENTRIES
    && (if total == 0 then StandsFor(e[..11], leaf) else total == (|Units(leaf, 0).value| + 12) / 13)
    && e[0] != 0 && !IsLfn(e) && !Bit(e[11], VOLUME_ID)
    && k + total < |slots| && slots[k..k + total + 1] == NameEntries(Units(leaf, 0).value, total, e)
  }

  /** A search for leaf2 that reaches these entries with nothing collected finds them if and only if they
      answer to leaf2, and else goes on behind them with nothing collected. */
  lemma WrittenSeek(slots: seq<Slot>, leaf: seq<Byte>, leaf2: seq<Byte>, k: nat, total: nat, e: Slot)
    requires NameAt(slots, leaf, k, total, e) && Find(slots, leaf2, k) == Going(Idle())
    ensures Find(slots, leaf2, k + total + 1) ==
            if Answers(leaf2, leaf, total, e) then Found(k + total, e, total) else Going(Idle())
  {
    hide LfnEntry, ShortSum, Accept, Collected, Text, Units, Format, UpToMark;
    var u := Units(leaf, 0).value;
    assert slots[k + total] == slots[k..k + total + 1][total] == e;
    if total > 0 {
      FindParts(slots, leaf2, k, u, total, e, total);
      var st := Find(slots, leaf2, k + total).st;
      CollectedText(st.lfn, leaf, total, ShortSum(e[..11], 11));
      CollectedValid(st.lfn, u, 1, total, ShortSum(e[..11], 11));
      assert Named(st.lfn, e, leaf2) <==> StandsFor(e[..11], leaf2) || Matches(UpToMark(leaf, 0), leaf2);
    }
  }

  /** They answer to their own name if and only if the short entry does not begin with the deletion mark
      and, where there is a long name, the short one stands for the name or the name has no U+FFFF. */
  lemma AnswersItself(leaf: seq<Byte>, total: nat, e: Slot)
    requires Accepted(leaf) && (total == 0 ==> StandsFor(e[..11], leaf))
    ensures Answers(leaf, leaf, total, e) <==>
            e[0] != DELETED && (total == 0 || StandsFor(e[..11], leaf) || 0xFFFF !in Units(leaf, 0).value)
  {
    hide Units, UpToMark, StandsFor;
    UpToMarkAll(leaf, 0);
    assert leaf[0..0 + |leaf|] == leaf;
  }

  lemma CollectedValid(l: Lfn, u: seq<nat>, ordinal: nat, total: nat, sum: Byte)
    requires Collected(l, u, ordinal, total, sum)
    ensures ValidLfn(l) && l.valid && l.sum == sum
  {
  }

  /** A search that stands behind a complete entry, or behind a deleted one, has nothing collected. */
  lemma IdleBehind(slots: seq<Slot>, leaf: seq<Byte>, k: nat)
    requires k <= |slots| && Find(slots, leaf, k).Going? && (k > 0 ==> !IsLfn(slots[k - 1]))
    ensures Find(slots, leaf, k) == Going(Idle())
  {
  }

  /** What a search finds it finds behind the slots that it has passed. */
  lemma {:induction false} FoundLater(slots: seq<Slot>, leaf: seq<Byte>, k: nat, m: nat)
    requires k <= m <= |slots| && Find(slots, leaf, k).Going?
    ensures Find(slots, leaf, m).Found? ==> k <= Find(slots, leaf, m).slot < m
  {
    hide Named, Accept;
    if k < m {
      FoundLater(slots, leaf, k, m - 1);
    }
  }

  /** The name written at slot k of a directory a that did not have it, giving the directory b, is found
      if and only if no end mark comes before slot k and its entries answer to it. */
  lemma CreatedIsFound(a: seq<Slot>, b: seq<Slot>, leaf: seq<Byte>, k: nat, total: nat, e: Slot)
    requires NameAt(b, leaf, k, total, e)
    requires !Find(a, leaf, |a|).Found? && k <= |a| && a[..k] == b[..k] && (k > 0 ==> !IsLfn(a[k - 1]))
    ensures Find(b, leaf, |b|) == Found(k + total, e, total) <==>
            && (forall i :: 0 <= i < k ==> a[i][0] != 0)
            && e[0] != DELETED && (total == 0 || StandsFor(e[..11], leaf) || 0xFFFF !in Units(leaf, 0).value)
  {
    hide Units, StandsFor, SeekSlot, Find, NameAt, IsLfn, Answers;
    NameAtMeans(b, leaf, k, total, e);
    forall i | 0 <= i < k
      ensures a[i] == b[i]
    {
      assert a[i] == a[..k][i] == b[..k][i];
    }
    FindSame(a, b, leaf, k);
    if Find(a, leaf, k).Found? {
      FindOver(a, leaf, k, |a|);
      assert false;
    }
    FindGoing(a, leaf, k);
    AnswersItself(leaf, total, e);
    if Find(a, leaf, k).Ended? {
      FindOver(b, leaf, k, |b|);
    } else {
      IdleBehind(a, leaf, k);
      WrittenEnds(b, leaf, k, total, e);
    }
  }

  lemma NameAtMeans(slots: seq<Slot>, leaf: seq<Byte>, k: nat, total: nat, e: Slot)
    requires NameAt(slots, leaf, k, total, e)
    ensures Accepted(leaf) && (total == 0 ==> StandsFor(e[..11], leaf)) && k + total < |slots|
  {
    hide Units, StandsFor, NameEntries, IsLfn, Bit;
  }

  /** The search for the name itself ends at these entries if and only if they answer to it. */
  lemma WrittenEnds(slots: seq<Slot>, leaf: seq<Byte>, k: nat, total: nat, e: Slot)
    requires NameAt(slots, leaf, k, total, e) && Find(slots, leaf, k) == Going(Idle())
    ensures Accepted(leaf)
    ensures Find(slots, leaf, |slots|) == Found(k + total, e, total) <==> Answers(leaf, leaf, total, e)
  {
    hide Units, StandsFor, SeekSlot, Find, NameAt, Answers;
    NameAtMeans(slots, leaf, k, total, e);
    WrittenSeek(slots, leaf, leaf, k, total, e);
    if Answers(leaf, leaf, total, e) {
      FindOver(slots, leaf, k + total + 1, |slots|);
    } else {
      FoundLater(slots, leaf, k + total + 1, |slots|);
    }
  }

  // ----- other names are found as before

  /** A search with nothing collected passes over deleted entries. */
  lemma {:induction false} FindPassed(slots: seq<Slot>, leaf: seq<Byte>, k: nat, m: nat)
    requires k <= m <= |slots| && Find(slots, leaf, k) == Going(Idle()) && forall i :: k <= i < m ==>
               slots[i][0] == DELETED
    ensures Find(slots, leaf, m) == Going(Idle())
  {
    if k < m {
      FindPassed(slots, leaf, k, m - 1);
    }
  }

  /** Where nothing is in use nothing is found. */
  lemma {:induction false} FindNothing(slots: seq<Slot>, leaf: seq<Byte>, k: nat, m: nat)
    requires k <= m <= |slots| && !Find(slots, leaf, k).Found? && forall i :: k <= i < m ==> IsFree(slots[i])
    ensures !Find(slots, leaf, m).Found?
  {
    hide Named, Accept;
    if k < m {
      FindNothing(slots, leaf, k, m - 1);
    }
  }

  /** Two searches that agree before equal slots agree behind them. */
  lemma {:induction false} FindParallel(a: seq<Slot>, b: seq<Slot>, leaf: seq<Byte>, k: nat, m: nat)
    requires k <= m && m <= |a| && m <= |b| && Find(a, leaf, k) == Find(b, leaf, k) && forall i :: k <= i < m ==>
               a[i] == b[i]
    ensures Find(a, leaf, m) == Find(b, leaf, m)
  {
    hide Named, Accept;
    if k < m {
      FindParallel(a, b, leaf, k, m - 1);
    }
  }

  lemma EntriesInUse(u: seq<nat>, total: nat, e: Slot, i: nat)
    requires ValidUnits(u) && total <= MAX_LFN_ENTRIES && i <= total && e[0] != 0
    ensures NameEntries(u, total, e)[i][0] != 0 && (i < total ==>
                                                    NameEntries(u, total, e)[i][0] != DELETED
                                                    && IsLfn(NameEntries(u, total, e)[i]))
  {
    hide LfnEntry, ShortSum;
    if i < total {
      LfnFields(u, total - i, total, ShortSum(e[..11], 11));
    }
  }
}
