/** Directory entry sets of exFAT: how a file is written into 32-byte entries, and how a directory
    scan recognises it again. */
module ExfatEntries {
  import opened Bytes
  import opened Bits

  const ENTRY_FILE: nat := 0x85
  const ENTRY_STREAM: nat := 0xC0
  const ENTRY_NAME: nat := 0xC1

  /** What an entry set says about a file. */
  datatype Record = Record(attributes: nat, first: nat, length: nat, validLength: nat, contiguous: bool, name: seq<nat>)

  predicate ValidRecord(r: Record) {
    && r.attributes < 0x1_0000 && r.first < 0x1_0000_0000
    && r.length < 0x1_0000_0000_0000_0000 && r.validLength <= r.length
    && 1 <= |r.name| <= 255 && forall i :: 0 <= i < |r.name| ==> 0 <= r.name[i] < 0x1_0000
  }

  /** Number of entries of the set that holds a name of the given length. */
  function EntryCount(units: nat): nat {
    2 + (units + 14) / 15
  }

  // ----- checksum (section 6.3.3 of the exFAT specification)

  /** Rotate right by one bit, then add, in 16 bits. */
  function ChecksumStep(sum: nat, value: Byte): (r: nat)
    requires sum < 0x1_0000
    ensures r < 0x1_0000
  {
    (sum % 2 * 0x8000 + sum / 2 + value) % 0x1_0000
  }

  lemma StepAdds(sum: nat, value: Byte)
    requires sum < 0x1_0000
    ensures Adds(sum, value, ChecksumStep(sum, value), 16)
  {
    hide Rotated;
    assert Pow2(8) == 0x100;
    assert Pow2(15) == 0x8000;
    assert Pow2(16) == 0x1_0000;
    RotatedWord(sum, 16);
    var r := (if sum % 2 == 1 then 0x8000 else 0) + sum / 2;
    assert Rotated(sum, r, 16);
  }

  /** The bytes among the first n that the checksum covers: all but the two of its own field. */
  ghost function Covered(es: seq<Byte>, n: nat): seq<Byte>
    requires n <= |es|
  {
    if n <= 2 then es[..n] else if n <= 4 then es[..2] else es[..2] + es[4..n]
  }

  /** Checksum of the first n bytes, leaving out the checksum field itself. */
  function Checksum(es: seq<Byte>, n: nat): (r: nat)
    requires n <= |es|
    ensures r < 0x1_0000
  {
    if n == 0 then 0
    else if n == 3 || n == 4 then Checksum(es, n - 1)
    else ChecksumStep(Checksum(es, n - 1), es[n - 1])
  }

  /** It is the rotating 16-bit sum of the bytes covered. */
  lemma {:induction false} ChecksumSums(es: seq<Byte>, n: nat)
    requires n <= |es|
    ensures SumsTo(Covered(es, n), Checksum(es, n), 16)
  {
    hide ChecksumStep, SumsTo, Adds;
    if n == 0 {
      SumsToNothing(16);
    } else {
      ChecksumSums(es, n - 1);
      if n != 3 && n != 4 {
        StepAdds(Checksum(es, n - 1), es[n - 1]);
        SumsToMore(Covered(es, n - 1), Checksum(es, n - 1), es[n - 1], Checksum(es, n), 16);
        assert Covered(es, n) == Covered(es, n - 1) + [es[n - 1]];
      }
    }
  }

  /** The stored checksum does not influence the computed one. */
  lemma {:induction false} ChecksumIgnoresField(a: seq<Byte>, b: seq<Byte>, n: nat)
    requires |a| == |b| && n <= |a|
    requires forall i :: 0 <= i < n && i != 2 && i != 3 ==> a[i] == b[i]
    ensures Checksum(a, n) == Checksum(b, n)
  {
    if n > 0 {
      ChecksumIgnoresField(a, b, n - 1);
    }
  }

  method EntrySetChecksum(es: seq<Byte>, count: nat) returns (sum: nat)
    requires 32 * count <= |es|
    ensures sum == Checksum(es, 32 * count) && SumsTo(Covered(es, 32 * count), sum, 16)
  {
    hide ChecksumStep, SumsTo, Covered;
    ChecksumSums(es, 32 * count);
    sum := 0;
    for index := 0 to 32 * count
      invariant sum == Checksum(es, index)
    {
      if index != 2 && index != 3 {
        sum := ChecksumStep(sum, es[index]);
      }
    }
  }

  // ----- names

  /** The up-case table, or ASCII up-casing when there is none. */
  function Upcase(table: seq<nat>, c: nat): (u: nat)
    requires |table| == 0 || |table| == 0x1_0000
    requires c < 0x1_0000 && forall i :: 0 <= i < |table| ==> table[i] < 0x1_0000
    ensures u < 0x1_0000
  {
    if |table| != 0 then table[c] else if 'a' as int <= c <= 'z' as int then c - 32 else c
  }

  predicate ValidTable(table: seq<nat>) {
    (|table| == 0 || |table| == 0x1_0000) && forall i :: 0 <= i < |table| ==> table[i] < 0x1_0000
  }

  predicate ValidName(name: seq<nat>) {
    forall i :: 0 <= i < |name| ==> 0 <= name[i] < 0x1_0000
  }

  /** Hash of the first n up-cased name units. */
  function NameHash(table: seq<nat>, name: seq<nat>, n: nat): (h: nat)
    requires ValidTable(table) && ValidName(name) && n <= |name|
    ensures h < 0x1_0000
  {
    if n == 0 then 0
    else
      var u := Upcase(table, name[n - 1]);
      ChecksumStep(ChecksumStep(NameHash(table, name, n - 1), u % 0x100), u / 0x100)
  }

  /** u is the capital of the unit c: by the up-case table, or among the ASCII letters when there is none. */
  ghost predicate Capital(table: seq<nat>, c: nat, u: nat) {
    if |table| != 0 then c < |table| && u == table[c] else Capitalized(c, u)
  }

  lemma UpcaseCapital(table: seq<nat>, c: nat)
    requires ValidTable(table) && c < 0x1_0000
    ensures forall u: nat :: Capital(table, c, u) <==> u == Upcase(table, c)
  {
    hide Capitalized;
    forall u: nat
      ensures Capital(table, c, u) <==> u == Upcase(table, c)
    {
      CapitalIs(c, u);
    }
  }

  /** b holds the capitals of the units, low byte first. */
  ghost predicate CapitalBytes(table: seq<nat>, name: seq<nat>, b: seq<Byte>) {
    |b| == 2 * |name| && forall i :: 0 <= i < |name| ==> Capital(table, name[i], U16(b, 2 * i))
  }

  /** h is the hash of the name: the rotating 16-bit sum of the bytes of its capitals. */
  ghost predicate HashIs(table: seq<nat>, name: seq<nat>, h: nat) {
    exists b: seq<Byte> :: CapitalBytes(table, name, b) && SumsTo(b, h, 16)
  }

  lemma {:induction false} NameHashIs(table: seq<nat>, name: seq<nat>, n: nat)
    requires ValidTable(table) && ValidName(name) && n <= |name|
    ensures HashIs(table, name[..n], NameHash(table, name, n))
  {
    hide ChecksumStep, SumsTo, Adds, Upcase, Capital, CapitalBytes;
    if n == 0 {
      SumsToNothing(16);
      NoCapitalBytes(table, name);
    } else {
      NameHashIs(table, name, n - 1);
      var b: seq<Byte> :| CapitalBytes(table, name[..n - 1], b) && SumsTo(b, NameHash(table, name, n - 1), 16);
      var u := Upcase(table, name[n - 1]);
      var h := ChecksumStep(NameHash(table, name, n - 1), u % 0x100);
      StepAdds(NameHash(table, name, n - 1), u % 0x100);
      StepAdds(h, u / 0x100);
      SumsToMore(b, NameHash(table, name, n - 1), u % 0x100, h, 16);
      SumsToMore(b + [u % 0x100], h, u / 0x100, NameHash(table, name, n), 16);
      MoreCapitalBytes(table, name, n, b, u);
      assert b + [u % 0x100] + [u / 0x100] == b + [u % 0x100, u / 0x100];
    }
  }

  lemma NoCapitalBytes(table: seq<nat>, name: seq<nat>)
    ensures CapitalBytes(table, name[..0], [])
  {
  }

  lemma MoreCapitalBytes(table: seq<nat>, name: seq<nat>, n: nat, b: seq<Byte>, u: nat)
    requires ValidTable(table) && ValidName(name) && 0 < n <= |name| && u == Upcase(table, name[n - 1])
    requires CapitalBytes(table, name[..n - 1], b)
    ensures CapitalBytes(table, name[..n], b + [u % 0x100, u / 0x100])
  {
    hide Upcase, Capital;
    var b' := b + [u % 0x100, u / 0x100];
    UpcaseCapital(table, name[n - 1]);
    forall i | 0 <= i < n
      ensures Capital(table, name[i], U16(b', 2 * i))
    {
      if i < n - 1 {
        assert name[..n - 1][i] == name[i] && U16(b', 2 * i) == U16(b, 2 * i);
      } else {
        assert U16(b', 2 * i) == u;
      }
    }
  }

  /** Names that are equal up to case, by the up-case table or among the ASCII letters. */
  ghost predicate EqualUpToCase(table: seq<nat>, a: seq<nat>, b: seq<nat>) {
    && |a| == |b|
    && forall i :: 0 <= i < |a| ==> a[i] == b[i] || exists u: nat :: Capital(table, a[i], u) && Capital(table, b[i], u)
  }

  /** They have the same hash. */
  lemma HashAlike(table: seq<nat>, a: seq<nat>, b: seq<nat>, h: nat, h': nat)
    requires ValidTable(table) && ValidName(a) && ValidName(b) && EqualUpToCase(table, a, b)
    requires HashIs(table, a, h) && HashIs(table, b, h')
    ensures h == h'
  {
    hide Capital, SumsTo, U16;
    var x: seq<Byte> :| CapitalBytes(table, a, x) && SumsTo(x, h, 16);
    var y: seq<Byte> :| CapitalBytes(table, b, y) && SumsTo(y, h', 16);
    forall i | 0 <= i < |a|
      ensures U16(x, 2 * i) == U16(y, 2 * i)
    {
      UpcaseCapital(table, a[i]);
      UpcaseCapital(table, b[i]);
    }
    SameWords(x, y);
    SumsOnce(x, h, h', 16);
  }

  lemma SameWords(x: seq<Byte>, y: seq<Byte>)
    requires |x| == |y| && |x| % 2 == 0 && forall i :: 0 <= i < |x| / 2 ==> U16(x, 2 * i) == U16(y, 2 * i)
    ensures x == y
  {
    forall k | 0 <= k < |x|
      ensures x[k] == y[k]
    {
      assert U16(x, 2 * (k / 2)) == U16(y, 2 * (k / 2));
    }
  }

  /** k name units stored from byte p on. */
  function Units(es: seq<Byte>, p: nat, k: nat): (u: seq<nat>)
    requires p + 2 * k <= |es|
    ensures |u| == k
  {
    seq(k, i requires 0 <= i < k => U16(es, p + 2 * i))
  }

  /** The name collected from the entries index, index + 1, ... of a set: up to 15 units from each
      name entry, other entries skipped, at most need units. */
  function NameUnits(es: seq<Byte>, count: nat, index: nat, need: nat): (u: seq<nat>)
    requires |es| == 32 * count && index <= count
    ensures |u| <= need
    decreases count - index
  {
    if index == count then []
    else if es[32 * index] != ENTRY_NAME then NameUnits(es, count, index + 1, need)
    else
      var k := Min(15, need);
      Units(es, 32 * index + 2, k) + NameUnits(es, count, index + 1, need - k)
  }

  // ----- building

  /** es is a well-formed entry set for the record. */
  ghost predicate Encodes(es: seq<Byte>, r: Record) {
    var count := EntryCount(|r.name|);
    && 3 <= count <= 19 && HeadFields(es, r, count)
    && U16(es, 2) == Checksum(es, 32 * count)
    && (forall i :: 2 <= i < count ==> es[32 * i] == ENTRY_NAME)
    && (forall i :: 0 <= i < |r.name| ==> U16(es, UnitAt(i)) == r.name[i])
  }

  /** The file and stream entries hold the record's fields. */
  ghost predicate HeadFields(es: seq<Byte>, r: Record, count: nat)
    requires count >= 2
  {
    && |es| == 32 * count
    && es[0] == ENTRY_FILE && es[1] == count - 1 && U16(es, 4) == r.attributes
    && es[32] == ENTRY_STREAM && (es[33] / 2 % 2 == 1 <==> r.contiguous) && es[35] == |r.name|
    && U64(es, 40) == r.validLength && U32(es, 52) == r.first && U64(es, 56) == r.length
  }

  lemma HeadKept(a: seq<Byte>, b: seq<Byte>, r: Record, count: nat)
    requires count >= 2 && HeadFields(a, r, count) && |b| == |a|
    requires forall k :: 0 <= k < 64 && k != 2 && k != 3 ==> b[k] == a[k]
    ensures HeadFields(b, r, count)
  {
  }

  /** Where unit i of a name is stored. */
  function UnitAt(i: nat): nat {
    32 * (2 + i / 15) + 2 + 2 * (i % 15)
  }

  lemma SameU16(a: seq<Byte>, b: seq<Byte>, p: nat)
    requires |a| == |b| && p + 2 <= |a| && a[p] == b[p] && a[p + 1] == b[p + 1]
    ensures U16(a, p) == U16(b, p)
  {
  }

  lemma HeadSize(es: seq<Byte>, r: Record, count: nat)
    requires count >= 2 && HeadFields(es, r, count)
    ensures |es| == 32 * count
  {
  }

  lemma U16Splice(s: seq<Byte>, p: nat, b: seq<Byte>, q: nat)
    requires p + |b| <= |s| && q + 2 <= |s|
    ensures q + 2 <= p || p + |b| <= q ==> U16(Splice(s, p, b), q) == U16(s, q)
    ensures q == p && |b| == 2 ==> U16(Splice(s, p, b), q) == U16(b, 0)
  {
  }

  /** The part of an entry set before its name entries, with an empty checksum field. */
  method BuildHead(r: Record, count: nat, hash: nat) returns (es: seq<Byte>)
    requires ValidRecord(r) && 3 <= count <= 19
    ensures HeadFields(es, r, count) && U16(es, 36) == hash % 0x1_0000
    ensures HeadRest(es, r) && NameRest(es, r.name, 0)
  {
    hide Le16, Le32, Le64, U16, U32, U64;
    es := Zeros(32 * count);
    es := es[0 := ENTRY_FILE][1 := count - 1];
    es := Splice(es, 4, Le16(r.attributes));
    assert forall k :: 6 <= k < |es| ==> es[k] == 0;
    es := es[32 := ENTRY_STREAM][33 := if r.contiguous then 2 else 0][35 := |r.name|];
    es := Splice(es, 36, Le16(hash));
    ghost var was := es;
    es := Splice(es, 40, Le64(r.validLength));
    es := Splice(es, 52, Le32(r.first));
    es := Splice(es, 56, Le64(r.length));
    FieldsApart(es, r);
    SameBytes(es, 36, Le16(hash));
    HeadRestIs(was, es, r, count);
  }

  lemma HeadRestIs(was: seq<Byte>, es: seq<Byte>, r: Record, count: nat)
    requires |was| == |es| == 32 * count && count >= 3 && was[33] == if r.contiguous then 2 else 0
    requires forall k :: 6 <= k < |was| && !(32 <= k < 34) && !(35 <= k < 38) ==> was[k] == 0
    requires forall k :: 0 <= k < |es| && !(40 <= k < 48) && !(52 <= k < 64) ==> es[k] == was[k]
    ensures HeadRest(es, r) && NameRest(es, r.name, 0)
  {
  }

  lemma FieldsApart(es: seq<Byte>, r: Record)
    requires ValidRecord(r) && |es| >= 64
    requires es[4..6] == Le16(r.attributes) && es[40..48] == Le64(r.validLength)
    requires es[52..56] == Le32(r.first) && es[56..64] == Le64(r.length)
    ensures U16(es, 4) == r.attributes && U64(es, 40) == r.validLength
    ensures U32(es, 52) == r.first && U64(es, 56) == r.length
  {
    hide Le16, Le32, Le64;
    assert U16(es, 4) == U16(es[4..6], 0);
    assert U64(es, 40) == U64(es[40..48], 0);
    assert U32(es, 52) == U32(es[52..56], 0);
    assert U64(es, 56) == U64(es[56..64], 0);
  }

  lemma UnitAtEntry(i: nat, index: nat)
    ensures i < 15 * index ==> UnitAt(i) + 2 <= 32 * (2 + index)
    ensures 15 * index <= i < 15 * index + 15 ==> UnitAt(i) == 32 * (2 + index) + 2 + 2 * (i - 15 * index)
    ensures UnitAt(i) >= 66
  {
  }

  /** Fill name entry number index of the set. */
  method PutNameEntry(es: seq<Byte>, name: seq<nat>, index: nat) returns (r: seq<Byte>)
    requires 32 * (index + 3) <= |es| && ValidName(name)
    ensures |r| == |es| && r[32 * (2 + index)] == ENTRY_NAME && r[32 * (2 + index) + 1] == es[32 * (2 + index) + 1]
    ensures forall k :: 0 <= k < |es| && !(32 * (2 + index) <= k < 32 * (3 + index)) ==> r[k] == es[k]
    ensures forall i :: 15 * index <= i < 15 * index + 15 ==>
              UnitAt(i) + 2 <= |r| && U16(r, UnitAt(i)) == if i < |name| then name[i] else 0
  {
    hide Le16, U16, UnitAt;
    ghost var base := 32 * (2 + index);
    r := es[32 * (2 + index) := ENTRY_NAME];
    for character := 0 to 15
      invariant |r| == |es| && r[base] == ENTRY_NAME && r[base + 1] == es[base + 1]
      invariant forall k :: 0 <= k < |es| && !(base <= k < base + 32) ==> r[k] == es[k]
      invariant forall k :: 0 <= k < character ==>
                  U16(r, base + 2 + 2 * k) == if 15 * index + k < |name| then name[15 * index + k] else 0
    {
      var source := 15 * index + character;
      var unit := if source < |name| then name[source] else 0;
      ghost var was := r;
      r := Splice(r, 32 * (2 + index) + 2 + 2 * character, Le16(unit));
      forall k | 0 <= k <= character
        ensures U16(r, base + 2 + 2 * k) == if 15 * index + k < |name| then name[15 * index + k] else 0
      {
        U16Splice(was, base + 2 + 2 * character, Le16(unit), base + 2 + 2 * k);
      }
    }
    forall i | 15 * index <= i < 15 * index + 15
      ensures UnitAt(i) + 2 <= |r| && U16(r, UnitAt(i)) == if i < |name| then name[i] else 0
    {
      UnitAtEntry(i, index);
      var k := i - 15 * index;
      assert U16(r, base + 2 + 2 * k) == if 15 * index + k < |name| then name[15 * index + k] else 0;
    }
  }

  /** The bytes of the file and stream entries that hold none of the fields are 0, and the flags no other bit. */
  ghost predicate HeadRest(es: seq<Byte>, r: Record) {
    && |es| >= 64 && es[33] == (if r.contiguous then 2 else 0)
    && (forall k :: 6 <= k < 64 && !(32 <= k < 34) && !(35 <= k < 38) && !(40 <= k < 48) && !(52 <= k < 64) ==>
        es[k] == 0)
  }

  /** In the first m name entries what is not the name is 0, and behind them everything is. */
  ghost predicate NameRest(es: seq<Byte>, name: seq<nat>, m: nat) {
    && (forall i :: 2 <= i < 2 + m ==> 32 * i + 1 < |es| && es[32 * i + 1] == 0)
    && (forall i :: |name| <= i < 15 * m ==> UnitAt(i) + 2 <= |es| && U16(es, UnitAt(i)) == 0)
    && (forall k :: 32 * (2 + m) <= k < |es| ==> es[k] == 0)
  }

  lemma NameRestMore(a: seq<Byte>, b: seq<Byte>, name: seq<nat>, m: nat)
    requires NameRest(a, name, m) && |b| == |a| && 32 * (m + 3) <= |a| && b[32 * (2 + m) + 1] == a[32 * (2 + m) + 1]
    requires forall k :: 0 <= k < |a| && !(32 * (2 + m) <= k < 32 * (3 + m)) ==> b[k] == a[k]
    requires forall i :: 15 * m <= i < 15 * m + 15 ==>
               UnitAt(i) + 2 <= |b| && U16(b, UnitAt(i)) == if i < |name| then name[i] else 0
    ensures NameRest(b, name, m + 1)
  {
    hide U16;
    forall i | |name| <= i < 15 * (m + 1)
      ensures UnitAt(i) + 2 <= |b| && U16(b, UnitAt(i)) == 0
    {
      if i < 15 * m {
        UnitAtEntry(i, m);
        SameU16(a, b, UnitAt(i));
      }
    }
  }

  /** The first m name entries stand and hold their part of the name. */
  ghost predicate NamePart(es: seq<Byte>, name: seq<nat>, m: nat) {
    && (forall i :: 2 <= i < 2 + m ==> 32 * i < |es| && es[32 * i] == ENTRY_NAME)
    && (forall i :: 0 <= i < 15 * m && i < |name| ==> UnitAt(i) + 2 <= |es| && U16(es, UnitAt(i)) == name[i])
  }

  /** Filling the next name entry, or writing the checksum, leaves the earlier ones alone. */
  lemma NamePartKept(a: seq<Byte>, b: seq<Byte>, name: seq<nat>, m: nat)
    requires NamePart(a, name, m) && |b| == |a|
    requires forall k :: 64 <= k < |a| && k < 32 * (2 + m) ==> b[k] == a[k]
    ensures NamePart(b, name, m)
  {
    hide U16;
    forall i | 0 <= i < 15 * m && i < |name|
      ensures U16(b, UnitAt(i)) == name[i]
    {
      UnitAtEntry(i, m);
      SameU16(a, b, UnitAt(i));
    }
  }

  lemma NamePartMore(es: seq<Byte>, name: seq<nat>, m: nat)
    requires NamePart(es, name, m) && 32 * (m + 3) <= |es| && es[32 * (2 + m)] == ENTRY_NAME
    requires forall i :: 15 * m <= i < 15 * m + 15 && i < |name| ==>
               UnitAt(i) + 2 <= |es| && U16(es, UnitAt(i)) == name[i]
    ensures NamePart(es, name, m + 1)
  {
    hide U16, UnitAt;
  }

  lemma HeadRestKept(a: seq<Byte>, b: seq<Byte>, r: Record)
    requires HeadRest(a, r) && |b| == |a| && forall k :: 4 <= k < 64 ==> b[k] == a[k]
    ensures HeadRest(b, r)
  {
  }

  lemma NameRestKept(a: seq<Byte>, b: seq<Byte>, name: seq<nat>, m: nat)
    requires NameRest(a, name, m) && |b| == |a| && forall k :: 64 <= k < |a| ==> b[k] == a[k]
    ensures NameRest(b, name, m)
  {
    hide U16;
    forall i | |name| <= i < 15 * m
      ensures U16(b, UnitAt(i)) == 0
    {
      UnitAtEntry(i, m);
      SameU16(a, b, UnitAt(i));
    }
  }

  /** Beyond the fields of the record the set es holds the checksum of its bytes, the hash of the name, and zeros. */
  ghost predicate Complete(table: seq<nat>, es: seq<Byte>, r: Record) {
    && |es| >= 64 && HeadRest(es, r) && NameRest(es, r.name, |es| / 32 - 2)
    && SumsTo(Covered(es, |es|), U16(es, 2), 16) && HashIs(table, r.name, U16(es, 36))
  }

  /** Build the entry set of a file; its bytes are the fields of the record and 0.  A name of no or more than
      255 units is refused. */
  method BuildEntrySet(table: seq<nat>, r: Record) returns (ok: bool, es: seq<Byte>)
    requires ValidTable(table) && ValidName(r.name) && ValidRecord(r.(name := [0]))
    ensures ok <==> 1 <= |r.name| <= 255
    ensures ok ==> Encodes(es, r) && U16(es, 36) == NameHash(table, r.name, |r.name|) && Complete(table, es, r)
  {
    hide Le16, HeadFields, NameHash, Checksum, U16, ValidTable, NamePart, UnitAt, Encodes, SumsTo, Covered, HeadRest,
         NameRest, HashIs;
    var entries := (|r.name| + 14) / 15;
    var count := 2 + entries;
    if |r.name| == 0 || |r.name| > 255 || count > 19 {
      return false, [];
    }
    es := BuildHead(r, count, NameHash(table, r.name, |r.name|));
    HeadSize(es, r, count);
    NoNamePart(es, r.name);
    NameHashIs(table, r.name, |r.name|);
    assert r.name[..|r.name|] == r.name;
    for index := 0 to entries
      invariant |es| == 32 * count && HeadFields(es, r, count) && U16(es, 36) == NameHash(table, r.name, |r.name|)
      invariant NamePart(es, r.name, index) && HeadRest(es, r) && NameRest(es, r.name, index)
    {
      ghost var was := es;
      es := PutNameEntry(es, r.name, index);
      HeadKept(was, es, r, count);
      SameU16(was, es, 36);
      NamePartKept(was, es, r.name, index);
      NamePartMore(es, r.name, index);
      NameRestMore(was, es, r.name, index);
      HeadRestKept(was, es, r);
    }
    var sum := EntrySetChecksum(es, count);
    ghost var was := es;
    es := Splice(es, 2, Le16(sum));
    ChecksumIgnoresField(was, es, 32 * count);
    U16Splice(was, 2, Le16(sum), 2);
    NamePartKept(was, es, r.name, entries);
    HeadKept(was, es, r, count);
    SameU16(was, es, 36);
    HeadRestKept(was, es, r);
    NameRestKept(was, es, r.name, entries);
    ChecksumSums(es, 32 * count);
    Built(es, r);
    ok := true;
  }

  lemma NoNamePart(es: seq<Byte>, name: seq<nat>)
    ensures NamePart(es, name, 0)
  {
  }

  lemma Built(es: seq<Byte>, r: Record)
    requires 1 <= |r.name| <= 255 && HeadFields(es, r, EntryCount(|r.name|))
             && NamePart(es, r.name, EntryCount(|r.name|) - 2)
    requires |es| == 32 * EntryCount(|r.name|) && U16(es, 2) == Checksum(es, 32 * EntryCount(|r.name|))
    ensures Encodes(es, r)
  {
    hide U16, HeadFields, Checksum, UnitAt;
  }

  // ----- recognising

  /** A file found by a directory scan: its record and the place of its entry set. */
  datatype Node = Node(record: Record, offset: nat, count: nat)

  /** What visit_directory makes of a complete entry set that starts at byte offset of the directory. */
  function Parse(clusterCount: nat, es: seq<Byte>, count: nat, offset: nat): (node: Option<Node>)
    requires |es| == 32 * count && 3 <= count <= 19
  {
    var r := Record(U16(es, 4), U32(es, 52), U64(es, 56), U64(es, 40), es[33] / 2 % 2 == 1,
                    NameUnits(es, count, 2, es[35]));
    if && es[32] == ENTRY_STREAM && Checksum(es, 32 * count) == U16(es, 2)
       && es[35] != 0 && r.validLength <= r.length
       && (r.length != 0 ==> 2 <= r.first < clusterCount + 2) && |r.name| == es[35]
    then Some(Node(r, offset, count))
    else None
  }

  lemma NameEntryUnits(es: seq<Byte>, r: Record, index: nat)
    requires Encodes(es, r) && 2 + index < EntryCount(|r.name|)
    ensures var from, count := 15 * index, EntryCount(|r.name|);
            var k := Min(15, |r.name| - from);
            && from < |r.name| && Units(es, 32 * (2 + index) + 2, k) == r.name[from..from + k]
            && NameUnits(es, count, 2 + index, |r.name| - from)
               == r.name[from..from + k] + NameUnits(es, count, 3 + index, |r.name| - from - k)
  {
    hide U16, Checksum, HeadFields;
    HeadSize(es, r, EntryCount(|r.name|));
    var from, p := 15 * index, 32 * (2 + index) + 2;
    var k := Min(15, |r.name| - from);
    forall i | 0 <= i < k
      ensures Units(es, p, k)[i] == r.name[from..from + k][i]
    {
      UnitAtEntry(from + i, index);
      assert U16(es, UnitAt(from + i)) == r.name[from + i];
    }
  }

  lemma EncodedSize(es: seq<Byte>, r: Record)
    requires Encodes(es, r)
    ensures |es| == 32 * EntryCount(|r.name|) && 3 <= EntryCount(|r.name|) <= 19
  {
  }

  lemma NoNameUnits(es: seq<Byte>, count: nat, need: nat)
    requires |es| == 32 * count
    ensures NameUnits(es, count, count, need) == []
  {
  }

  lemma {:induction false} NameUnitsEncoded(es: seq<Byte>, r: Record, index: nat)
    requires Encodes(es, r) && 2 + index <= EntryCount(|r.name|)
    ensures |es| == 32 * EntryCount(|r.name|)
    ensures var from := Min(15 * index, |r.name|);
            NameUnits(es, EntryCount(|r.name|), 2 + index, |r.name| - from) == r.name[from..]
    decreases EntryCount(|r.name|) - index
  {
    hide Encodes, Units, NameUnits;
    EncodedSize(es, r);
    if 2 + index < EntryCount(|r.name|) {
      NameEntryUnits(es, r, index);
      NameUnitsEncoded(es, r, index + 1);
      var from := 15 * index;
      var k := Min(15, |r.name| - from);
      assert r.name[from..] == r.name[from..from + k] + r.name[from + k..];
    } else {
      NoNameUnits(es, EntryCount(|r.name|), |r.name| - Min(15 * index, |r.name|));
    }
  }

  /** A set written for a record is read back as that record. */
  lemma ParseEncoded(clusterCount: nat, es: seq<Byte>, r: Record, offset: nat)
    requires ValidRecord(r) && Encodes(es, r) && (r.length != 0 ==> 2 <= r.first < clusterCount + 2)
    ensures Parse(clusterCount, es, EntryCount(|r.name|), offset) == Some(Node(r, offset, EntryCount(|r.name|)))
  {
    hide U16, U32, U64, Checksum, NameUnits;
    NameUnitsEncoded(es, r, 0);
    assert r.name[0..] == r.name;
  }

  /** State of a directory scan: the size of the set being collected (0 when none is) and its entries. */
  datatype Scan = Scan(expected: nat, es: seq<Byte>)

  const IDLE: Scan := Scan(0, [])

  predicate ValidScan(st: Scan) {
    if st.expected == 0 then st.es == []
    else 3 <= st.expected <= 19 && 32 <= |st.es| < 32 * st.expected && |st.es| % 32 == 0
  }

  /** One slot of the directory; end is the byte offset just after it. */
  function ScanSlot(clusterCount: nat, st: Scan, slot: Slot, end: nat): (r: (Scan, seq<Node>))
    requires ValidScan(st) && end >= |st.es| + 32
    ensures ValidScan(r.0) && |r.0.es| <= |st.es| + 32
  {
    if st.expected == 0 then
      var expected := slot[1] as int + 1;
      if slot[0] != ENTRY_FILE || expected < 3 || expected > 19 then (st, [])
      else (Scan(expected, slot), [])
    else
      var es := st.es + slot;
      if |es| == 32 * st.expected then
        var node := Parse(clusterCount, es, st.expected, end - |es|);
        (IDLE, if node.Some? then [node.value] else [])
      else (Scan(st.expected, es), [])
  }

  /** The scan after n slots: a slot of type 0 stops it. */
  datatype Progress = Progress(scan: Scan, nodes: seq<Node>, stopped: bool)

  function Run(clusterCount: nat, slots: seq<Slot>, n: nat): (p: Progress)
    requires n <= |slots|
    ensures ValidScan(p.scan) && |p.scan.es| <= 32 * n
  {
    if n == 0 then Progress(IDLE, [], false)
    else
      var p := Run(clusterCount, slots, n - 1);
      if p.stopped || slots[n - 1][0] == 0 then p.(stopped := true)
      else
        var (scan, found) := ScanSlot(clusterCount, p.scan, slots[n - 1], 32 * n);
        Progress(scan, p.nodes + found, false)
  }

  /** The files that a scan of the whole directory delivers, in order. */
  function Visit(clusterCount: nat, slots: seq<Slot>): seq<Node> {
    Run(clusterCount, slots, |slots|).nodes
  }

  /** The slots from k on hold the entry set es. */
  ghost predicate SetAt(slots: seq<Slot>, k: nat, es: seq<Byte>, count: nat) {
    && |es| == 32 * count && k + count <= |slots|
    && forall j :: 0 <= j < count ==> slots[k + j] == es[32 * j..32 * j + 32]
  }

  /** The first entry of es opens a set of count entries, and no entry of it ends the scan. */
  ghost predicate Opens(es: seq<Byte>, count: nat) {
    && 3 <= count <= 19 && |es| == 32 * count && es[0] == ENTRY_FILE && es[1] == count - 1
    && forall j :: 0 <= j < count ==> es[32 * j] != 0
  }

  /** One step of the scan that neither ends it nor completes a set. */
  lemma RunCollects(n: nat, slots: seq<Slot>, m: nat, count: nat, es: seq<Byte>, nodes: seq<Node>)
    requires m < |slots| && slots[m][0] != 0 && 3 <= count <= 19 && |es| % 32 == 0 && |es| + 32 < 32 * count
    requires Run(n, slots, m) == Progress(if es == [] then IDLE else Scan(count, es), nodes, false)
    requires es == [] ==> slots[m][0] == ENTRY_FILE && slots[m][1] == count - 1
    ensures Run(n, slots, m + 1) == Progress(Scan(count, es + slots[m]), nodes, false)
  {
    hide Parse;
    assert nodes + [] == nodes;
    assert es == [] ==> es + slots[m] == slots[m];
  }

  /** The step that completes a set. */
  lemma RunCompletes(n: nat, slots: seq<Slot>, m: nat, count: nat, es: seq<Byte>, nodes: seq<Node>)
    requires m < |slots| && slots[m][0] != 0 && 3 <= count <= 19 && |es| + 32 == 32 * count
    requires Run(n, slots, m) == Progress(Scan(count, es), nodes, false)
    ensures 32 * (m + 1) >= 32 * count
    ensures var node := Parse(n, es + slots[m], count, 32 * (m + 1) - 32 * count);
            Run(n, slots, m + 1) == Progress(IDLE, nodes + if node.Some? then [node.value] else [], false)
  {
    hide Parse;
  }

  lemma SetSlot(slots: seq<Slot>, k: nat, es: seq<Byte>, count: nat, j: nat)
    requires SetAt(slots, k, es, count) && Opens(es, count) && j < count
    ensures slots[k + j][0] != 0 && es[..32 * j] + slots[k + j] == es[..32 * j + 32]
    ensures j == 0 ==> slots[k][0] == ENTRY_FILE && slots[k][1] == count - 1
  {
    assert slots[k + j] == es[32 * j..32 * j + 32];
    assert slots[k + j][0] == es[32 * j];
  }

  lemma {:induction false} RunInside(n: nat, slots: seq<Slot>, k: nat, es: seq<Byte>, count: nat, j: nat)
    requires SetAt(slots, k, es, count) && Opens(es, count) && 1 <= j < count
    requires var p := Run(n, slots, k); !p.stopped && p.scan == IDLE
    ensures Run(n, slots, k + j) == Progress(Scan(count, es[..32 * j]), Run(n, slots, k).nodes, false)
  {
    hide Parse, Run, ScanSlot;
    var nodes := Run(n, slots, k).nodes;
    SetSlot(slots, k, es, count, j - 1);
    if j > 1 {
      RunInside(n, slots, k, es, count, j - 1);
    }
    RunCollects(n, slots, k + j - 1, count, es[..32 * (j - 1)], nodes);
  }

  /** A scan that reaches an entry set while idle delivers what the set says and is idle behind it. */
  lemma RunSet(n: nat, slots: seq<Slot>, k: nat, es: seq<Byte>, count: nat)
    requires SetAt(slots, k, es, count) && Opens(es, count)
    requires var p := Run(n, slots, k); !p.stopped && p.scan == IDLE
    ensures var node := Parse(n, es, count, 32 * k);
            Run(n, slots, k + count) ==
            Progress(IDLE, Run(n, slots, k).nodes + if node.Some? then [node.value] else [], false)
  {
    hide Parse, Run, ScanSlot;
    RunInside(n, slots, k, es, count, count - 1);
    SetSlot(slots, k, es, count, count - 1);
    assert es[..32 * count] == es;
    RunCompletes(n, slots, k + count - 1, count, es[..32 * (count - 1)], Run(n, slots, k).nodes);
  }

  lemma RunSetFound(n: nat, slots: seq<Slot>, k: nat, es: seq<Byte>, count: nat, node: Node)
    requires SetAt(slots, k, es, count) && Opens(es, count) && Parse(n, es, count, 32 * k) == Some(node)
    requires var p := Run(n, slots, k); !p.stopped && p.scan == IDLE
    ensures Run(n, slots, k + count) == Progress(IDLE, Run(n, slots, k).nodes + [node], false)
  {
    hide Parse, Run, SetAt, Opens;
    RunSet(n, slots, k, es, count);
  }

  lemma {:induction false} RunGrows(n: nat, slots: seq<Slot>, i: nat, m: nat)
    requires i <= m <= |slots|
    ensures Run(n, slots, i).nodes <= Run(n, slots, m).nodes
  {
    if i < m {
      RunGrows(n, slots, i, m - 1);
    }
  }

  /** Entry-set round trip: a set built for a record, at any slot that the scan reaches while idle, is
      delivered with the same attributes, cluster, lengths and name, and with its own position. */
  lemma BuiltSetIsVisited(n: nat, slots: seq<Slot>, k: nat, es: seq<Byte>, r: Record)
    requires ValidRecord(r) && Encodes(es, r) && (r.length != 0 ==> 2 <= r.first < n + 2)
    requires SetAt(slots, k, es, EntryCount(|r.name|))
    requires var p := Run(n, slots, k); !p.stopped && p.scan == IDLE
    ensures var at := |Run(n, slots, k).nodes|;
            at < |Visit(n, slots)| && Visit(n, slots)[at] == Node(r, 32 * k, EntryCount(|r.name|))
  {
    hide Parse, Encodes, Run;
    var count := EntryCount(|r.name|);
    EncodedOpens(es, r);
    RunSet(n, slots, k, es, count);
    ParseEncoded(n, es, r, 32 * k);
    RunGrows(n, slots, k + count, |slots|);
  }

  lemma EncodedOpens(es: seq<Byte>, r: Record)
    requires Encodes(es, r)
    ensures Opens(es, EntryCount(|r.name|))
  {
    var count := EntryCount(|r.name|);
    forall j | 0 <= j < count
      ensures es[32 * j] != 0
    {
      assert j >= 2 ==> es[32 * j] == ENTRY_NAME;
    }
  }

  // ----- changing a set in place

  /** The set after update_node_stream: new stream fields and a new checksum. */
  function UpdateStream(es: seq<Byte>, count: nat, first: nat, length: nat, validLength: nat,
                        contiguous: bool): (r: seq<Byte>)
    requires |es| == 32 * count && 3 <= count <= 19
    ensures |r| == |es|
  {
    var b := PutFields(es, first, length, validLength, contiguous);
    Splice(b, 2, Le16(Checksum(b, 32 * count)))
  }

  function PutFields(es: seq<Byte>, first: nat, length: nat, validLength: nat, contiguous: bool): (r: seq<Byte>)
    requires |es| >= 64
    ensures |r| == |es|
  {
    Splice(Splice(Splice(es[33 := if contiguous then 2 else 0], 40, Le64(validLength)), 52, Le32(first)), 56,
           Le64(length))
  }

  /** The set after retire_entry: every in-use bit cleared. */
  function Retire(es: seq<Byte>, count: nat): (r: seq<Byte>)
    requires |es| == 32 * count
    ensures |r| == |es|
    ensures forall i :: 0 <= i < |es| ==> r[i] == if i % 32 == 0 && es[i] >= 0x80 then es[i] - 0x80 else es[i]
  {
    seq(|es|, i requires 0 <= i < |es| => if i % 32 == 0 && es[i] >= 0x80 then es[i] - 0x80 else es[i])
  }

  lemma UpdateStreamFields(es: seq<Byte>, count: nat, first: nat, length: nat, validLength: nat, contiguous: bool)
    requires |es| == 32 * count && 3 <= count <= 19
    requires first < 0x1_0000_0000 && length < 0x1_0000_0000_0000_0000 && validLength < 0x1_0000_0000_0000_0000
    ensures var r := UpdateStream(es, count, first, length, validLength, contiguous);
            && U32(r, 52) == first && U64(r, 56) == length && U64(r, 40) == validLength
            && r[33] == (if contiguous then 2 else 0) && (r[33] / 2 % 2 == 1 <==> contiguous)
               && U16(r, 2) == Checksum(r, 32 * count) && U16(r, 4) == U16(es, 4)
            && (forall i :: 0 <= i < |es| && i != 2 && i != 3 && i != 33 && !(40 <= i < 48) && !(52 <= i < 64) ==>
                r[i] == es[i])
  {
    hide Le16, Le32, Le64, Checksum, U16, U32, U64;
    var a := es[33 := if contiguous then 2 else 0];
    var b1 := Splice(a, 40, Le64(validLength));
    var b2 := Splice(b1, 52, Le32(first));
    var b := Splice(b2, 56, Le64(length));
    var r := Splice(b, 2, Le16(Checksum(b, 32 * count)));
    ChecksumIgnoresField(b, r, 32 * count);
    SameBytes(r, 2, Le16(Checksum(b, 32 * count)));
    SameBytes(r, 40, Le64(validLength));
    SameBytes(r, 52, Le32(first));
    SameBytes(r, 56, Le64(length));
    SameU16(es, r, 4);
  }

  /** A second update leaves nothing of the first. */
  lemma UpdateTwice(es: seq<Byte>, count: nat, first: nat, length: nat, validLength: nat, contiguous: bool,
                    first': nat, length': nat, validLength': nat, contiguous': bool)
    requires |es| == 32 * count && 3 <= count <= 19
    ensures UpdateStream(UpdateStream(es, count, first, length, validLength, contiguous), count, first', length',
                         validLength', contiguous')
         == UpdateStream(es, count, first', length', validLength', contiguous')
  {
    hide Checksum, Le16, Le32, Le64;
    var once := UpdateStream(es, count, first, length, validLength, contiguous);
    var a, b := PutFields(once, first', length', validLength', contiguous'),
        PutFields(es, first', length', validLength', contiguous');
    ChecksumIgnoresField(a, b, 32 * count);
  }

  lemma SameBytes(r: seq<Byte>, p: nat, b: seq<Byte>)
    requires p + |b| <= |r| && forall i :: 0 <= i < |b| ==> r[p + i] == b[i]
    ensures |b| == 2 ==> U16(r, p) == U16(b, 0)
    ensures |b| == 4 ==> U32(r, p) == U32(b, 0)
    ensures |b| == 8 ==> U64(r, p) == U64(b, 0)
  {
  }

  lemma {:induction false} NameUnitsKept(a: seq<Byte>, b: seq<Byte>, count: nat, index: nat, need: nat)
    requires |a| == |b| == 32 * count && 2 <= index <= count
    requires forall i :: 64 <= i < |a| ==> a[i] == b[i]
    ensures NameUnits(a, count, index, need) == NameUnits(b, count, index, need)
    decreases count - index
  {
    if index < count {
      NameUnitsKept(a, b, count, index + 1, need);
      NameUnitsKept(a, b, count, index + 1, need - Min(15, need));
      assert Units(a, 32 * index + 2, Min(15, need)) == Units(b, 32 * index + 2, Min(15, need));
    }
  }

  /** Updating the stream of a recognised set changes exactly the stream fields of what is recognised. */
  lemma ParseUpdated(n: nat, es: seq<Byte>, count: nat, offset: nat, first: nat, length: nat, validLength: nat,
                     contiguous: bool)
    requires |es| == 32 * count && 3 <= count <= 19 && Parse(n, es, count, offset).Some?
    requires first < 0x1_0000_0000 && length < 0x1_0000_0000_0000_0000 && validLength <= length
    requires length != 0 ==> 2 <= first < n + 2
    ensures var node := Parse(n, es, count, offset).value;
            var r := UpdateStream(es, count, first, length, validLength, contiguous);
            Parse(n, r, count, offset) == Some(node.(record := node.record.(
              first := first, length := length, validLength := validLength, contiguous := contiguous)))
  {
    hide U16, U32, U64, Checksum, NameUnits, UpdateStream;
    UpdateStreamFields(es, count, first, length, validLength, contiguous);
    var r := UpdateStream(es, count, first, length, validLength, contiguous);
    NameUnitsKept(es, r, count, 2, es[35]);
  }

  // ----- effect of such a change on the whole directory

  lemma {:induction false} RunSame(n: nat, a: seq<Slot>, b: seq<Slot>, k: nat)
    requires k <= |a| && k <= |b| && forall i :: 0 <= i < k ==> a[i] == b[i]
    ensures Run(n, a, k) == Run(n, b, k)
  {
    if k > 0 {
      RunSame(n, a, b, k - 1);
    }
  }

  /** Two scans in the same state deliver the same files from equal slots. */
  lemma {:induction false} RunParallel(n: nat, a: seq<Slot>, b: seq<Slot>, k: nat, m: nat)
    requires k <= m <= |a| == |b| && forall i :: k <= i < m ==> a[i] == b[i]
    requires Run(n, a, k).scan == Run(n, b, k).scan && Run(n, a, k).stopped == Run(n, b, k).stopped
    ensures Run(n, a, m).scan == Run(n, b, m).scan && Run(n, a, m).stopped == Run(n, b, m).stopped
    ensures var x, y := Run(n, a, k).nodes, Run(n, b, k).nodes;
            && x <= Run(n, a, m).nodes && y <= Run(n, b, m).nodes
            && Run(n, a, m).nodes[|x|..] == Run(n, b, m).nodes[|y|..]
  {
    hide ScanSlot;
    if k < m {
      RunParallel(n, a, b, k, m - 1);
      var p, q := Run(n, a, m - 1), Run(n, b, m - 1);
      if !p.stopped && a[m - 1][0] != 0 {
        var found := ScanSlot(n, p.scan, a[m - 1], 32 * m).1;
        assert (p.nodes + found)[|Run(n, a, k).nodes|..] == p.nodes[|Run(n, a, k).nodes|..] + found;
        assert (q.nodes + found)[|Run(n, b, k).nodes|..] == q.nodes[|Run(n, b, k).nodes|..] + found;
      }
    }
  }

  lemma OneReplaced<T>(va: seq<T>, vb: seq<T>, x: seq<T>, u: T, w: T)
    requires x + [u] <= va && x + [w] <= vb && va[|x| + 1..] == vb[|x| + 1..]
    ensures |x| < |va| && va[|x|] == u && vb == va[|x| := w]
  {
    assert va == x + [u] + va[|x| + 1..];
    assert vb == x + [w] + vb[|x| + 1..];
  }

  lemma OneRemoved<T>(va: seq<T>, vb: seq<T>, x: seq<T>, u: T)
    requires x + [u] <= va && x <= vb && va[|x| + 1..] == vb[|x|..]
    ensures |x| < |va| && va[|x|] == u && vb == va[..|x|] + va[|x| + 1..]
  {
    assert va == x + [u] + va[|x| + 1..];
    assert vb == x + vb[|x|..];
  }

  /** Slots a and b agree except for the set at slot k, which is es in a and es' in b. */
  ghost predicate Replaced(a: seq<Slot>, b: seq<Slot>, k: nat, es: seq<Byte>, es': seq<Byte>, count: nat) {
    && |a| == |b| && k + count <= |a| && SetAt(a, k, es, count) && SetAt(b, k, es', count)
    && forall i :: 0 <= i < |a| && !(k <= i < k + count) ==> a[i] == b[i]
  }

  lemma OpensUpdated(es: seq<Byte>, count: nat, first: nat, length: nat, validLength: nat, contiguous: bool)
    requires Opens(es, count)
    requires first < 0x1_0000_0000 && length < 0x1_0000_0000_0000_0000 && validLength <= length
    ensures |es| == 32 * count && 3 <= count <= 19
    ensures Opens(UpdateStream(es, count, first, length, validLength, contiguous), count)
  {
    hide U16, U32, U64, Checksum, UpdateStream;
    UpdateStreamFields(es, count, first, length, validLength, contiguous);
    var r := UpdateStream(es, count, first, length, validLength, contiguous);
    forall j | 0 <= j < count
      ensures r[32 * j] != 0
    {
      assert r[32 * j] == es[32 * j];
    }
  }

  lemma RunReplaced(n: nat, a: seq<Slot>, b: seq<Slot>, k: nat, es: seq<Byte>, es': seq<Byte>, count: nat,
                    u: Node, w: Node)
    requires Opens(es, count) && Opens(es', count) && Replaced(a, b, k, es, es', count) && k + count <= |a|
    requires Parse(n, es, count, 32 * k) == Some(u) && Parse(n, es', count, 32 * k) == Some(w)
    requires !Run(n, a, k).stopped && Run(n, a, k).scan == IDLE
    ensures Run(n, a, k + count) == Progress(IDLE, Run(n, a, k).nodes + [u], false)
    ensures Run(n, b, k + count) == Progress(IDLE, Run(n, a, k).nodes + [w], false)
  {
    hide Parse, Run, Opens, SetAt;
    RunSame(n, a, b, k);
    RunSetFound(n, a, k, es, count, u);
    RunSetFound(n, b, k, es', count, w);
  }

  /** Replacing one recognised set by another replaces that one file among those delivered. */
  lemma VisitReplaced(n: nat, a: seq<Slot>, b: seq<Slot>, k: nat, es: seq<Byte>, es': seq<Byte>, count: nat,
                      u: Node, w: Node)
    requires Opens(es, count) && Opens(es', count) && Replaced(a, b, k, es, es', count) && k + count <= |a|
    requires Parse(n, es, count, 32 * k) == Some(u) && Parse(n, es', count, 32 * k) == Some(w)
    requires !Run(n, a, k).stopped && Run(n, a, k).scan == IDLE
    ensures |Run(n, a, k).nodes| < |Visit(n, a)| && Visit(n, a)[|Run(n, a, k).nodes|] == u
    ensures Visit(n, b) == Visit(n, a)[|Run(n, a, k).nodes| := w]
  {
    hide Parse, Run, Opens, SetAt;
    var x := Run(n, a, k).nodes;
    RunReplaced(n, a, b, k, es, es', count, u, w);
    RunParallel(n, a, b, k + count, |a|);
    OneReplaced(Visit(n, a), Visit(n, b), x, u, w);
  }

  /** Updating the stream of one file in place: the directory delivers the same files in the same
      order, with the new stream for that file. */
  lemma VisitUpdated(n: nat, a: seq<Slot>, b: seq<Slot>, k: nat, es: seq<Byte>, count: nat,
                     first: nat, length: nat, validLength: nat, contiguous: bool)
    requires Opens(es, count) && Replaced(a, b, k, es, UpdateStream(es, count, first, length, validLength,
                                                                    contiguous), count)
    requires var p := Run(n, a, k); !p.stopped && p.scan == IDLE
    requires Parse(n, es, count, 32 * k).Some?
    requires first < 0x1_0000_0000 && length < 0x1_0000_0000_0000_0000 && validLength <= length
    requires length != 0 ==> 2 <= first < n + 2
    ensures var t := |Run(n, a, k).nodes|;
            && t < |Visit(n, a)| && Visit(n, a)[t] == Parse(n, es, count, 32 * k).value
            && Visit(n, b) == Visit(n, a)[t := Visit(n, a)[t].(record := Visit(n, a)[t].record.(
                 first := first, length := length, validLength := validLength, contiguous := contiguous))]
  {
    hide Parse, UpdateStream, Run, SetAt, Visit, Opens;
    OpensUpdated(es, count, first, length, validLength, contiguous);
    ParseUpdated(n, es, count, 32 * k, first, length, validLength, contiguous);
    var es' := UpdateStream(es, count, first, length, validLength, contiguous);
    VisitReplaced(n, a, b, k, es, es', count, Parse(n, es, count, 32 * k).value, Parse(n, es', count, 32 * k).value);
  }

  /** Some entry of the set is of type 0x80: clearing the in-use bit makes it an end mark. */
  predicate HoldsMark(es: seq<Byte>, count: nat) {
    |es| == 32 * count && exists j :: 0 <= j < count && es[32 * j] == 0x80
  }

  /** An idle scan passes over entries that are not in use. */
  lemma {:induction false} RunPassed(n: nat, s: seq<Slot>, k: nat, m: nat)
    requires k <= m <= |s| && forall i :: k <= i < m ==> 0 < s[i][0] < 0x80
    requires var p := Run(n, s, k); !p.stopped && p.scan == IDLE
    ensures Run(n, s, m) == Run(n, s, k)
  {
    hide Parse;
    if k < m {
      RunPassed(n, s, k, m - 1);
      assert Run(n, s, k).nodes + [] == Run(n, s, k).nodes;
    }
  }

  /** Retired entries are passed over up to the first end mark among them. */
  lemma RunRetired(n: nat, b: seq<Slot>, k: nat, es: seq<Byte>, count: nat, j: nat)
    requires |es| == 32 * count && SetAt(b, k, Retire(es, count), count) && j <= count
    requires forall i :: 0 <= i < count ==> es[32 * i] != 0
    requires forall i :: 0 <= i < j ==> es[32 * i] != 0x80
    requires var p := Run(n, b, k); !p.stopped && p.scan == IDLE
    ensures Run(n, b, k + j) == Run(n, b, k)
  {
    hide Run;
    forall i | k <= i < k + j
      ensures 0 < b[i][0] < 0x80
    {
      assert b[k + (i - k)] == Retire(es, count)[32 * (i - k)..32 * (i - k) + 32];
    }
    RunPassed(n, b, k, k + j);
  }

  /** Nothing is delivered behind an end mark. */
  lemma {:induction false} StoppedRun(n: nat, slots: seq<Slot>, i: nat, m: nat)
    requires i <= m <= |slots| && Run(n, slots, i).stopped
    ensures Run(n, slots, m).stopped && Run(n, slots, m).nodes == Run(n, slots, i).nodes
  {
    hide ScanSlot;
    if i < m {
      StoppedRun(n, slots, i, m - 1);
    }
  }

  lemma StoppedAt(n: nat, slots: seq<Slot>, i: nat)
    requires i < |slots| && slots[i][0] == 0
    ensures Visit(n, slots) == Run(n, slots, i).nodes
  {
    hide ScanSlot;
    StoppedRun(n, slots, i + 1, |slots|);
  }

  lemma {:induction false} FirstMark(es: seq<Byte>, count: nat, n: nat) returns (j: nat)
    requires |es| == 32 * count && n <= count && exists i :: 0 <= i < n && es[32 * i] == 0x80
    ensures j < count && es[32 * j] == 0x80 && forall i :: 0 <= i < j ==> es[32 * i] != 0x80
  {
    if exists i :: 0 <= i < n - 1 && es[32 * i] == 0x80 {
      j := FirstMark(es, count, n - 1);
    } else {
      j := n - 1;
    }
  }

  /** With a mark in it, a retired set ends the scan. */
  lemma VisitMarked(n: nat, b: seq<Slot>, k: nat, es: seq<Byte>, count: nat)
    requires Opens(es, count) && SetAt(b, k, Retire(es, count), count) && HoldsMark(es, count)
    requires var p := Run(n, b, k); !p.stopped && p.scan == IDLE
    ensures Visit(n, b) == Run(n, b, k).nodes
  {
    hide Parse, Run, Visit;
    var j := FirstMark(es, count, count);
    RunRetired(n, b, k, es, count, j);
    assert b[k + j] == Retire(es, count)[32 * j..32 * j + 32];
    StoppedAt(n, b, k + j);
  }

  lemma RunRemoved(n: nat, a: seq<Slot>, b: seq<Slot>, k: nat, es: seq<Byte>, count: nat, u: Node)
    requires Opens(es, count) && Replaced(a, b, k, es, Retire(es, count), count) && k + count <= |a|
    requires !HoldsMark(es, count)
    requires !Run(n, a, k).stopped && Run(n, a, k).scan == IDLE && Parse(n, es, count, 32 * k) == Some(u)
    ensures Run(n, a, k + count) == Progress(IDLE, Run(n, a, k).nodes + [u], false)
    ensures Run(n, b, k + count) == Progress(IDLE, Run(n, a, k).nodes, false)
  {
    hide Parse, Run, SetAt;
    RunSame(n, a, b, k);
    RunSetFound(n, a, k, es, count, u);
    RunRetired(n, b, k, es, count, count);
  }

  /** Retiring the set of one file.  Without an entry of type 0x80 in the set, the directory delivers
      the other files, in the same order.  With one, it delivers no file behind it any more. */
  lemma VisitRetired(n: nat, a: seq<Slot>, b: seq<Slot>, k: nat, es: seq<Byte>, count: nat, u: Node)
    requires Opens(es, count) && Replaced(a, b, k, es, Retire(es, count), count) && k + count <= |a|
    requires !Run(n, a, k).stopped && Run(n, a, k).scan == IDLE && Parse(n, es, count, 32 * k) == Some(u)
    ensures var t := |Run(n, a, k).nodes|;
            && t < |Visit(n, a)| && Visit(n, a)[t] == u
            && Visit(n, b) == Visit(n, a)[..t] + (if HoldsMark(es, count) then [] else Visit(n, a)[t + 1..])
            && (Visit(n, b) == Visit(n, a)[..t] + Visit(n, a)[t + 1..] <==>
                !HoldsMark(es, count) || t + 1 == |Visit(n, a)|)
  {
    hide Parse, Run, SetAt, Opens, Retire, HoldsMark;
    var x := Run(n, a, k).nodes;
    if HoldsMark(es, count) {
      RunSame(n, a, b, k);
      VisitMarked(n, b, k, es, count);
      RunSetFound(n, a, k, es, count, u);
      RunGrows(n, a, k + count, |a|);
    } else {
      RunRemoved(n, a, b, k, es, count, u);
      RunParallel(n, a, b, k + count, |a|);
      OneRemoved(Visit(n, a), Visit(n, b), x, u);
    }
  }

  /** The slots that hold a set. */
  function SlotsOf(es: seq<Byte>, count: nat): (s: seq<Slot>)
    requires |es| == 32 * count
    ensures |s| == count
  {
    seq(count, j requires 0 <= j < count => es[32 * j..32 * j + 32])
  }

  /** A set of four entries that the scan recognises, the last one of type 0x80. */
  lemma MarkedSet(n: nat) returns (es: seq<Byte>, u: Node)
    ensures Opens(es, 4) && HoldsMark(es, 4) && Parse(n, es, 4, 0) == Some(u)
  {
    hide Checksum, U16, U32, U64, Le16;
    var b: seq<Byte> := Zeros(128)[0 := ENTRY_FILE][1 := 3][32 := ENTRY_STREAM][35 := 1][64 := ENTRY_NAME][96 := 0x80];
    es := Splice(b, 2, Le16(Checksum(b, 128)));
    ChecksumIgnoresField(b, es, 128);
    U16Splice(b, 2, Le16(Checksum(b, 128)), 2);
    ZeroFields(es);
    assert |NameUnits(es, 4, 3, 0)| == 0;
    assert |NameUnits(es, 4, 2, 1)| == 1;
    u := Parse(n, es, 4, 0).value;
  }

  lemma ZeroFields(es: seq<Byte>)
    requires |es| == 128 && forall i :: 40 <= i < 64 ==> es[i] == 0
    ensures U64(es, 40) == U64(es, 56) == 0
  {
  }

  /** Deleting that file hides the one behind it, whichever that is. */
  lemma DeletionHides(n: nat, set2: seq<Byte>, r: Record) returns (es: seq<Byte>, u: Node)
    requires ValidRecord(r) && Encodes(set2, r) && (r.length != 0 ==> 2 <= r.first < n + 2)
    ensures Opens(es, 4) && |set2| == 32 * EntryCount(|r.name|)
    ensures Visit(n, SlotsOf(es, 4) + SlotsOf(set2, EntryCount(|r.name|))) == [u, Node(r, 128, EntryCount(|r.name|))]
    ensures Visit(n, SlotsOf(Retire(es, 4), 4) + SlotsOf(set2, EntryCount(|r.name|))) == []
  {
    hide Parse, Encodes, Run, HoldsMark, Retire;
    es, u := MarkedSet(n);
    var count := EntryCount(|r.name|);
    EncodedOpens(set2, r);
    ParseEncoded(n, set2, r, 128);
    var a, b := SlotsOf(es, 4) + SlotsOf(set2, count), SlotsOf(Retire(es, 4), 4) + SlotsOf(set2, count);
    RunNothing(n, a);
    RunNothing(n, b);
    RunSetFound(n, a, 0, es, 4, u);
    RunSetFound(n, a, 4, set2, count, Node(r, 128, count));
    VisitMarked(n, b, 0, es, 4);
  }

  lemma RunNothing(n: nat, slots: seq<Slot>)
    ensures Run(n, slots, 0) == Progress(IDLE, [], false)
  {
  }
}
