/** What the scan of an exFAT directory delivers, in terms of the bytes of its slots. */
module ExfatScan {
  import opened Bytes
  import opened Bits
  import opened ExfatEntries
  import opened ExfatListing

  // ----- one entry set

  /** p are the places of the name entries of a set from entry index on, in order. */
  ghost predicate NameEntries(es: seq<Byte>, count: nat, index: nat, p: seq<nat>) {
    && |es| == 32 * count
    && (forall i :: 0 <= i < |p| ==> index <= p[i] < count && es[32 * p[i]] == ENTRY_NAME)
    && (forall i, k :: 0 <= i < k < |p| ==> p[i] < p[k])
    && (forall j :: index <= j < count && es[32 * j] == ENTRY_NAME ==> j in p)
  }

  /** u are the first units in the name entries at p, 15 in each. */
  ghost predicate UnitsIn(es: seq<Byte>, count: nat, p: seq<nat>, u: seq<nat>) {
    && |es| == 32 * count && |u| <= 15 * |p| && (forall i :: 0 <= i < |p| ==> p[i] < count)
    && forall i :: 0 <= i < |u| ==> u[i] == U16(es, 32 * p[i / 15] + 2 + 2 * (i % 15))
  }

  lemma {:induction false} NameUnitsIn(es: seq<Byte>, count: nat, index: nat, need: nat) returns (p: seq<nat>)
    requires |es| == 32 * count && index <= count
    ensures NameEntries(es, count, index, p) && UnitsIn(es, count, p, NameUnits(es, count, index, need))
    ensures |NameUnits(es, count, index, need)| == Min(need, 15 * |p|)
    decreases count - index
  {
    hide U16, Units, UnitsIn, NameEntries, NameUnits;
    if index == count {
      p := [];
      NoNameUnits(es, count, need);
      NoNames(es, count);
    } else if es[32 * index] != ENTRY_NAME {
      p := NameUnitsIn(es, count, index + 1, need);
      NamesPast(es, count, index, p);
      UnitsPast(es, count, index, need);
    } else {
      var k := Min(15, need);
      var rest := NameUnitsIn(es, count, index + 1, need - k);
      p := [index] + rest;
      UnitsNext(es, count, index, need);
      assert |NameUnits(es, count, index, need)| == k + |NameUnits(es, count, index + 1, need - k)|;
      NamesBehind(es, count, index, rest);
      UnitsBehind(es, count, index, k, rest, NameUnits(es, count, index + 1, need - k));
    }
  }

  lemma NoNames(es: seq<Byte>, count: nat)
    requires |es| == 32 * count
    ensures NameEntries(es, count, count, []) && UnitsIn(es, count, [], [])
  {
  }

  lemma NamesPast(es: seq<Byte>, count: nat, index: nat, p: seq<nat>)
    requires |es| == 32 * count && index < count && es[32 * index] != ENTRY_NAME && NameEntries(es, count, index + 1, p)
    ensures NameEntries(es, count, index, p)
  {
    forall j | index <= j < count && es[32 * j] == ENTRY_NAME
      ensures j in p
    {
      assert index + 1 <= j;
    }
  }

  lemma UnitsPast(es: seq<Byte>, count: nat, index: nat, need: nat)
    requires |es| == 32 * count && index < count && es[32 * index] != ENTRY_NAME
    ensures NameUnits(es, count, index, need) == NameUnits(es, count, index + 1, need)
  {
  }

  lemma UnitsNext(es: seq<Byte>, count: nat, index: nat, need: nat)
    requires |es| == 32 * count && index < count && es[32 * index] == ENTRY_NAME
    ensures var k := Min(15, need);
            && NameUnits(es, count, index, need) == Units(es, 32 * index + 2, k) +
               NameUnits(es, count, index + 1, need - k)
            && (k < 15 ==> NameUnits(es, count, index + 1, need - k) == [])
  {
    assert |NameUnits(es, count, index + 1, 0)| == 0;
  }

  lemma NamesBehind(es: seq<Byte>, count: nat, index: nat, rest: seq<nat>)
    requires |es| == 32 * count && index < count && es[32 * index] == ENTRY_NAME
    requires NameEntries(es, count, index + 1, rest)
    ensures NameEntries(es, count, index, [index] + rest)
  {
    var p := [index] + rest;
    forall j | index <= j < count && es[32 * j] == ENTRY_NAME
      ensures j in p
    {
      assert j == index || j in rest;
    }
  }

  lemma UnitsBehind(es: seq<Byte>, count: nat, index: nat, k: nat, rest: seq<nat>, u: seq<nat>)
    requires |es| == 32 * count && index < count && k <= 15 && (k < 15 ==> u == [])
    requires UnitsIn(es, count, rest, u)
    ensures UnitsIn(es, count, [index] + rest, Units(es, 32 * index + 2, k) + u)
  {
    hide U16;
    var p, v := [index] + rest, Units(es, 32 * index + 2, k) + u;
    forall i | 0 <= i < |v|
      ensures i / 15 < |p| && v[i] == U16(es, 32 * p[i / 15] + 2 + 2 * (i % 15))
    {
      if i >= k {
        assert k == 15 && p[i / 15] == rest[(i - 15) / 15] && i % 15 == (i - 15) % 15;
      }
    }
  }

  /** A complete set is recognised exactly when it has a stream entry, the checksum of its bytes, a name length
      that its name entries reach, a valid length within the length and a first cluster if there is a length. */
  ghost predicate Sound(n: nat, es: seq<Byte>, names: nat)
    requires |es| >= 64
  {
    && es[32] == 0xC0 && SumsTo(Covered(es, |es|), U16(es, 2), 16)
    && 0 < es[35] as int <= 15 * names
    && U64(es, 40) <= U64(es, 56) && (U64(es, 56) == 0 || 2 <= U32(es, 52) < n + 2)
  }

  /** r is what a set says, its name entries being those at p. */
  ghost predicate Says(es: seq<Byte>, count: nat, p: seq<nat>, r: Record)
    requires |es| == 32 * count >= 64
  {
    && r.attributes == U16(es, 4) && (r.contiguous <==> Bit(es[33], 1)) && r.validLength == U64(es, 40)
    && r.first == U32(es, 52) && r.length == U64(es, 56)
    && |r.name| == es[35] && UnitsIn(es, count, p, r.name)
  }

  lemma ParseIff(n: nat, es: seq<Byte>, count: nat, offset: nat) returns (p: seq<nat>)
    requires |es| == 32 * count && 3 <= count <= 19
    ensures NameEntries(es, count, 2, p)
    ensures var node := Parse(n, es, count, offset);
            && (node.Some? <==> Sound(n, es, |p|))
            && (node.Some? ==> Says(es, count, p, node.value.record) && node.value.offset == offset
                               && node.value.count == count)
  {
    hide U16, U32, U64, NameUnits, UnitsIn, Checksum, SumsTo, NameEntries, Covered;
    p := NameUnitsIn(es, count, 2, es[35]);
    ChecksumSums(es, 32 * count);
    if SumsTo(Covered(es, |es|), U16(es, 2), 16) {
      SumsOnce(Covered(es, |es|), U16(es, 2), Checksum(es, 32 * count), 16);
    }
    SecondBit(es[33]);
  }

  lemma SecondBit(b: Byte)
    ensures Bit(b, 1) <==> b / 2 % 2 == 1
  {
    assert Bit(b, 1) <==> Bit(b / 2, 0);
  }

  // ----- a whole directory

  ghost predicate OpensSet(slot: Slot) {
    slot[0] == 0x85 && 2 <= slot[1] <= 18
  }

  /** The bytes of c slots from k on. */
  ghost function Joined(s: seq<Slot>, k: nat, c: nat): (es: seq<Byte>)
    requires k + c <= |s|
    ensures |es| == 32 * c
  {
    if c == 0 then [] else Joined(s, k, c - 1) + s[k + c - 1]
  }

  ghost predicate EndIn(s: seq<Slot>, k: nat, c: nat) {
    k + c > |s| || exists j :: k <= j < k + c && s[j][0] == 0
  }

  /** The files of a directory from slot k on: an end mark ends it, a slot that opens a set is taken together with
      the rest of the set, whatever that holds, and every other slot is passed over. */
  ghost function Files(n: nat, s: seq<Slot>, k: nat): seq<Node>
    requires k <= |s|
    decreases |s| - k
  {
    if k == |s| || s[k][0] == 0 then []
    else if !OpensSet(s[k]) then Files(n, s, k + 1)
    else
      var c := s[k][1] as int + 1;
      if EndIn(s, k, c) then []
      else
        var node := Parse(n, Joined(s, k, c), c, 32 * k);
        (if node.Some? then [node.value] else []) + Files(n, s, k + c)
  }

  lemma {:induction false} JoinedSlots(s: seq<Slot>, k: nat, c: nat)
    requires k + c <= |s|
    ensures SetAt(s, k, Joined(s, k, c), c)
  {
    if c > 0 {
      JoinedSlots(s, k, c - 1);
      var es, less := Joined(s, k, c), Joined(s, k, c - 1);
      forall j | 0 <= j < c
        ensures s[k + j] == es[32 * j..32 * j + 32]
      {
        if j < c - 1 {
          assert es[32 * j..32 * j + 32] == less[32 * j..32 * j + 32];
        }
      }
    }
  }

  /** A set that is being collected. */
  lemma {:induction false} RunPart(n: nat, s: seq<Slot>, k: nat, c: nat, j: nat)
    requires IdleAt(n, s, k) && 1 <= j < c && k + j <= |s| && OpensSet(s[k]) && c == s[k][1] + 1
    requires forall i :: k <= i < k + j ==> s[i][0] != 0
    ensures Run(n, s, k + j) == Progress(Scan(c, Joined(s, k, j)), Run(n, s, k).nodes, false)
  {
    hide Parse, Run, ScanSlot;
    if j > 1 {
      RunPart(n, s, k, c, j - 1);
    }
    assert Joined(s, k, 0) == [] && Joined(s, k, j) == Joined(s, k, j - 1) + s[k + j - 1];
    RunCollects(n, s, k + j - 1, c, Joined(s, k, j - 1), Run(n, s, k).nodes);
  }

  lemma {:induction false} RunEnded(n: nat, s: seq<Slot>, k: nat, m: nat)
    requires k < m <= |s| && s[k][0] == 0
    ensures Run(n, s, m).nodes == Run(n, s, k).nodes && Run(n, s, m).stopped
  {
    hide Parse, ScanSlot;
    if k + 1 < m {
      RunEnded(n, s, k, m - 1);
    }
  }

  lemma RunPasses(n: nat, s: seq<Slot>, k: nat)
    requires IdleAt(n, s, k) && k < |s| && s[k][0] != 0 && !OpensSet(s[k])
    ensures IdleAt(n, s, k + 1) && Run(n, s, k + 1).nodes == Run(n, s, k).nodes
  {
    hide Parse;
  }

  /** The first slot of a set that is missing or ends the scan. */
  lemma {:induction false} FirstEnd(s: seq<Slot>, k: nat, c: nat) returns (j: nat)
    requires EndIn(s, k, c) && k <= |s|
    ensures j < c && k + j <= |s| && (k + j == |s| || s[k + j][0] == 0) && forall i :: k <= i < k + j ==> s[i][0] != 0
  {
    j := c - 1;
    if EndIn(s, k, c - 1) {
      j := FirstEnd(s, k, c - 1);
    }
  }

  lemma SetUnended(s: seq<Slot>, k: nat, c: nat)
    requires !EndIn(s, k, c) && 3 <= c <= 19 && k < |s| && s[k][0] == 0x85 && s[k][1] == c - 1
    ensures k + c <= |s| && SetAt(s, k, Joined(s, k, c), c) && Opens(Joined(s, k, c), c)
  {
    JoinedSlots(s, k, c);
    var es := Joined(s, k, c);
    assert s[k + 0] == es[32 * 0..32 * 0 + 32];
    forall j | 0 <= j < c
      ensures es[32 * j] != 0
    {
      assert s[k + j] == es[32 * j..32 * j + 32] && s[k + j][0] != 0;
    }
  }

  /** The scan delivers exactly the files of the directory. */
  lemma VisitIsFiles(n: nat, s: seq<Slot>)
    ensures Visit(n, s) == Files(n, s, 0)
  {
    hide Parse, Files;
    assert Run(n, s, 0) == Progress(IDLE, [], false);
    FilesFrom(n, s, 0);
    assert [] + Files(n, s, 0) == Files(n, s, 0);
  }

  lemma {:induction false} FilesFrom(n: nat, s: seq<Slot>, k: nat)
    requires IdleAt(n, s, k)
    ensures Visit(n, s) == Run(n, s, k).nodes + Files(n, s, k)
    decreases |s| - k
  {
    hide Parse, Run, ScanSlot, OpensSet, EndIn, Files;
    FilesHere(n, s, k);
    var nodes := Run(n, s, k).nodes;
    if k < |s| && s[k][0] == 0 {
      RunEnded(n, s, k, |s|);
    } else if k < |s| && !OpensSet(s[k]) {
      RunPasses(n, s, k);
      FilesFrom(n, s, k + 1);
    } else if k < |s| {
      OpenCount(s[k]);
      var c := s[k][1] as int + 1;
      if EndIn(s, k, c) {
        EndedSet(n, s, k, c);
      } else {
        SetUnended(s, k, c);
        RunSet(n, s, k, Joined(s, k, c), c);
        FilesFrom(n, s, k + c);
        var node := Parse(n, Joined(s, k, c), c, 32 * k);
        var found := if node.Some? then [node.value] else [];
        assert nodes + found + Files(n, s, k + c) == nodes + (found + Files(n, s, k + c));
      }
    }
    assert nodes + [] == nodes;
  }

  lemma FilesHere(n: nat, s: seq<Slot>, k: nat)
    requires k <= |s|
    ensures k == |s| || s[k][0] == 0 ==> Files(n, s, k) == []
    ensures k < |s| && s[k][0] != 0 && !OpensSet(s[k]) ==> Files(n, s, k) == Files(n, s, k + 1)
    ensures k < |s| && s[k][0] != 0 && OpensSet(s[k]) ==>
              var c := s[k][1] as int + 1;
              && (EndIn(s, k, c) ==> Files(n, s, k) == [])
              && (!EndIn(s, k, c) ==>
                    var node := Parse(n, Joined(s, k, c), c, 32 * k);
                    Files(n, s, k) == (if node.Some? then [node.value] else []) + Files(n, s, k + c))
  {
    hide Parse;
  }

  lemma OpenCount(slot: Slot)
    requires OpensSet(slot)
    ensures 3 <= slot[1] + 1 <= 19 && slot[0] == 0x85
  {
  }

  lemma EndedSet(n: nat, s: seq<Slot>, k: nat, c: nat)
    requires IdleAt(n, s, k) && k < |s| && OpensSet(s[k]) && c == s[k][1] + 1 && s[k][0] != 0 && EndIn(s, k, c)
    ensures Visit(n, s) == Run(n, s, k).nodes
  {
    hide Parse, Run, ScanSlot, EndIn;
    var j := FirstEnd(s, k, c);
    RunPart(n, s, k, c, j);
    if k + j < |s| {
      RunEnded(n, s, k + j, |s|);
    }
  }
}
