/** What a search for a name finds in a FAT32 directory, in terms of its slots. */
module Fat32Lookup {
  import Arithmetic
  import opened Bytes
  import opened Bits
  import opened Unicode
  import opened Fat32Names

  // ----- comparing names

  /** The same byte, or the same ASCII letter. */
  ghost predicate SameLetter(a: Byte, b: Byte) {
    exists u: int :: Capitalized(a, u) && Capitalized(b, u)
  }

  /** Equal up to the case of ASCII letters. */
  ghost predicate SameLetters(a: seq<Byte>, b: seq<Byte>) {
    |a| == |b| && forall i :: 0 <= i < |a| ==> SameLetter(a[i], b[i])
  }

  lemma MatchesIff(a: seq<Byte>, b: seq<Byte>)
    ensures Matches(a, b) <==> SameLetters(a, b)
  {
    hide Up, SameLetter;
    if |a| == |b| {
      forall i | 0 <= i < |a|
        ensures Up(a[i]) == Up(b[i]) <==> SameLetter(a[i], b[i])
      {
        SameLetterIff(a[i], b[i]);
      }
    }
  }

  lemma SameLetterIff(a: Byte, b: Byte)
    ensures Up(a) == Up(b) <==> SameLetter(a, b)
  {
    hide Capitalized, Up;
    UpIs(a);
    UpIs(b);
    assert Capitalized(a, Up(a)) && Capitalized(b, Up(b));
  }

  lemma UpIs(b: Byte)
    ensures forall u: int :: Capitalized(b, u) <==> u == Up(b) as int
  {
    hide Capitalized;
    forall u: int
      ensures Capitalized(b, u) <==> u == Up(b) as int
    {
      CapitalIs(b, u);
    }
  }

  // ----- long names

  /** The lowest four attribute bits are set. */
  ghost predicate LfnBits(attributes: Byte) {
    forall k :: 0 <= k < 4 ==> Bit(attributes, k)
  }

  /** A part of a long name: in use, all of the lowest four attribute bits set, an ordinal from 1 to 20, and
      neither a type nor a cluster. */
  ghost predicate IsPart(e: Slot) {
    && e[0] != 0 && e[0] != 0xE5 && LfnBits(e[11])
    && 1 <= e[0] as int % 32 <= 20 && e[12] == 0 && e[26] == 0 && e[27] == 0
  }

  /** The parts in the slots from j up to n belong together: the first is marked as the last part of a name, no other
      is, and all carry the same checksum. */
  ghost predicate LongRun(slots: seq<Slot>, j: nat, n: nat) {
    && j < n <= |slots| && n - j <= 20 && (forall i :: j <= i < n ==> IsPart(slots[i])) && Bit(slots[j][0], 6)
    && forall i :: j < i < n ==> !Bit(slots[i][0], 6) && slots[i][13] == slots[j][13]
  }

  /** Unit k of the name that they make up: from the latest part that has it. */
  ghost function LongUnit(slots: seq<Slot>, j: nat, n: nat, k: nat): (w: nat)
    requires j <= n <= |slots| && k < 256
    ensures w < 0x1_0000
    decreases n - j
  {
    if n == j then 0xFFFF else UnitAfter(slots[n - 1], k, LongUnit(slots, j, n - 1, k))
  }

  /** Unit k behind part e, when it was w before. */
  ghost function UnitAfter(e: Slot, k: nat, w: nat): (r: nat)
    ensures w < 0x1_0000 ==> r < 0x1_0000
  {
    var i := k - 13 * (e[0] as int % 32 - 1);
    if 0 <= i < 13 && k < 255 then U16(e, if i < 5 then 1 + 2 * i else if i < 11 then 4 + 2 * i else 6 + 2 * i) else w
  }

  ghost function LongName(slots: seq<Slot>, j: nat, n: nat): (name: seq<nat>)
    requires j <= n <= |slots|
    ensures |name| == 256 && forall k :: 0 <= k < 256 ==> name[k] == LongUnit(slots, j, n, k) < 0x1_0000
  {
    seq<nat>(256, k requires 0 <= k < 256 => LongUnit(slots, j, n, k))
  }

  lemma LowBits(b: Byte)
    ensures LfnBits(b) <==> b as int % 16 == 15
    ensures Bit(b, 6) <==> b as int / 64 % 2 == 1
  {
    hide Bit;
    BitIs(b, 0);
    BitIs(b, 1);
    BitIs(b, 2);
    BitIs(b, 3);
    BitIs(b, 6);
    SmallPowers();
    FourDigits(b);
    if b as int % 16 == 15 {
      forall k | 0 <= k < 4
        ensures Bit(b, k)
      {
        assert k == 0 || k == 1 || k == 2 || k == 3;
      }
    } else {
      assert !Bit(b, 0) || !Bit(b, 1) || !Bit(b, 2) || !Bit(b, 3);
      assert !LfnBits(b);
    }
  }

  lemma SmallPowers()
    ensures Pow2(0) == 1 && Pow2(1) == 2 && Pow2(2) == 4 && Pow2(3) == 8 && Pow2(6) == 64
  {
    assert Pow2(3) == 8;
  }

  lemma FourDigits(b: nat)
    ensures b % 16 == 15 <==> b / 1 % 2 == 1 && b / 2 % 2 == 1 && b / 4 % 2 == 1 && b / 8 % 2 == 1
  {
    var b1 := b / 2;
    var b2 := b1 / 2;
    var b3 := b2 / 2;
    DivDiv(b, 2);
    DivDiv(b, 4);
    DivDiv(b1, 2);
    Arithmetic.DivUnique(b, 16, b3 / 2, 8 * (b3 % 2) + 4 * (b2 % 2) + 2 * (b1 % 2) + b % 2);
  }

  lemma ZeroWord(s: seq<Byte>, p: nat)
    requires p + 2 <= |s|
    ensures U16(s, p) == 0 <==> s[p] == 0 && s[p + 1] == 0
  {
  }

  /** What is accepted when l has been collected so far. */
  lemma AcceptIff(l: Lfn, e: Slot)
    requires ValidLfn(l) && e[0] != 0 && e[0] != DELETED && IsLfn(e)
    ensures Accept(l, e).Some? <==> IsPart(e) && (Bit(e[0], 6) || (l.valid && e[13] == l.sum))
    ensures var r := Accept(l, e);
            r.Some? ==> r.value.valid && r.value.sum == e[13] && |r.value.name| == 256
                        && forall k :: 0 <= k < 256 ==>
                             r.value.name[k] == UnitAfter(e, k, if Bit(e[0], 6) then 0xFFFF else l.name[k])
  {
    hide Bit, LfnBits;
    LowBits(e[0]);
    LowBits(e[11]);
    ZeroWord(e, 26);
  }

  // ----- what a search has collected

  /** After n slots a search has collected the name of a run of parts that ends there, or nothing. */
  ghost predicate HasCollected(slots: seq<Slot>, n: nat, st: Seek)
    requires n <= |slots|
  {
    && ValidSeek(st) && st.count <= n
    && (st.lfn.valid ==>
          exists j :: n - st.count <= j < n && LongRun(slots, j, n)
                      && st.lfn == Lfn(LongName(slots, j, n), slots[j][13], true))
  }

  lemma {:induction false} CollectedRun(slots: seq<Slot>, leaf: seq<Byte>, n: nat)
    requires n <= |slots| && Find(slots, leaf, n).Going?
    ensures HasCollected(slots, n, Find(slots, leaf, n).st)
  {
    hide Accept, Named, Bit, LongRun, LongName;
    if n > 0 {
      var st, e := Find(slots, leaf, n - 1).st, slots[n - 1];
      CollectedRun(slots, leaf, n - 1);
      if e[0] != DELETED && IsLfn(e) && Accept(st.lfn, e).Some? && st.count < MAX_LFN_ENTRIES {
        AcceptIff(st.lfn, e);
        var l := Accept(st.lfn, e).value;
        if Bit(e[0], 6) {
          RunBegins(slots, n, l);
        } else {
          var j :| n - 1 - st.count <= j < n - 1 && LongRun(slots, j, n - 1)
                   && st.lfn == Lfn(LongName(slots, j, n - 1), slots[j][13], true);
          RunGoesOn(slots, j, n, st.lfn, l);
        }
      }
    }
  }

  lemma RunBegins(slots: seq<Slot>, n: nat, l: Lfn)
    requires 0 < n <= |slots| && IsPart(slots[n - 1]) && Bit(slots[n - 1][0], 6) && ValidLfn(l)
    requires l.valid && l.sum == slots[n - 1][13]
    requires forall k :: 0 <= k < 256 ==> l.name[k] == UnitAfter(slots[n - 1], k, 0xFFFF)
    ensures LongRun(slots, n - 1, n) && l == Lfn(LongName(slots, n - 1, n), slots[n - 1][13], true)
  {
    hide Bit, UnitAfter;
    var name := LongName(slots, n - 1, n);
    forall k | 0 <= k < 256
      ensures l.name[k] == name[k]
    {
      assert LongUnit(slots, n - 1, n - 1, k) == 0xFFFF;
    }
    assert l.name == name;
  }

  lemma RunGoesOn(slots: seq<Slot>, j: nat, n: nat, l: Lfn, l': Lfn)
    requires 0 < n <= |slots| && IsPart(slots[n - 1]) && !Bit(slots[n - 1][0], 6) && ValidLfn(l') && n - j <= 20
    requires LongRun(slots, j, n - 1) && l == Lfn(LongName(slots, j, n - 1), slots[j][13], true)
    requires l'.valid && l'.sum == slots[n - 1][13] == l.sum
    requires forall k :: 0 <= k < 256 ==> l'.name[k] == UnitAfter(slots[n - 1], k, l.name[k])
    ensures LongRun(slots, j, n) && l' == Lfn(LongName(slots, j, n), slots[j][13], true)
  {
    hide Bit, UnitAfter;
    assert l'.name == LongName(slots, j, n);
  }

  /** A run that is not preceded by another part is collected as a whole. */
  lemma {:induction false} RunCollected(slots: seq<Slot>, leaf: seq<Byte>, j: nat, n: nat)
    requires LongRun(slots, j, n) && (j > 0 ==> !IsPart(slots[j - 1])) && Find(slots, leaf, n).Going?
    ensures var st := Find(slots, leaf, n).st;
            st.count == n - j && st.lfn == Lfn(LongName(slots, j, n), slots[j][13], true)
  {
    hide Accept, Named, Bit, LongRun, LongName;
    RunStep(slots, j, n);
    StillGoing(slots, leaf, n - 1);
    var e := slots[n - 1];
    if n - 1 == j {
      NothingCollected(slots, leaf, j);
    } else {
      RunCollected(slots, leaf, j, n - 1);
    }
    var st := Find(slots, leaf, n - 1).st;
    AcceptIff(st.lfn, e);
    var l := Accept(st.lfn, e).value;
    if n - 1 == j {
      RunBegins(slots, n, l);
    } else {
      RunGoesOn(slots, j, n, st.lfn, l);
    }
  }

  lemma RunStep(slots: seq<Slot>, j: nat, n: nat)
    requires LongRun(slots, j, n)
    ensures j < n <= |slots|
    ensures var e := slots[n - 1];
            && IsPart(e) && e[0] != 0 && e[0] != DELETED && IsLfn(e) && n - j <= 20
            && (if n - 1 == j then Bit(e[0], 6) else !Bit(e[0], 6) && e[13] == slots[j][13] && LongRun(slots, j, n - 1))
  {
    hide Bit, LfnBits;
    LowBits(slots[n - 1][11]);
  }

  lemma StillGoing(slots: seq<Slot>, leaf: seq<Byte>, n: nat)
    requires n < |slots| && Find(slots, leaf, n + 1).Going?
    ensures Find(slots, leaf, n).Going? && slots[n][0] != 0
  {
    hide Accept, Named, Bit;
  }

  /** Behind a slot that is no part of a long name nothing is collected. */
  lemma NothingCollected(slots: seq<Slot>, leaf: seq<Byte>, n: nat)
    requires n <= |slots| && Find(slots, leaf, n).Going? && (n > 0 ==> !IsPart(slots[n - 1]))
    ensures Find(slots, leaf, n) == Going(Idle())
  {
    hide Accept, Named, Bit;
    if n > 0 {
      var st, e := Find(slots, leaf, n - 1).st, slots[n - 1];
      if e[0] != 0 && e[0] != DELETED && IsLfn(e) {
        AcceptIff(st.lfn, e);
      }
    }
  }

  // ----- what a search finds

  /** A short entry: in use, neither part of a long name nor a volume label. */
  ghost predicate IsShort(e: Slot) {
    e[0] != 0 && e[0] != 0xE5 && !LfnBits(e[11]) && !Bit(e[11], 3)
  }

  /** The run of parts from j up to slot k is the long name of the short entry there, and reads as the name. */
  ghost predicate LongNamed(slots: seq<Slot>, j: nat, k: nat, leaf: seq<Byte>) {
    && k < |slots| && LongRun(slots, j, k) && SumsTo(slots[k][..11], slots[j][13], 8)
    && SameLetters(Text(LongName(slots, j, k), 0, 0), leaf)
  }

  /** Slot k holds a short entry that answers to the name: by itself, or by the parts in front of it.  clean says
      that these have to begin behind something else. */
  ghost predicate Carries(slots: seq<Slot>, k: nat, leaf: seq<Byte>, clean: bool) {
    && k < |slots| && IsShort(slots[k])
    && (|| SameLetters(Format(slots[k][..11]), leaf)
        || exists j: nat :: LongNamed(slots, j, k, leaf) && (clean && 0 < j <= |slots| ==> !IsPart(slots[j - 1])))
  }

  lemma SumIs(name: ShortName, sum: nat)
    ensures SumsTo(name, sum, 8) <==> sum == ShortSum(name, 11)
  {
    hide SumsTo;
    ShortSums(name, 11);
    assert name[..11] == name;
    if SumsTo(name, sum, 8) {
      SumsOnce(name, sum, ShortSum(name, 11), 8);
    }
  }

  lemma ShortIff(e: Slot)
    ensures IsShort(e) <==> e[0] != 0 && e[0] != DELETED && !IsLfn(e) && !Bit(e[11], VOLUME_ID)
  {
    hide Bit, LfnBits;
    LowBits(e[11]);
  }

  /** What is found carries the name, and no end mark comes before it. */
  lemma {:induction false} FoundCarries(slots: seq<Slot>, leaf: seq<Byte>, n: nat)
    requires n <= |slots| && Find(slots, leaf, n).Found?
    ensures var r := Find(slots, leaf, n);
            && r.slot < n && r.entry == slots[r.slot] && Carries(slots, r.slot, leaf, false)
            && Find(slots, leaf, r.slot).Going? && forall i :: 0 <= i < r.slot ==> slots[i][0] != 0
  {
    hide Accept, Named, Bit, Carries;
    if Find(slots, leaf, n - 1).Found? {
      FoundCarries(slots, leaf, n - 1);
    } else {
      FindGoing(slots, leaf, n - 1);
      NamedCarries(slots, leaf, n - 1);
    }
  }

  lemma NamedCarries(slots: seq<Slot>, leaf: seq<Byte>, k: nat)
    requires k < |slots| && Find(slots, leaf, k).Going? && IsShort(slots[k])
    requires Named(Find(slots, leaf, k).st.lfn, slots[k], leaf)
    ensures Carries(slots, k, leaf, false)
  {
    hide Accept, Bit, LongRun, LongName, IsShort, Format, Text, SameLetters, Matches, SumsTo;
    var l, e := Find(slots, leaf, k).st.lfn, slots[k];
    MatchesIff(Format(e[..11]), leaf);
    MatchesIff(Text(l.name, 0, 0), leaf);
    SumIs(e[..11], l.sum);
    CollectedRun(slots, leaf, k);
    if !SameLetters(Format(e[..11]), leaf) {
      var j :| 0 <= j < k && LongRun(slots, j, k) && l == Lfn(LongName(slots, j, k), slots[j][13], true);
      assert LongNamed(slots, j, k, leaf);
    }
  }

  /** A search that has gone past a slot has not been offered the name there. */
  lemma {:induction false} PassedCarriesNot(slots: seq<Slot>, leaf: seq<Byte>, n: nat, k: nat)
    requires k < n <= |slots| && Find(slots, leaf, n).Going?
    ensures !Carries(slots, k, leaf, true)
  {
    hide Accept, Named, Bit, Carries;
    StillGoing(slots, leaf, n - 1);
    if k < n - 1 {
      PassedCarriesNot(slots, leaf, n - 1, k);
    } else if Carries(slots, k, leaf, true) {
      CarriesNamed(slots, leaf, k);
    }
  }

  lemma CarriesNamed(slots: seq<Slot>, leaf: seq<Byte>, k: nat)
    requires Carries(slots, k, leaf, true) && Find(slots, leaf, k).Going?
    ensures IsShort(slots[k]) && !IsLfn(slots[k]) && slots[k][0] != 0 && slots[k][0] != DELETED
    ensures !Bit(slots[k][11], VOLUME_ID) && Named(Find(slots, leaf, k).st.lfn, slots[k], leaf)
  {
    hide Accept, Bit, LongRun, LongName, IsShort, Format, Text, SameLetters, Matches, SumsTo, IsPart;
    var l, e := Find(slots, leaf, k).st.lfn, slots[k];
    ShortIff(e);
    MatchesIff(Format(e[..11]), leaf);
    if !SameLetters(Format(e[..11]), leaf) {
      var j: nat :| LongNamed(slots, j, k, leaf) && (0 < j <= |slots| ==> !IsPart(slots[j - 1]));
      RunStep(slots, j, k);
      RunCollected(slots, leaf, j, k);
      MatchesIff(Text(l.name, 0, 0), leaf);
      SumIs(e[..11], slots[j][13]);
    }
  }

  /** A search over the whole directory: what it finds is the first short entry that carries the name, up to parts
      that do not begin behind something else; when it finds none, no entry before the end mark carries it. */
  lemma SearchFinds(slots: seq<Slot>, leaf: seq<Byte>)
    ensures var r := Find(slots, leaf, |slots|);
            && (r.Found? ==>
                  && r.slot < |slots| && r.entry == slots[r.slot] && Carries(slots, r.slot, leaf, false)
                  && (forall i :: 0 <= i < r.slot ==> slots[i][0] != 0)
                  && (forall i :: 0 <= i < r.slot ==> !Carries(slots, i, leaf, true)))
            && (!r.Found? ==>
                  forall k :: 0 <= k < |slots| && (forall i :: 0 <= i < k ==> slots[i][0] != 0) ==>
                    !Carries(slots, k, leaf, true))
  {
    hide Find, Carries;
    var r := Find(slots, leaf, |slots|);
    if r.Found? {
      FoundCarries(slots, leaf, |slots|);
      forall i | 0 <= i < r.slot
        ensures !Carries(slots, i, leaf, true)
      {
        PassedCarriesNot(slots, leaf, r.slot, i);
      }
    } else {
      forall k | 0 <= k < |slots| && forall i :: 0 <= i < k ==> slots[i][0] != 0
        ensures !Carries(slots, k, leaf, true)
      {
        NotCarried(slots, leaf, k);
      }
    }
  }

  lemma NotCarried(slots: seq<Slot>, leaf: seq<Byte>, k: nat)
    requires !Find(slots, leaf, |slots|).Found? && k < |slots| && forall i :: 0 <= i < k ==> slots[i][0] != 0
    ensures !Carries(slots, k, leaf, true)
  {
    hide Accept, Named, Bit, LongNamed;
    if Find(slots, leaf, k + 1).Found? {
      FindOver(slots, leaf, k + 1, |slots|);
    }
    FindGoing(slots, leaf, k + 1);
    if slots[k][0] != 0 {
      assert Find(slots, leaf, k + 1).Going?;
      PassedCarriesNot(slots, leaf, k + 1, k);
    }
  }
}
