/** What the short names of FAT32 say: the 8.3 form of a name and the numbered aliases. */
module Fat32Aliases {
  import opened Bytes
  import opened Unicode
  import opened Fat32Names
  import opened Fat32Lookup
  import opened Fat32Creation

  // ----- the 8.3 form

  /** A field of n bytes that holds s in capitals and then spaces reads as s, cut off at the first space. */
  lemma FieldReads(s: seq<Byte>, field: seq<Byte>)
    requires |s| <= |field| && forall k :: 0 <= k < |field| ==> field[k] == Capital(s, k)
    ensures |Before(field, SPACE)| == |Before(s, SPACE)| <= |s|
    ensures forall k :: 0 <= k < |Before(s, SPACE)| ==> Before(field, SPACE)[k] == Up(s[k])
  {
    hide Before;
    var n := |Before(s, SPACE)|;
    forall k | 0 <= k < n
      ensures field[k] != SPACE
    {
      assert Before(s, SPACE)[k] == s[k];
    }
    BeforeStops(field, SPACE, n);
  }

  lemma BeforeAll(s: seq<Byte>, stop: Byte)
    ensures |Before(s, stop)| == |s| <==> stop !in s
    ensures stop !in s ==> Before(s, stop) == s
  {
    hide Before;
    if stop !in s {
      BeforeStops(s, stop, |s|);
    }
  }

  lemma StemAndTail(leaf: seq<Byte>)
    ensures leaf == Stem(leaf) + (if |Stem(leaf)| < |leaf| then [DOT] + Tail(leaf) else [])
    ensures DOT !in Stem(leaf) && (|Stem(leaf)| == |leaf| ==> Tail(leaf) == [])
    ensures Fits83(leaf) ==> |leaf| > 0 && DOT !in Tail(leaf)
  {
    hide Before;
  }

  /** What format_name shows of the 8.3 form of a name, before the end of the C string is looked for. */
  ghost function Shown(leaf: seq<Byte>): seq<Byte> {
    var name := Exact(leaf);
    Before(name[..8], SPACE) + if name[8] != SPACE then [DOT] + Before(name[8..], SPACE) else []
  }

  /** The 8.3 form of a name says it all exactly when the name has no space and does not end with a dot. */
  lemma StandsIff(leaf: seq<Byte>)
    requires Fits83(leaf) && CString(leaf)
    ensures |leaf| > 0
    ensures StandsFor(Exact(leaf), leaf) <==> SPACE !in leaf && leaf[|leaf| - 1] != DOT
  {
    hide Before, Up, Capital, Stem, Tail, Matches, Exact, Shown, Fits83;
    StemAndTail(leaf);
    FormatIs(leaf);
    if SPACE !in leaf && leaf[|leaf| - 1] != DOT {
      ShownAll(leaf);
      NoZeros(leaf, Shown(leaf));
      BeforeAll(Shown(leaf), 0);
      SameText(leaf, Shown(leaf));
    } else {
      ShownLess(leaf);
      LengthsDiffer(Format(Exact(leaf)), leaf);
    }
  }

  lemma NoZeros(leaf: seq<Byte>, shown: seq<Byte>)
    requires CString(leaf) && |shown| == |leaf| && forall k :: 0 <= k < |leaf| ==> shown[k] == Up(leaf[k])
    ensures 0 !in shown
  {
  }

  lemma StemReads(leaf: seq<Byte>)
    requires Fits83(leaf)
    ensures var field := Exact(leaf)[..8];
            && |Before(field, SPACE)| == |Before(Stem(leaf), SPACE)| <= |Stem(leaf)|
            && (forall k :: 0 <= k < |Before(Stem(leaf), SPACE)| ==> Before(field, SPACE)[k] == Up(Stem(leaf)[k]))
  {
    hide Before;
    FieldReads(Stem(leaf), Exact(leaf)[..8]);
  }

  lemma ShownAll(leaf: seq<Byte>)
    requires Fits83(leaf) && CString(leaf) && |leaf| > 0 && SPACE !in leaf && leaf[|leaf| - 1] != DOT
    ensures |Shown(leaf)| == |leaf| && forall k :: 0 <= k < |leaf| ==> Shown(leaf)[k] == Up(leaf[k])
  {
    hide Before, Capital, Exact, Stem, Tail, Up;
    StemAndTail(leaf);
    StemReads(leaf);
    TailReads(leaf);
    var stem, tail := Stem(leaf), Tail(leaf);
    BeforeAll(stem, SPACE);
    BeforeAll(tail, SPACE);
    if |stem| < |leaf| {
      TwoFields(leaf, stem, tail, Before(Exact(leaf)[..8], SPACE), Before(Exact(leaf)[8..], SPACE));
    }
  }

  /** Two parts and the dot between them, each in capitals. */
  lemma TwoFields(leaf: seq<Byte>, stem: seq<Byte>, tail: seq<Byte>, s: seq<Byte>, t: seq<Byte>)
    requires leaf == stem + ([DOT] + tail) && |s| == |stem| && |t| == |tail|
    requires (forall k :: 0 <= k < |s| ==> s[k] == Up(stem[k])) && forall k :: 0 <= k < |t| ==> t[k] == Up(tail[k])
    ensures var shown := s + ([DOT] + t); |shown| == |leaf| && forall k :: 0 <= k < |leaf| ==> shown[k] == Up(leaf[k])
    ensures |tail| > 0 ==> leaf[|leaf| - 1] == tail[|tail| - 1]
    ensures |tail| == 0 ==> leaf[|leaf| - 1] == DOT
  {
  }

  lemma ShownLess(leaf: seq<Byte>)
    requires Fits83(leaf) && CString(leaf) && |leaf| > 0 && (SPACE in leaf || leaf[|leaf| - 1] == DOT)
    ensures |Shown(leaf)| < |leaf|
  {
    hide Before, Capital, Exact, Stem, Tail, Up;
    StemAndTail(leaf);
    StemReads(leaf);
    TailReads(leaf);
    var stem, tail := Stem(leaf), Tail(leaf);
    BeforeAll(stem, SPACE);
    BeforeAll(tail, SPACE);
    if |stem| < |leaf| {
      assert |leaf| == |stem| + 1 + |tail|;
      assert SPACE in leaf ==> SPACE in stem || SPACE in tail;
      if |tail| > 0 {
        assert leaf[|leaf| - 1] == tail[|tail| - 1];
      }
    } else {
      assert leaf == stem;
    }
  }

  lemma FormatIs(leaf: seq<Byte>)
    ensures Format(Exact(leaf)) == Before(Shown(leaf), 0)
  {
    hide Before;
  }

  lemma LengthsDiffer(a: seq<Byte>, b: seq<Byte>)
    requires |a| != |b|
    ensures !Matches(a, b)
  {
  }

  lemma TailReads(leaf: seq<Byte>)
    requires Fits83(leaf)
    ensures var field := Exact(leaf)[8..];
            && |Before(field, SPACE)| == |Before(Tail(leaf), SPACE)| <= |Tail(leaf)|
            && (forall k :: 0 <= k < |Before(Tail(leaf), SPACE)| ==> Before(field, SPACE)[k] == Up(Tail(leaf)[k]))
            && (Exact(leaf)[8] != SPACE <==> |Tail(leaf)| > 0 && Tail(leaf)[0] != SPACE)
  {
    hide Before;
    var field := Exact(leaf)[8..];
    forall k | 0 <= k < |field|
      ensures field[k] == Capital(Tail(leaf), k)
    {
      assert field[k] == Exact(leaf)[8 + k];
    }
    FieldReads(Tail(leaf), field);
  }

  /** What is shown of a name without spaces is the name in capitals. */
  lemma SameText(leaf: seq<Byte>, shown: seq<Byte>)
    requires |shown| == |leaf| && forall k :: 0 <= k < |leaf| ==> shown[k] == Up(leaf[k])
    ensures Matches(shown, leaf)
  {
  }

  // ----- numbered aliases

  const DIGITS: string := "0123456789"

  /** A letter, a digit or an underscore. */
  ghost predicate IsWord(b: Byte) {
    || (exists k :: 0 <= k < 26 && (b as int == LOWER[k] as int || b as int == UPPER[k] as int))
    || (exists k :: 0 <= k < 10 && b as int == DIGITS[k] as int) || b as int == '_' as int
  }

  lemma DigitAt(k: nat)
    requires k < 10
    ensures DIGITS[k] as int == 0x30 + k
  {
  }

  lemma PlainIff(b: Byte)
    ensures Plain(Up(b)) <==> IsWord(b)
  {
    forall k | 0 <= k < 26
      ensures LOWER[k] as int == 0x61 + k && UPPER[k] as int == 0x41 + k
    {
      Alphabet(k);
    }
    forall k | 0 <= k < 10
      ensures DIGITS[k] as int == 0x30 + k
    {
      DigitAt(k);
    }
    if 0x61 <= b <= 0x7A {
      assert b as int == LOWER[b - 0x61] as int;
    } else if 0x41 <= b <= 0x5A {
      assert b as int == UPPER[b - 0x41] as int;
    } else if 0x30 <= b <= 0x39 {
      assert b as int == DIGITS[b - 0x30] as int;
    }
  }

  /** p are the places in s of its first letters, digits and underscores, limit of them or all there are. */
  ghost predicate FirstWords(s: seq<Byte>, limit: nat, p: seq<nat>) {
    && |p| <= limit && (forall i :: 0 <= i < |p| ==> p[i] < |s| && IsWord(s[p[i]]))
    && (forall i, k :: 0 <= i < k < |p| ==> p[i] < p[k])
    && forall j :: 0 <= j < |s| && IsWord(s[j]) && j !in p ==> |p| == limit && forall i :: 0 <= i < |p| ==> p[i] < j
  }

  /** The sanitized form consists of the capitals of these. */
  lemma {:induction false} SanitizedIs(s: seq<Byte>, limit: nat) returns (p: seq<nat>)
    ensures FirstWords(s, limit, p) && |Sanitized(s, limit)| == |p|
    ensures forall i :: 0 <= i < |p| ==> Capitalized(s[p[i]], Sanitized(s, limit)[i])
    decreases |s|
  {
    hide IsWord, Plain, Up, Capitalized;
    p := [];
    if |s| > 0 {
      var rest, b := s[..|s| - 1], s[|s| - 1];
      p := SanitizedIs(rest, limit);
      PlainIff(b);
      UpIs(b);
      WordsMore(s, limit, p);
      if |p| < limit && Plain(Up(b)) {
        p := p + [|s| - 1];
      }
    }
  }

  lemma WordsMore(s: seq<Byte>, limit: nat, p: seq<nat>)
    requires |s| > 0 && FirstWords(s[..|s| - 1], limit, p)
    ensures if |p| < limit && IsWord(s[|s| - 1]) then FirstWords(s, limit, p + [|s| - 1]) else FirstWords(s, limit, p)
  {
    hide IsWord;
    var rest := s[..|s| - 1];
    var q := if |p| < limit && IsWord(s[|s| - 1]) then p + [|s| - 1] else p;
    if |p| < limit && IsWord(s[|s| - 1]) {
      assert q[|p|] == |s| - 1;
    }
    forall j | 0 <= j < |s| && IsWord(s[j]) && j !in q
      ensures |q| == limit && forall i :: 0 <= i < |q| ==> q[i] < j
    {
      if j < |s| - 1 {
        assert rest[j] == s[j] && j !in p;
      }
    }
  }

  /** The number that decimal digits stand for. */
  ghost function Decimal(d: seq<Byte>): int {
    if |d| == 0 then 0 else 10 * Decimal(d[..|d| - 1]) + (d[|d| - 1] as int - '0' as int)
  }

  lemma DigitsAre(n: nat)
    requires 1 <= n <= 999
    ensures Decimal(Digits(n)) == n && Digits(n)[0] as int != '0' as int
  {
    var d := Digits(n);
    assert Decimal(d[..0]) == 0;
    if |d| == 3 {
      assert d[..2][..1] == d[..1] && d[..1][..0] == d[..0];
      assert n / 10 / 10 == n / 100;
      assert Decimal(d[..1]) == n / 100;
      assert Decimal(d[..2]) == n / 10;
    } else if |d| == 2 {
      assert d[..1][..0] == d[..0];
    }
  }

  /** How much of the base stays in front of the tilde. */
  ghost function Keep(leaf: seq<Byte>, n: nat): (k: nat)
    requires 1 <= n <= 999
    ensures 1 <= k <= |AliasBase(leaf)| && k + 1 + |Digits(n)| <= 8
    ensures k == |AliasBase(leaf)| || k + 1 + |Digits(n)| == 8
  {
    Min(8 - |Digits(n)| - 1, |AliasBase(leaf)|)
  }

  lemma NoSpaces(s: seq<Byte>)
    requires forall i :: 0 <= i < |s| ==> Plain(s[i]) || s[i] == 0x7E
    ensures SPACE !in s && 0 !in s && Before(s, SPACE) == s
  {
    hide Before;
    BeforeStops(s, SPACE, |s|);
  }

  lemma PaddedReads(s: seq<Byte>, n: nat)
    requires SPACE !in s
    ensures Before(s + Spaces(n), SPACE) == s
  {
    hide Before;
    BeforeStops(s + Spaces(n), SPACE, |s|);
  }

  lemma ExtensionPlain(leaf: seq<Byte>)
    ensures |AliasExtension(leaf)| <= 3 && forall i :: 0 <= i < |AliasExtension(leaf)| ==>
              Plain(AliasExtension(leaf)[i])
  {
    hide Sanitized, LastDot, Plain;
  }

  /** A numbered alias is shown as the base, a tilde, the decimal number, and the extension behind a dot. */
  lemma AliasReads(leaf: seq<Byte>, n: nat)
    requires 1 <= n <= 999
    ensures var x := AliasExtension(leaf);
            Format(Alias(leaf, n)) ==
            AliasBase(leaf)[..Keep(leaf, n)] + [0x7E] + Digits(n) + if x == [] then [] else [DOT] + x
  {
    hide Before, AliasBase, AliasExtension, Digits, Plain, Keep;
    var x, a := AliasExtension(leaf), Alias(leaf, n);
    ExtensionPlain(leaf);
    var stem := AliasBase(leaf)[..Keep(leaf, n)] + [0x7E] + Digits(n);
    NumberedIs(leaf, n);
    StemPlain(leaf, n);
    NoSpaces(stem);
    NoSpaces(x);
    PaddedReads(stem, 8 - |stem|);
    PaddedReads(x, 3 - |x|);
    assert a[..8] == stem + Spaces(8 - |stem|) && a[8..] == x + Spaces(3 - |x|);
    PlainNoSpace(x);
    assert a[8] == if x == [] then SPACE else x[0];
    var shown := stem + if x == [] then [] else [DOT] + x;
    assert 0 !in shown;
    BeforeAll(shown, 0);
  }

  lemma PlainNoSpace(x: seq<Byte>)
    requires forall i :: 0 <= i < |x| ==> Plain(x[i])
    ensures x != [] ==> x[0] != SPACE
  {
  }

  lemma NumberedIs(leaf: seq<Byte>, n: nat)
    requires 1 <= n <= 999
    ensures var stem, x := AliasBase(leaf)[..Keep(leaf, n)] + [0x7E] + Digits(n), AliasExtension(leaf);
            |stem| <= 8 && |x| <= 3 && Alias(leaf, n) == stem + Spaces(8 - |stem|) + x + Spaces(3 - |x|)
  {
    hide AliasBase, AliasExtension, Digits;
  }

  lemma StemPlain(leaf: seq<Byte>, n: nat)
    requires 1 <= n <= 999
    ensures var stem := AliasBase(leaf)[..Keep(leaf, n)] + [0x7E] + Digits(n);
            forall i :: 0 <= i < |stem| ==> Plain(stem[i]) || stem[i] == 0x7E
  {
    hide AliasBase, Digits, Keep;
  }

  /** The base comes from before the last dot and the extension from behind it. */
  lemma LastDotIs(leaf: seq<Byte>, n: nat)
    requires n <= |leaf|
    ensures var dot := LastDot(leaf, n);
            if dot.None? then forall i :: 0 <= i < n ==> leaf[i] != DOT
            else leaf[dot.value] == DOT && forall i :: dot.value < i < n ==> leaf[i] != DOT
  {
  }

  /** Different numbers give different aliases. */
  lemma AliasesDiffer(leaf: seq<Byte>, n: nat, m: nat)
    requires 1 <= n <= 999 && 1 <= m <= 999 && Alias(leaf, n) == Alias(leaf, m)
    ensures n == m
  {
    hide AliasBase, AliasExtension, Digits, Keep, Alias, Plain;
    NumberedIs(leaf, n);
    NumberedIs(leaf, m);
    var a, k, l := Alias(leaf, n), Keep(leaf, n), Keep(leaf, m);
    AliasParts(leaf, n);
    AliasParts(leaf, m);
    assert k == l;
    var i := k + 1 + Min(|Digits(n)|, |Digits(m)|);
    var next := if i < 8 then a[i] else SPACE;
    assert |Digits(n)| == |Digits(m)|;
    assert Digits(n) == a[k + 1..k + 1 + |Digits(n)|] == Digits(m);
    DigitsAre(n);
    DigitsAre(m);
  }

  lemma AliasParts(leaf: seq<Byte>, n: nat)
    requires 1 <= n <= 999
    ensures var a, k, d := Alias(leaf, n), Keep(leaf, n), Digits(n);
            && k + 1 + |d| <= 8 && a[k] == 0x7E && (forall i :: 0 <= i < k ==> a[i] != 0x7E)
               && a[k + 1..k + 1 + |d|] == d
            && (forall i :: k + 1 <= i < k + 1 + |d| ==> a[i] != SPACE) && forall i :: k + 1 + |d| <= i < 8 ==>
                 a[i] == SPACE
  {
    hide AliasBase, AliasExtension, Keep, Alias;
    NumberedIs(leaf, n);
    var base := AliasBase(leaf);
    assert forall i :: 0 <= i < |base| ==> Plain(base[i]);
  }
}
