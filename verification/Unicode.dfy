/** Names between UTF-8 paths and UTF-16 directory entries. */
module Unicode {
  import opened Bytes

  /** A decoded character and the number of bytes it took. */
  datatype Char = Char(cp: nat, size: nat)

  /** Reading past the end of a C string meets its terminator. */
  function At(s: seq<Byte>, i: nat): Byte {
    if i < |s| then s[i] else 0
  }

  /** A continuation byte, 10xxxxxx. */
  predicate Cont(b: Byte) {
    b / 64 == 2
  }

  /** The character that starts at byte i, when it is a shortest-form UTF-8 sequence of a scalar value. */
  function Take(s: seq<Byte>, i: nat): Option<Char>
    requires i < |s|
  {
    var first, b1, b2, b3 := s[i], At(s, i + 1), At(s, i + 2), At(s, i + 3);
    if first < 0x80 then Some(Char(first, 1))
    else if first / 32 == 6 && Cont(b1) then
      var cp := first % 32 * 64 + b1 % 64;
      if cp < 0x80 then None else Some(Char(cp, 2))
    else if first / 16 == 14 && Cont(b1) && Cont(b2) then
      var cp := first % 16 * 0x1000 + b1 % 64 * 64 + b2 % 64;
      if cp < 0x800 || 0xD800 <= cp <= 0xDFFF then None else Some(Char(cp, 3))
    else if first / 8 == 30 && Cont(b1) && Cont(b2) && Cont(b3) then
      var cp := first % 8 * 0x4_0000 + b1 % 64 * 0x1000 + b2 % 64 * 64 + b3 % 64;
      if cp < 0x1_0000 || cp > 0x10_FFFF then None else Some(Char(cp, 4))
    else None
  }

  /** A Unicode scalar value. */
  predicate Scalar(cp: nat) {
    cp <= 0x10_FFFF && !(0xD800 <= cp <= 0xDFFF)
  }

  /** UTF-8 of one scalar value. */
  function Utf8(cp: nat): (b: seq<Byte>)
    requires cp <= 0x10_FFFF
    ensures 1 <= |b| <= 4
  {
    if cp < 0x80 then [cp]
    else if cp < 0x800 then [0xC0 + cp / 64, 0x80 + cp % 64]
    else if cp < 0x1_0000 then [0xE0 + cp / 0x1000, 0x80 + cp / 64 % 64, 0x80 + cp % 64]
    else [0xF0 + cp / 0x4_0000, 0x80 + cp / 0x1000 % 64, 0x80 + cp / 64 % 64, 0x80 + cp % 64]
  }

  /** UTF-16 of one scalar value. */
  function Utf16(cp: nat): (u: seq<nat>)
    requires cp <= 0x10_FFFF
    ensures 1 <= |u| <= 2 && forall i :: 0 <= i < |u| ==> u[i] < 0x1_0000
  {
    if cp < 0x1_0000 then [cp] else [0xD800 + (cp - 0x1_0000) / 0x400, 0xDC00 + (cp - 0x1_0000) % 0x400]
  }

  /** What is taken from a string is the UTF-8 of the scalar value found. */
  lemma TakeIsUtf8(s: seq<Byte>, i: nat)
    requires i < |s| && Take(s, i).Some? && forall k :: 0 <= k < |s| ==> s[k] != 0
    ensures var c := Take(s, i).value;
            Scalar(c.cp) && c.size == |Utf8(c.cp)| && i + c.size <= |s| && s[i..i + c.size] == Utf8(c.cp)
  {
    var c := Take(s, i).value;
    var first, b1, b2, b3 := s[i], At(s, i + 1), At(s, i + 2), At(s, i + 3);
    if c.size == 2 {
      TwoBytes(first, b1);
    } else if c.size == 3 {
      ThreeBytes(first, b1, b2);
    } else if c.size == 4 {
      FourBytes(first, b1, b2, b3);
    }
  }

  lemma TwoBytes(first: Byte, b1: Byte)
    requires first / 32 == 6 && Cont(b1)
    ensures var cp := first % 32 * 64 + b1 % 64;
            cp < 0x800 && 0xC0 + cp / 64 == first && 0x80 + cp % 64 == b1
  {
  }

  lemma ThreeBytes(first: Byte, b1: Byte, b2: Byte)
    requires first / 16 == 14 && Cont(b1) && Cont(b2)
    ensures var cp := first % 16 * 0x1000 + b1 % 64 * 64 + b2 % 64;
            cp < 0x1_0000 && 0xE0 + cp / 0x1000 == first && 0x80 + cp / 64 % 64 == b1 && 0x80 + cp % 64 == b2
  {
    var x, y, z := first % 16, b1 % 64, b2 % 64;
    assert (x * 0x1000 + y * 64 + z) / 64 == x * 64 + y;
  }

  lemma FourBytes(first: Byte, b1: Byte, b2: Byte, b3: Byte)
    requires first / 8 == 30 && Cont(b1) && Cont(b2) && Cont(b3)
    ensures var cp := first % 8 * 0x4_0000 + b1 % 64 * 0x1000 + b2 % 64 * 64 + b3 % 64;
            && 0xF0 + cp / 0x4_0000 == first && 0x80 + cp / 0x1000 % 64 == b1
            && 0x80 + cp / 64 % 64 == b2 && 0x80 + cp % 64 == b3
  {
    var w, x, y, z := first % 8, b1 % 64, b2 % 64, b3 % 64;
    var cp := w * 0x4_0000 + x * 0x1000 + y * 64 + z;
    assert cp / 64 == w * 0x1000 + x * 64 + y;
    assert cp / 0x1000 == w * 64 + x;
  }

  /** And the UTF-8 of a scalar value is taken as that value. */
  lemma Utf8IsTaken(s: seq<Byte>, i: nat, cp: nat)
    requires Scalar(cp) && i + |Utf8(cp)| <= |s| && s[i..i + |Utf8(cp)|] == Utf8(cp)
    ensures Take(s, i) == Some(Char(cp, |Utf8(cp)|))
  {
    var b := Utf8(cp);
    forall k | 0 <= k < |b|
      ensures s[i + k] == b[k]
    {
      assert s[i..i + |b|][k] == b[k];
    }
    assert s[i] == b[0];
    if 0x80 <= cp < 0x800 {
      var x, y := cp / 64, cp % 64;
      assert (0xC0 + x) / 32 == 6 && (0xC0 + x) % 32 == x && (0x80 + y) / 64 == 2 && (0x80 + y) % 64 == y;
    } else if 0x800 <= cp < 0x1_0000 {
      Digits3(cp);
    } else if cp >= 0x1_0000 {
      Digits4(cp);
    }
  }

  lemma Digits3(cp: nat)
    requires 0x800 <= cp < 0x1_0000
    ensures var b := Utf8(cp);
            && |b| == 3 && b[0] / 16 == 14 && Cont(b[1]) && Cont(b[2])
            && cp == b[0] as int % 16 * 0x1000 + b[1] as int % 64 * 64 + b[2] as int % 64
  {
    assert cp / 64 / 64 == cp / 0x1000;
    assert cp / 64 == cp / 0x1000 * 64 + cp / 64 % 64;
  }

  lemma Digits4(cp: nat)
    requires 0x1_0000 <= cp <= 0x10_FFFF
    ensures var b := Utf8(cp);
            && |b| == 4 && b[0] / 8 == 30 && Cont(b[1]) && Cont(b[2]) && Cont(b[3])
            && cp == b[0] as int % 8 * 0x4_0000 + b[1] as int % 64 * 0x1000 + b[2] as int % 64 * 64 + b[3] as int % 64
  {
    assert cp / 64 / 64 == cp / 0x1000 && cp / 0x1000 / 64 == cp / 0x4_0000;
    assert cp / 64 == cp / 0x1000 * 64 + cp / 64 % 64;
    assert cp / 0x1000 == cp / 0x4_0000 * 64 + cp / 0x1000 % 64;
  }

  /** Characters that may appear in a name. */
  predicate Allowed(cp: nat) {
    cp >= 0x20 && cp !in {0x22, 0x2A, 0x2F, 0x3A, 0x3C, 0x3E, 0x3F, 0x5C, 0x7C}
  }

  /** The UTF-16 of the rest of a name, if it is well-formed and has only allowed characters. */
  function Units(s: seq<Byte>, i: nat): (r: Option<seq<nat>>)
    requires i <= |s| && forall k :: 0 <= k < |s| ==> s[k] != 0
    decreases |s| - i
  {
    if i == |s| then Some([])
    else
      var c := Take(s, i);
      if c.None? || !Allowed(c.value.cp) then None
      else
        TakeIsUtf8(s, i);
        var rest := Units(s, i + c.value.size);
        if rest.None? then None else Some(Utf16(c.value.cp) + rest.value)
  }

  predicate CString(s: seq<Byte>) {
    forall k :: 0 <= k < |s| ==> s[k] != 0
  }

  /** Names that FAT32 accepts. */
  predicate Accepted(s: seq<Byte>) {
    CString(s) && Units(s, 0).Some? && 1 <= |Units(s, 0).value| <= 255
    && Units(s, 0).value[|Units(s, 0).value| - 1] !in {0x20, 0x2E}
  }

  lemma {:induction false} UnitsBounds(s: seq<Byte>, i: nat)
    requires CString(s) && i <= |s| && Units(s, i).Some?
    ensures forall k :: 0 <= k < |Units(s, i).value| ==> 0x20 <= Units(s, i).value[k] < 0x1_0000
    ensures i < |s| ==> |Units(s, i).value| > 0
    decreases |s| - i
  {
    if i < |s| {
      TakeIsUtf8(s, i);
      UnitsBounds(s, i + Take(s, i).value.size);
    }
  }

  /** One character more or less. */
  lemma UnitsStep(s: seq<Byte>, i: nat)
    requires CString(s) && i < |s|
    ensures var c := Take(s, i);
            if c.None? || !Allowed(c.value.cp) then Units(s, i).None?
            else
              && 0 < c.value.size && i + c.value.size <= |s| && c.value.cp <= 0x10_FFFF
              && var rest := Units(s, i + c.value.size);
                 Units(s, i) == if rest.None? then None else Some(Utf16(c.value.cp) + rest.value)
  {
    hide Take, Utf16, Allowed;
    if Take(s, i).Some? {
      TakeIsUtf8(s, i);
    }
  }

  lemma UnitsEnd(s: seq<Byte>)
    requires CString(s)
    ensures Units(s, |s|) == Some([])
  {
  }

  // ----- the names accepted, as texts

  const FORBIDDEN: string := "\"*/:<>?\\|"

  /** A scalar value that is no control character and none of the forbidden ones. */
  ghost predicate Permitted(cp: nat) {
    Scalar(cp) && cp >= ' ' as nat && forall k :: 0 <= k < |FORBIDDEN| ==> cp != FORBIDDEN[k] as nat
  }

  lemma AllowedIff(cp: nat)
    ensures Permitted(cp) <==> Scalar(cp) && Allowed(cp)
  {
    assert FORBIDDEN == ['"', '*', '/', ':', '<', '>', '?', '\\', '|'];
    assert FORBIDDEN[0] == '"' && FORBIDDEN[1] == '*' && FORBIDDEN[2] == '/' && FORBIDDEN[3] == ':';
    assert FORBIDDEN[4] == '<' && FORBIDDEN[5] == '>' && FORBIDDEN[6] == '?' && FORBIDDEN[7] == '\\';
    assert FORBIDDEN[8] == '|';
  }

  ghost predicate IsText(text: seq<nat>) {
    forall k :: 0 <= k < |text| ==> Permitted(text[k])
  }

  ghost function AllUtf8(text: seq<nat>): seq<Byte>
    requires IsText(text)
  {
    if |text| == 0 then [] else Utf8(text[0]) + AllUtf8(text[1..])
  }

  ghost function AllUtf16(text: seq<nat>): (u: seq<nat>)
    requires IsText(text)
    ensures |u| >= |text|
  {
    if |text| == 0 then [] else Utf16(text[0]) + AllUtf16(text[1..])
  }

  /** s is the UTF-8 of a text of permitted characters, of 1 to 255 units, that does not end in a blank or a dot. */
  ghost predicate Spells(text: seq<nat>, s: seq<Byte>) {
    && IsText(text) && s == AllUtf8(text) && 1 <= |AllUtf16(text)| <= 255
    && |text| > 0 && text[|text| - 1] != ' ' as nat && text[|text| - 1] != '.' as nat
  }

  lemma {:induction false} UnitsOfText(s: seq<Byte>, i: nat, text: seq<nat>)
    requires CString(s) && i <= |s| && IsText(text) && s[i..] == AllUtf8(text)
    ensures Units(s, i) == Some(AllUtf16(text))
    decreases |text|
  {
    hide Take, Utf16, Allowed, Units, Utf8, Permitted;
    if |text| == 0 {
      UnitsEnd(s);
    } else {
      assert Permitted(text[0]);
      AllowedIff(text[0]);
      var n := |Utf8(text[0])|;
      assert s[i..i + n] == s[i..][..n] == Utf8(text[0]);
      Utf8IsTaken(s, i, text[0]);
      assert s[i + n..] == s[i..][n..] == AllUtf8(text[1..]);
      UnitsOfText(s, i + n, text[1..]);
      UnitsStep(s, i);
    }
  }

  lemma {:induction false} TextOf(s: seq<Byte>, i: nat) returns (text: seq<nat>)
    requires CString(s) && i <= |s| && Units(s, i).Some?
    ensures IsText(text) && s[i..] == AllUtf8(text)
    decreases |s| - i
  {
    hide Take, Utf16, Allowed, Units, Utf8, Permitted;
    text := [];
    if i < |s| {
      UnitsStep(s, i);
      TakeIsUtf8(s, i);
      var c := Take(s, i).value;
      AllowedIff(c.cp);
      var rest := TextOf(s, i + c.size);
      text := [c.cp] + rest;
      assert text[1..] == rest && s[i..] == s[i..i + c.size] + s[i + c.size..];
    }
  }

  lemma {:induction false} LastUnit(text: seq<nat>)
    requires IsText(text) && |text| > 0
    ensures var u, last := AllUtf16(text), text[|text| - 1];
            |u| > 0 && (u[|u| - 1] == 0x20 <==> last == 0x20) && (u[|u| - 1] == 0x2E <==> last == 0x2E)
  {
    hide Permitted;
    assert Permitted(text[0]);
    AllowedIff(text[0]);
    var rest := text[1..];
    if |rest| > 0 {
      LastUnit(rest);
      assert AllUtf16(text)[|AllUtf16(text)| - 1] == AllUtf16(rest)[|AllUtf16(rest)| - 1];
    } else {
      assert AllUtf16(rest) == [] && AllUtf16(text) == Utf16(text[0]);
    }
  }

  /** The names that are accepted are exactly the spelled ones, and their units are the UTF-16 of the text. */
  lemma AcceptedIff(s: seq<Byte>)
    requires CString(s)
    ensures Accepted(s) <==> exists text :: Spells(text, s)
    ensures forall text :: Spells(text, s) ==> Units(s, 0) == Some(AllUtf16(text))
  {
    hide Units, AllUtf8, AllUtf16;
    forall text | Spells(text, s)
      ensures Accepted(s) && Units(s, 0) == Some(AllUtf16(text))
    {
      assert s[0..] == s;
      UnitsOfText(s, 0, text);
      LastUnit(text);
    }
    if Accepted(s) {
      var text := TextOf(s, 0);
      assert s[0..] == s;
      UnitsOfText(s, 0, text);
      NoText(text);
      LastUnit(text);
      assert Spells(text, s);
    }
  }

  lemma NoText(text: seq<nat>)
    requires IsText(text) && |AllUtf16(text)| > 0
    ensures |text| > 0
  {
  }

  /** utf8_name_to_utf16 accepts exactly these names and yields their UTF-16. */
  method NameToUtf16(input: seq<Byte>) returns (ok: bool, output: seq<nat>)
    requires CString(input)
    ensures ok <==> Accepted(input)
    ensures ok ==> output == Units(input, 0).value
    ensures ok <==> exists text :: Spells(text, input)
    ensures forall text :: Spells(text, input) ==> output == AllUtf16(text)
  {
    hide Take, Utf16, Allowed, Units, Spells, AllUtf16;
    AcceptedIff(input);
    output := [];
    UnitsEnd(input);
    if |input| == 0 {
      return false, output;
    }
    var at := 0;
    while at < |input|
      invariant at <= |input| && |output| <= 255
      invariant Units(input, 0).Some? <==> Units(input, at).Some?
      invariant Units(input, at).Some? ==> Units(input, 0).value == output + Units(input, at).value
      decreases |input| - at
    {
      var c := Take(input, at);
      UnitsStep(input, at);
      if c.None? || !Allowed(c.value.cp) {
        return false, output;
      }
      var u := Utf16(c.value.cp);
      if |output| + |u| > 255 {
        return false, output;
      }
      if Units(input, at).Some? {
        assert output + (u + Units(input, at + c.value.size).value) ==
               output + u + Units(input, at + c.value.size).value;
      }
      output := output + u;
      at := at + c.value.size;
    }
    assert output + [] == output;
    ok := |output| != 0 && output[|output| - 1] != 0x20 && output[|output| - 1] != 0x2E;
  }

  // ----- back to UTF-8

  /** One character of a UTF-16 name, a surrogate pair taken together. */
  function Join(name: seq<nat>, i: nat): (c: Char)
    requires |name| == 256 && i < 255 && forall k :: 0 <= k < 256 ==> name[k] < 0x1_0000
    ensures 1 <= c.size <= 2 && i + c.size <= 255 && c.cp <= 0x10_FFFF
  {
    var u := name[i];
    if 0xD800 <= u <= 0xDBFF && i + 1 < 255 && 0xDC00 <= name[i + 1] <= 0xDFFF
    then Char(0x1_0000 + (u - 0xD800) * 0x400 + (name[i + 1] - 0xDC00), 2)
    else Char(u, 1)
  }

  /** The bytes that utf16_name_to_utf8 produces from unit i on, when used bytes are already out. */
  function Text(name: seq<nat>, i: nat, used: nat): (b: seq<Byte>)
    requires |name| == 256 && forall k :: 0 <= k < 256 ==> name[k] < 0x1_0000
    decreases 256 - i
  {
    if i >= 255 || name[i] == 0 || name[i] == 0xFFFF || used + 1 >= 256 then []
    else
      var c := Join(name, i);
      var b := if used + |Utf8(c.cp)| < 256 then Utf8(c.cp) else [0x3F];
      b + Text(name, i + c.size, used + |b|)
  }

  lemma Regroup<T>(a: seq<T>, b: seq<T>, c: seq<T>)
    ensures a + (b + c) == a + b + c
  {
  }

  lemma TextStep(name: seq<nat>, i: nat, used: nat)
    requires |name| == 256 && forall k :: 0 <= k < 256 ==> name[k] < 0x1_0000
    ensures Text(name, i, used) ==
            if i >= 255 || name[i] == 0 || name[i] == 0xFFFF || used + 1 >= 256 then []
            else
              var c := Join(name, i);
              var b := if used + |Utf8(c.cp)| < 256 then Utf8(c.cp) else [0x3F];
              b + Text(name, i + c.size, used + |b|)
  {
    hide Join, Utf8;
  }

  method NameToUtf8(name: seq<nat>) returns (output: seq<Byte>)
    requires |name| == 256 && forall k :: 0 <= k < 256 ==> name[k] < 0x1_0000
    ensures output == Text(name, 0, 0)
  {
    hide Join, Utf8, Text;
    output := [];
    var input := 0;
    while input < 255 && name[input] != 0 && name[input] != 0xFFFF && |output| + 1 < 256
      invariant input <= 255
      invariant output + Text(name, input, |output|) == Text(name, 0, 0)
    {
      TextStep(name, input, |output|);
      var c := Join(name, input);
      var b := if |output| + |Utf8(c.cp)| < 256 then Utf8(c.cp) else [0x3F];
      Regroup(output, b, Text(name, input + c.size, |output| + |b|));
      output := output + b;
      input := input + c.size;
    }
    TextStep(name, input, |output|);
    assert output + [] == output;
  }

  lemma JoinPair(name: seq<nat>, i: nat, cp: nat)
    requires |name| == 256 && (forall k :: 0 <= k < 256 ==> name[k] < 0x1_0000) && Scalar(cp)
    requires i + |Utf16(cp)| <= 255 && name[i..i + |Utf16(cp)|] == Utf16(cp)
    ensures Join(name, i) == Char(cp, |Utf16(cp)|)
  {
    var u := Utf16(cp);
    assert name[i] == name[i..i + |u|][0] == u[0];
    if cp >= 0x1_0000 {
      assert name[i + 1] == name[i..i + |u|][1] == u[1];
    }
  }

  lemma SliceParts(name: seq<nat>, k: nat, u: seq<nat>, rest: seq<nat>)
    requires |u| > 0 && k + |u| + |rest| <= |name| && name[k..k + |u + rest|] == u + rest
    ensures name[k] == (u + rest)[0] && name[k..k + |u|] == u && name[k + |u|..k + |u| + |rest|] == rest
  {
    assert name[k] == name[k..k + |u + rest|][0];
    assert name[k..k + |u|] == name[k..k + |u + rest|][..|u|];
    assert name[k + |u|..k + |u| + |rest|] == name[k..k + |u + rest|][|u|..];
  }

  /** The rest of a name up to its first U+FFFF, which passes for the end of a long name. */
  function UpToMark(s: seq<Byte>, i: nat): (r: seq<Byte>)
    requires i <= |s| && CString(s)
    ensures |r| <= |s| - i && r == s[i..i + |r|]
    decreases |s| - i
  {
    if i == |s| || Take(s, i).None? || Take(s, i).value.cp == 0xFFFF then []
    else
      TakeIsUtf8(s, i);
      s[i..i + Take(s, i).value.size] + UpToMark(s, i + Take(s, i).value.size)
  }

  lemma UpToMarkStep(s: seq<Byte>, i: nat)
    requires i < |s| && CString(s) && Take(s, i).Some?
    ensures var c := Take(s, i).value;
            && i + c.size <= |s|
            && UpToMark(s, i) == if c.cp == 0xFFFF then [] else s[i..i + c.size] + UpToMark(s, i + c.size)
  {
    hide Take;
    TakeIsUtf8(s, i);
  }

  lemma Utf16Mark(cp: nat)
    requires Scalar(cp)
    ensures 0xFFFF in Utf16(cp) <==> cp == 0xFFFF
  {
  }

  /** A name without U+FFFF is read to its end, any other is not. */
  lemma {:induction false} UpToMarkAll(s: seq<Byte>, i: nat)
    requires i <= |s| && CString(s) && Units(s, i).Some?
    ensures |UpToMark(s, i)| == |s| - i <==> 0xFFFF !in Units(s, i).value
    decreases |s| - i
  {
    hide Take, Utf16, Utf8, UpToMark, Units;
    if i < |s| {
      UnitsStep(s, i);
      TakeIsUtf8(s, i);
      UpToMarkStep(s, i);
      Utf16Mark(Take(s, i).value.cp);
      UpToMarkAll(s, i + Take(s, i).value.size);
    } else {
      UnitsEnd(s);
    }
  }

  /** A name of ASCII characters has no U+FFFF. */
  lemma {:induction false} AsciiUnits(s: seq<Byte>, i: nat)
    requires i <= |s| && CString(s) && Units(s, i).Some? && forall k :: 0 <= k < |s| ==> s[k] < 0x80
    ensures 0xFFFF !in Units(s, i).value
    decreases |s| - i
  {
    if i < |s| {
      AsciiUnits(s, i + 1);
    }
  }

  /** Round trip: a long name built from a name gives that name back, up to its first U+FFFF. */
  lemma {:induction false} TextOfUnits(name: seq<nat>, k: nat, s: seq<Byte>, i: nat)
    requires |name| == 256 && forall j :: 0 <= j < 256 ==> name[j] < 0x1_0000
    requires CString(s) && i <= |s| <= 255 && Units(s, i).Some?
    requires var u := Units(s, i).value;
             && k + |u| <= 255 && name[k..k + |u|] == u
             && (k + |u| < 255 ==> name[k + |u|] in {0, 0xFFFF})
    ensures Text(name, k, i) == UpToMark(s, i)
    decreases |s| - i
  {
    hide Take, Join, Utf8, Utf16, Text, Units, UpToMark;
    TextStep(name, k, i);
    if i < |s| {
      UnitsStep(s, i);
      TakeIsUtf8(s, i);
      UnitsBounds(s, i);
      UpToMarkStep(s, i);
      var c := Take(s, i).value;
      var u, rest := Utf16(c.cp), Units(s, i + c.size).value;
      SliceParts(name, k, u, rest);
      Utf16First(c.cp);
      JoinPair(name, k, c.cp);
      TextOfUnits(name, k + |u|, s, i + c.size);
    } else {
      UnitsEnd(s);
      UpToMarkEnd(s);
    }
  }

  lemma Utf16First(cp: nat)
    requires Scalar(cp) && cp != 0
    ensures Utf16(cp)[0] != 0 && (Utf16(cp)[0] == 0xFFFF <==> cp == 0xFFFF)
  {
  }

  lemma UpToMarkEnd(s: seq<Byte>)
    requires CString(s)
    ensures UpToMark(s, |s|) == []
  {
  }
}
