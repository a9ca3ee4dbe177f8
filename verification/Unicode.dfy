/** Text as Unicode scalar values, and its two encodings: UTF-16 in the editor widget and UTF-8 in the
    document (client/src/utf8_codec.cpp; RFC 3629 section 3, RFC 2781 section 2). */
module Unicode {
  import opened Operations
  import opened Utf8

  type Scalar = c: int | 0 <= c <= 0xD7FF || 0xE000 <= c <= 0x10FFFF

  /** A QChar. */
  type Unit = u: int | 0 <= u < 0x1_0000

  type Units = seq<Unit>

  // ---- one character

  function Bytes(c: Scalar): Text {
    if c < 0x80 then [c]
    else if c < 0x800 then [0xC0 + c / 0x40, 0x80 + c % 0x40]
    else if c < 0x1_0000 then [0xE0 + c / 0x1000, 0x80 + c / 0x40 % 0x40, 0x80 + c % 0x40]
    else [0xF0 + c / 0x4_0000, 0x80 + c / 0x1000 % 0x40, 0x80 + c / 0x40 % 0x40, 0x80 + c % 0x40]
  }

  function FirstOfBytes(s: Text): (c: Scalar)
    requires CharLength(s) > 0
  {
    var n := CharLength(s);
    var b0: int := s[0];
    if n == 1 then b0
    else
      var b1: int := s[1];
      if n == 2 then (b0 - 0xC0) * 0x40 + (b1 - 0x80)
      else
        var b2: int := s[2];
        if n == 3 then (b0 - 0xE0) * 0x1000 + (b1 - 0x80) * 0x40 + (b2 - 0x80)
        else
          var b3: int := s[3];
          (b0 - 0xF0) * 0x4_0000 + (b1 - 0x80) * 0x1000 + (b2 - 0x80) * 0x40 + (b3 - 0x80)
  }

  predicate High(u: Unit) { 0xD800 <= u <= 0xDBFF }

  predicate Low(u: Unit) { 0xDC00 <= u <= 0xDFFF }

  function UnitsOf(c: Scalar): Units {
    if c < 0x1_0000 then [c] else [0xD800 + (c - 0x1_0000) / 0x400, 0xDC00 + (c - 0x1_0000) % 0x400]
  }

  /** Number of units of the character at the front of s; 0 when no character starts there. */
  function UnitLength(s: Units): (n: nat)
    ensures n <= 2 && n <= |s|
  {
    if |s| >= 1 && !High(s[0]) && !Low(s[0]) then 1
    else if |s| >= 2 && High(s[0]) && Low(s[1]) then 2
    else 0
  }

  function FirstOfUnits(s: Units): (c: Scalar)
    requires UnitLength(s) > 0
  {
    var u0: int := s[0];
    if UnitLength(s) == 1 then u0
    else
      var u1: int := s[1];
      0x1_0000 + (u0 - 0xD800) * 0x400 + (u1 - 0xDC00)
  }

  lemma SixBits(c: nat)
    ensures c == c / 0x40 * 0x40 + c % 0x40
    ensures c / 0x40 == c / 0x1000 * 0x40 + c / 0x40 % 0x40
    ensures c / 0x1000 == c / 0x4_0000 * 0x40 + c / 0x1000 % 0x40
  {
  }

  /** Base-64 digits are what division and remainder give back. */
  lemma Digits(high: nat, low: nat)
    requires low < 0x40
    ensures (high * 0x40 + low) / 0x40 == high && (high * 0x40 + low) % 0x40 == low
  {
  }

  lemma Divisions(c: nat)
    ensures c / 0x1000 == c / 0x40 / 0x40 && c / 0x4_0000 == c / 0x40 / 0x40 / 0x40
  {
  }

  /** The bytes of a scalar value announce their own number. */
  lemma BytesLength(c: Scalar, s: Text)
    requires Bytes(c) <= s
    ensures CharLength(s) == |Bytes(c)| > 0
  {
    var b := Bytes(c);
    assert forall i :: 0 <= i < |b| ==> s[i] == b[i];
    Divisions(c);
  }

  lemma BytesDecode(c: Scalar, rest: Text)
    ensures CharLength(Bytes(c) + rest) == |Bytes(c)| > 0 && FirstOfBytes(Bytes(c) + rest) == c
  {
    hide CharLength;
    var b := Bytes(c);
    var s := b + rest;
    BytesLength(c, s);
    assert forall i :: 0 <= i < |b| ==> s[i] == b[i];
    SixBits(c);
  }

  lemma BytesEncode(s: Text)
    requires CharLength(s) > 0
    ensures Bytes(FirstOfBytes(s)) == s[..CharLength(s)]
  {
    var c := FirstOfBytes(s);
    Divisions(c);
    if CharLength(s) == 2 {
      Digits(s[0] - 0xC0, s[1] - 0x80);
    } else if CharLength(s) == 3 {
      BytesEncodeThree(s);
    } else if CharLength(s) == 4 {
      BytesEncodeFour(s);
    }
  }

  lemma BytesEncodeThree(s: Text)
    requires CharLength(s) == 3
    ensures Bytes(FirstOfBytes(s)) == s[..3]
  {
    var c := FirstOfBytes(s);
    var high: nat := (s[0] as int - 0xE0) * 0x40 + (s[1] as int - 0x80);
    assert c == high * 0x40 + (s[2] as int - 0x80);
    Digits(high, s[2] - 0x80);
    Digits(s[0] - 0xE0, s[1] - 0x80);
    Divisions(c);
  }

  lemma BytesEncodeFour(s: Text)
    requires CharLength(s) == 4
    ensures Bytes(FirstOfBytes(s)) == s[..4]
  {
    var c := FirstOfBytes(s);
    var high: nat := (s[0] as int - 0xF0) * 0x40 + (s[1] as int - 0x80);
    var middle: nat := high * 0x40 + (s[2] as int - 0x80);
    assert c == middle * 0x40 + (s[3] as int - 0x80);
    Digits(middle, s[3] - 0x80);
    Digits(high, s[2] - 0x80);
    Digits(s[0] - 0xF0, s[1] - 0x80);
    Divisions(c);
  }

  lemma UnitsDecode(c: Scalar, rest: Units)
    ensures UnitLength(UnitsOf(c) + rest) == |UnitsOf(c)| > 0 && FirstOfUnits(UnitsOf(c) + rest) == c
  {
    var s := UnitsOf(c) + rest;
    assert forall i :: 0 <= i < |UnitsOf(c)| ==> s[i] == UnitsOf(c)[i];
  }

  lemma UnitsEncode(s: Units)
    requires UnitLength(s) > 0
    ensures UnitsOf(FirstOfUnits(s)) == s[..UnitLength(s)]
  {
  }

  // ---- whole texts

  predicate IsUtf16(s: Units)
    decreases |s|
  {
    s == [] || (UnitLength(s) > 0 && IsUtf16(s[UnitLength(s)..]))
  }

  /** Position i of the editor's text splits no surrogate pair. */
  predicate UnitBoundary(s: Units, i: int) {
    0 <= i <= |s| && IsUtf16(s[..i]) && IsUtf16(s[i..])
  }

  function Utf8Of(text: seq<Scalar>): Text {
    if text == [] then [] else Bytes(text[0]) + Utf8Of(text[1..])
  }

  function Utf16Of(text: seq<Scalar>): Units {
    if text == [] then [] else UnitsOf(text[0]) + Utf16Of(text[1..])
  }

  function FromBytes(s: Text): seq<Scalar>
    requires IsUtf8(s)
    decreases |s|
  {
    if s == [] then [] else [FirstOfBytes(s)] + FromBytes(s[CharLength(s)..])
  }

  function FromUnits(s: Units): seq<Scalar>
    requires IsUtf16(s)
    decreases |s|
  {
    if s == [] then [] else [FirstOfUnits(s)] + FromUnits(s[UnitLength(s)..])
  }

  lemma {:induction false} BytesRoundTrip(text: seq<Scalar>)
    ensures IsUtf8(Utf8Of(text)) && FromBytes(Utf8Of(text)) == text
  {
    hide Bytes, CharLength, FirstOfBytes;
    if text != [] {
      BytesRoundTrip(text[1..]);
      var rest := Utf8Of(text[1..]);
      BytesDecode(text[0], rest);
      assert (Bytes(text[0]) + rest)[|Bytes(text[0])|..] == rest;
    }
  }

  lemma {:induction false} UnitsRoundTrip(text: seq<Scalar>)
    ensures IsUtf16(Utf16Of(text)) && FromUnits(Utf16Of(text)) == text
  {
    hide UnitsOf, UnitLength, FirstOfUnits;
    if text != [] {
      UnitsRoundTrip(text[1..]);
      var rest := Utf16Of(text[1..]);
      UnitsDecode(text[0], rest);
      assert (UnitsOf(text[0]) + rest)[|UnitsOf(text[0])|..] == rest;
    }
  }

  lemma {:induction false} DecodedBytes(s: Text)
    requires IsUtf8(s)
    ensures Utf8Of(FromBytes(s)) == s
    decreases |s|
  {
    hide Bytes, CharLength, FirstOfBytes;
    if s != [] {
      DecodedBytes(s[CharLength(s)..]);
      BytesEncode(s);
    }
  }

  lemma {:induction false} DecodedUnits(s: Units)
    requires IsUtf16(s)
    ensures Utf16Of(FromUnits(s)) == s
    decreases |s|
  {
    hide UnitsOf, UnitLength, FirstOfUnits;
    if s != [] {
      DecodedUnits(s[UnitLength(s)..]);
      UnitsEncode(s);
    }
  }

  lemma {:induction false} Utf8OfConcat(a: seq<Scalar>, b: seq<Scalar>)
    ensures Utf8Of(a + b) == Utf8Of(a) + Utf8Of(b)
  {
    hide Bytes;
    if a == [] {
      assert a + b == b;
    } else {
      assert (a + b)[1..] == a[1..] + b;
      Utf8OfConcat(a[1..], b);
    }
  }

  lemma {:induction false} Utf16OfConcat(a: seq<Scalar>, b: seq<Scalar>)
    ensures Utf16Of(a + b) == Utf16Of(a) + Utf16Of(b)
  {
    hide UnitsOf;
    if a == [] {
      assert a + b == b;
    } else {
      assert (a + b)[1..] == a[1..] + b;
      Utf16OfConcat(a[1..], b);
    }
  }

  // ---- QString::toUtf8 and QString::fromUtf8, on well-formed text

  function ToUtf8(s: Units): Text
    requires IsUtf16(s)
  {
    Utf8Of(FromUnits(s))
  }

  function FromUtf8(s: Text): Units
    requires IsUtf8(s)
  {
    Utf16Of(FromBytes(s))
  }

  lemma ToUtf8RoundTrip(s: Units)
    requires IsUtf16(s)
    ensures IsUtf8(ToUtf8(s)) && FromUtf8(ToUtf8(s)) == s
  {
    BytesRoundTrip(FromUnits(s));
    DecodedUnits(s);
  }

  lemma FromUtf8RoundTrip(s: Text)
    requires IsUtf8(s)
    ensures IsUtf16(FromUtf8(s)) && ToUtf8(FromUtf8(s)) == s
  {
    UnitsRoundTrip(FromBytes(s));
    DecodedBytes(s);
  }

  lemma ToUtf8Concat(a: Units, b: Units)
    requires IsUtf16(a) && IsUtf16(b)
    ensures IsUtf16(a + b) && ToUtf8(a + b) == ToUtf8(a) + ToUtf8(b)
  {
    hide Utf16Of, Utf8Of, IsUtf16;
    var (s, t) := (FromUnits(a), FromUnits(b));
    DecodedUnits(a);
    DecodedUnits(b);
    Utf16OfConcat(s, t);
    Utf8OfConcat(s, t);
    UnitsRoundTrip(s + t);
  }

  lemma FromUtf8Concat(a: Text, b: Text)
    requires IsUtf8(a) && IsUtf8(b)
    ensures IsUtf8(a + b) && FromUtf8(a + b) == FromUtf8(a) + FromUtf8(b)
  {
    hide Utf16Of, Utf8Of, IsUtf8;
    var (s, t) := (FromBytes(a), FromBytes(b));
    DecodedBytes(a);
    DecodedBytes(b);
    Utf16OfConcat(s, t);
    Utf8OfConcat(s, t);
    BytesRoundTrip(s + t);
  }

  lemma {:induction false} CancelUnits(a: Units, b: Units)
    requires IsUtf16(a) && IsUtf16(a + b)
    ensures IsUtf16(b)
    decreases |a|
  {
    if a == [] {
      assert a + b == b;
    } else {
      var n := UnitLength(a);
      assert (a + b)[n..] == a[n..] + b;
      CancelUnits(a[n..], b);
    }
  }

  lemma UnitsBetween(s: Units, i: nat, j: nat)
    requires UnitBoundary(s, i) && UnitBoundary(s, j) && i <= j
    ensures IsUtf16(s[i..j]) && ToUtf8(s[..j]) == ToUtf8(s[..i]) + ToUtf8(s[i..j])
  {
    assert s[..j] == s[..i] + s[i..j];
    CancelUnits(s[..i], s[i..j]);
    ToUtf8Concat(s[..i], s[i..j]);
  }

  // ---- offsets

  function Utf16ToUtf8Offset(text: Units, offset: int): nat
    requires IsUtf16(text) && (0 < offset < |text| ==> UnitBoundary(text, offset))
  {
    if offset <= 0 then 0
    else if offset >= |text| then |ToUtf8(text)|
    else |ToUtf8(text[..offset])|
  }

  function Utf8ToUtf16Offset(text: Text, offset: nat): nat
    requires IsUtf8(text) && (0 < offset < |text| ==> Boundary(text, offset))
  {
    if offset == 0 then 0
    else if offset >= |text| then |FromUtf8(text)|
    else |FromUtf8(text[..offset])|
  }

  lemma UnitPrefix(text: Units, i: nat)
    requires IsUtf16(text) && UnitBoundary(text, i)
    ensures var k := |ToUtf8(text[..i])|;
            && k <= |ToUtf8(text)| && Boundary(ToUtf8(text), k)
            && ToUtf8(text)[..k] == ToUtf8(text[..i]) && ToUtf8(text)[k..] == ToUtf8(text[i..])
            && Utf16ToUtf8Offset(text, i) == k
  {
    hide IsUtf8, IsUtf16, ToUtf8;
    assert text == text[..i] + text[i..];
    ToUtf8Concat(text[..i], text[i..]);
    ToUtf8RoundTrip(text[..i]);
    ToUtf8RoundTrip(text[i..]);
    if i == 0 {
      EmptyEncodes();
    } else if i == |text| {
      assert text[..i] == text;
    }
  }

  lemma EmptyEncodes()
    ensures IsUtf16([]) && ToUtf8([]) == [] && IsUtf8([]) && FromUtf8([]) == []
  {
  }

  lemma BytePrefix(text: Text, k: nat)
    requires IsUtf8(text) && Boundary(text, k)
    ensures var i := |FromUtf8(text[..k])|;
            && i <= |FromUtf8(text)| && UnitBoundary(FromUtf8(text), i)
            && FromUtf8(text)[..i] == FromUtf8(text[..k]) && FromUtf8(text)[i..] == FromUtf8(text[k..])
            && Utf8ToUtf16Offset(text, k) == i
  {
    hide IsUtf8, IsUtf16, FromUtf8;
    assert text == text[..k] + text[k..];
    FromUtf8Concat(text[..k], text[k..]);
    FromUtf8RoundTrip(text[..k]);
    FromUtf8RoundTrip(text[k..]);
    if k == 0 {
      EmptyEncodes();
    } else if k == |text| {
      assert text[..k] == text;
    }
  }

  /** On character boundaries the two conversions undo each other. */
  lemma OffsetsAreInverse(text: Units, i: nat)
    requires IsUtf16(text) && UnitBoundary(text, i)
    ensures var k := Utf16ToUtf8Offset(text, i);
            && IsUtf8(ToUtf8(text)) && Boundary(ToUtf8(text), k)
            && Utf8ToUtf16Offset(ToUtf8(text), k) == i
  {
    hide IsUtf8, IsUtf16, ToUtf8, FromUtf8, Utf8ToUtf16Offset, Utf16ToUtf8Offset;
    UnitPrefix(text, i);
    ToUtf8RoundTrip(text);
    ToUtf8RoundTrip(text[..i]);
    BytePrefix(ToUtf8(text), Utf16ToUtf8Offset(text, i));
  }

  lemma ByteOffsetsAreInverse(text: Text, k: nat)
    requires IsUtf8(text) && Boundary(text, k)
    ensures var i := Utf8ToUtf16Offset(text, k);
            && IsUtf16(FromUtf8(text)) && UnitBoundary(FromUtf8(text), i)
            && Utf16ToUtf8Offset(FromUtf8(text), i) == k
  {
    hide IsUtf8, IsUtf16, ToUtf8, FromUtf8, Utf8ToUtf16Offset, Utf16ToUtf8Offset;
    BytePrefix(text, k);
    FromUtf8RoundTrip(text);
    FromUtf8RoundTrip(text[..k]);
    UnitPrefix(FromUtf8(text), Utf8ToUtf16Offset(text, k));
  }

  /** A later boundary has a later offset. */
  lemma OffsetsAreMonotone(text: Units, i: nat, j: nat)
    requires IsUtf16(text) && UnitBoundary(text, i) && UnitBoundary(text, j) && i < j
    ensures Utf16ToUtf8Offset(text, i) < Utf16ToUtf8Offset(text, j)
  {
    hide IsUtf16, ToUtf8, FromUtf8, Utf16ToUtf8Offset;
    UnitPrefix(text, i);
    UnitPrefix(text, j);
    UnitsBetween(text, i, j);
    ToUtf8RoundTrip(text[i..j]);
    EmptyEncodes();
  }

  /** The byte offsets of the boundaries of the editor's text are the end and the positions of bytes that do
      not continue a character. */
  lemma OffsetsStartCharacters(text: Units, k: nat)
    requires IsUtf16(text) && k <= |ToUtf8(text)|
    ensures (exists i :: UnitBoundary(text, i) && Utf16ToUtf8Offset(text, i) == k)
            <==> (k == |ToUtf8(text)| || !Tail(ToUtf8(text)[k]))
  {
    hide IsUtf8, IsUtf16, ToUtf8, FromUtf8, Utf8ToUtf16Offset, Utf16ToUtf8Offset, UnitBoundary, Boundary, Tail;
    var doc := ToUtf8(text);
    ToUtf8RoundTrip(text);
    BoundaryIsNotTail(doc, k);
    if Boundary(doc, k) {
      ByteOffsetsAreInverse(doc, k);
      assert UnitBoundary(text, Utf8ToUtf16Offset(doc, k));
    }
    forall i | UnitBoundary(text, i)
      ensures Boundary(doc, Utf16ToUtf8Offset(text, i))
    {
      BoundaryIsInside(text, i);
      OffsetsAreInverse(text, i);
    }
  }

  lemma BoundaryIsInside(text: Units, i: int)
    requires UnitBoundary(text, i)
    ensures 0 <= i <= |text|
  {
  }

  /** Offsets outside the text count as its nearer end. */
  lemma OffsetsAreCut(text: Units, offset: int)
    requires IsUtf16(text) && (0 < offset < |text| ==> UnitBoundary(text, offset))
    ensures var i := if offset < 0 then 0 else if offset > |text| then |text| else offset;
            IsUtf16(text[..i]) && Utf16ToUtf8Offset(text, offset) == |ToUtf8(text[..i])|
  {
    hide ToUtf8;
    EmptyEncodes();
    assert text[..0] == [] && text[..|text|] == text;
  }

  lemma ByteOffsetsAreCut(text: Text, offset: nat)
    requires IsUtf8(text) && (0 < offset < |text| ==> Boundary(text, offset))
    ensures var k := if offset > |text| then |text| else offset;
            IsUtf8(text[..k]) && Utf8ToUtf16Offset(text, offset) == |FromUtf8(text[..k])|
  {
    hide FromUtf8;
    EmptyEncodes();
    assert text[..0] == [] && text[..|text|] == text;
  }

  /** The conversion goes character by character. */
  lemma CharacterToUtf8(c: Scalar)
    ensures IsUtf16(UnitsOf(c)) && ToUtf8(UnitsOf(c)) == Bytes(c)
    ensures IsUtf8(Bytes(c)) && FromUtf8(Bytes(c)) == UnitsOf(c)
  {
    hide Bytes, UnitsOf, IsUtf8, IsUtf16, FromBytes, FromUnits;
    Spelled(c);
    UnitsRoundTrip([c]);
    BytesRoundTrip([c]);
  }

  lemma Spelled(c: Scalar)
    ensures Utf8Of([c]) == Bytes(c) && Utf16Of([c]) == UnitsOf(c)
  {
    hide Bytes, UnitsOf;
    assert [c][1..] == [] && Utf8Of([]) == [] && Utf16Of([]) == [];
  }

  /** Characters of one to four bytes, from two examples in section 7 of RFC 3629. */
  lemma StandardExamples()
    ensures IsUtf16([0x41]) && ToUtf8([0x41]) == [0x41]
    ensures IsUtf16([0x391]) && ToUtf8([0x391]) == [0xCE, 0x91]
    ensures IsUtf16([0x2262]) && ToUtf8([0x2262]) == [0xE2, 0x89, 0xA2]
    ensures IsUtf16([0xD84C, 0xDFB4]) && ToUtf8([0xD84C, 0xDFB4]) == [0xF0, 0xA3, 0x8E, 0xB4]
  {
    hide IsUtf16, ToUtf8, Bytes, UnitsOf;
    EncodedForms();
    CharacterToUtf8(0x41);
    CharacterToUtf8(0x391);
    CharacterToUtf8(0x2262);
    CharacterToUtf8(0x233B4);
  }

  lemma EncodedForms()
    ensures Bytes(0x41) == [0x41] && UnitsOf(0x41) == [0x41]
    ensures Bytes(0x391) == [0xCE, 0x91] && UnitsOf(0x391) == [0x391]
    ensures Bytes(0x2262) == [0xE2, 0x89, 0xA2] && UnitsOf(0x2262) == [0x2262]
    ensures Bytes(0x233B4) == [0xF0, 0xA3, 0x8E, 0xB4] && UnitsOf(0x233B4) == [0xD84C, 0xDFB4]
  {
  }
}
