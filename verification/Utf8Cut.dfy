/** Truncation on a character boundary of UTF-8, as defined in section 3 of RFC 3629. */
module Utf8Cut {
  type Byte = b: int | 0 <= b < 256
  type Bytes = seq<Byte>

  predicate IsTail(b: Byte) { 0x80 <= b <= 0xBF }

  // ---- well-formed text ----

  /** The first bytes that may start a character of two, three or four bytes, with what the second byte
      may then be. */
  predicate Starts2(a: Byte, b: Byte) { 0xC2 <= a <= 0xDF && IsTail(b) }

  predicate Starts3(a: Byte, b: Byte) {
    || (a == 0xE0 && 0xA0 <= b <= 0xBF)
    || ((0xE1 <= a <= 0xEC || 0xEE <= a <= 0xEF) && IsTail(b))
    || (a == 0xED && 0x80 <= b <= 0x9F)
  }

  predicate Starts4(a: Byte, b: Byte) {
    || (a == 0xF0 && 0x90 <= b <= 0xBF)
    || (0xF1 <= a <= 0xF3 && IsTail(b))
    || (a == 0xF4 && 0x80 <= b <= 0x8F)
  }

  /** The length of the character at the head of `s`, or zero if there is none. */
  function CharLength(s: Bytes): (k: nat)
    ensures k <= |s| && k <= 4
    ensures k > 0 ==> !IsTail(s[0]) && forall i :: 1 <= i < k ==> IsTail(s[i])
  {
    if s == [] then 0
    else if s[0] <= 0x7F then 1
    else if |s| >= 2 && Starts2(s[0], s[1]) then 2
    else if |s| >= 3 && Starts3(s[0], s[1]) && IsTail(s[2]) then 3
    else if |s| >= 4 && Starts4(s[0], s[1]) && IsTail(s[2]) && IsTail(s[3]) then 4
    else 0
  }

  predicate Valid(s: Bytes) {
    s == [] || (CharLength(s) > 0 && Valid(s[CharLength(s)..]))
  }

  /** `i` is the end of a whole number of characters. */
  predicate IsBoundary(s: Bytes, i: nat)
    requires Valid(s) && i <= |s|
    decreases |s|
  {
    i == 0 || (CharLength(s) <= i && IsBoundary(s[CharLength(s)..], i - CharLength(s)))
  }

  // ---- what well-formed text is ----

  /** The characters of Unicode: every number up to 0x10FFFF but the surrogates. */
  predicate IsScalar(c: int) { 0 <= c <= 0x10_FFFF && !(0xD800 <= c <= 0xDFFF) }

  /** The bytes of a character: one to four, six bits in each after the first. */
  function Encode(c: int): (b: Bytes)
    requires IsScalar(c)
    ensures 1 <= |b| <= 4
  {
    if c < 0x80 then [c]
    else if c < 0x800 then [0xC0 + c / 64, 0x80 + c % 64]
    else if c < 0x1_0000 then [0xE0 + c / 4096, 0x80 + c / 64 % 64, 0x80 + c % 64]
    else [0xF0 + c / 262_144, 0x80 + c / 4096 % 64, 0x80 + c / 64 % 64, 0x80 + c % 64]
  }

  function EncodeAll(text: seq<int>): Bytes
    requires forall i :: 0 <= i < |text| ==> IsScalar(text[i])
  {
    if text == [] then [] else Encode(text[0]) + EncodeAll(text[1..])
  }

  lemma EncodedHead(c: int, s: Bytes)
    requires IsScalar(c) && Encode(c) <= s
    ensures CharLength(s) == |Encode(c)|
  {
    var b := Encode(c);
    assert forall i :: 0 <= i < |b| ==> s[i] == b[i];
  }

  /** The character at the head, put together from its bits. */
  function Decode(s: Bytes): int
    requires 0 < CharLength(s)
  {
    var a: int := s[0];
    var k := CharLength(s);
    if k == 1 then a
    else if k == 2 then Bits(a - 0xC0, Low(s[1]))
    else if k == 3 then Bits(Bits(a - 0xE0, Low(s[1])), Low(s[2]))
    else Bits(Bits(Bits(a - 0xF0, Low(s[1])), Low(s[2])), Low(s[3]))
  }

  function Low(b: Byte): int { (b as int) - 0x80 }

  /** Six more bits. */
  function Bits(high: int, low: int): int { high * 64 + low }

  lemma BitsSplit(high: int, low: int)
    requires 0 <= low < 64
    ensures Bits(high, low) / 64 == high && Bits(high, low) % 64 == low
  {
  }

  lemma TwoBytes(a: Byte, b: Byte)
    requires Starts2(a, b)
    ensures var c := Bits(a as int - 0xC0, Low(b)); IsScalar(c) && Encode(c) == [a, b]
  {
    BitsSplit(a as int - 0xC0, Low(b));
  }

  lemma ThreeBytes(a: Byte, b: Byte, d: Byte)
    requires Starts3(a, b) && IsTail(d)
    ensures var c := Bits(Bits(a as int - 0xE0, Low(b)), Low(d)); IsScalar(c) && Encode(c) == [a, b, d]
  {
    var high := Bits(a as int - 0xE0, Low(b));
    BitsSplit(a as int - 0xE0, Low(b));
    BitsSplit(high, Low(d));
    assert Bits(high, Low(d)) / 4096 == high / 64;
  }

  lemma FourBytes(a: Byte, b: Byte, d: Byte, e: Byte)
    requires Starts4(a, b) && IsTail(d) && IsTail(e)
    ensures var c := Bits(Bits(Bits(a as int - 0xF0, Low(b)), Low(d)), Low(e)); IsScalar(c) && Encode(c) == [a, b, d, e]
  {
    var top := Bits(a as int - 0xF0, Low(b));
    var high := Bits(top, Low(d));
    BitsSplit(a as int - 0xF0, Low(b));
    BitsSplit(top, Low(d));
    BitsSplit(high, Low(e));
    assert Bits(high, Low(e)) / 4096 == high / 64 && Bits(high, Low(e)) / 262_144 == top / 64;
  }

  lemma DecodedHead(s: Bytes)
    requires 0 < CharLength(s)
    ensures IsScalar(Decode(s)) && Encode(Decode(s)) == s[..CharLength(s)]
  {
    var k := CharLength(s);
    if k == 2 {
      TwoBytes(s[0], s[1]);
    } else if k == 3 {
      ThreeBytes(s[0], s[1], s[2]);
    } else if k == 4 {
      FourBytes(s[0], s[1], s[2], s[3]);
    }
  }

  /** Text is valid exactly when it is the encoding of some characters. */
  lemma {:induction false} EncodedIsValid(text: seq<int>)
    requires forall i :: 0 <= i < |text| ==> IsScalar(text[i])
    ensures Valid(EncodeAll(text))
  {
    if text != [] {
      var s, head := EncodeAll(text), Encode(text[0]);
      EncodedIsValid(text[1..]);
      EncodedHead(text[0], s);
      assert s[|head|..] == EncodeAll(text[1..]);
    }
  }

  lemma {:induction false} ValidIsEncoded(s: Bytes) returns (text: seq<int>)
    requires Valid(s)
    ensures forall i :: 0 <= i < |text| ==> IsScalar(text[i])
    ensures EncodeAll(text) == s
  {
    text := [];
    if s != [] {
      var k := CharLength(s);
      var rest := ValidIsEncoded(s[k..]);
      DecodedHead(s);
      text := [Decode(s)] + rest;
      assert text[1..] == rest;
      assert s == s[..k] + s[k..];
    }
  }

  // ---- the cut ----

  /** `str::is_char_boundary`: looks at one byte. */
  predicate IsCharBoundary(s: Bytes, i: nat) {
    i == 0 || i == |s| || (i < |s| && !IsTail(s[i]))
  }

  /** The largest index up to `i` that passes the test. */
  function FindDown(s: Bytes, i: nat): (r: nat)
    ensures r <= i && IsCharBoundary(s, r) && forall j :: r < j <= i ==> !IsCharBoundary(s, j)
  {
    if IsCharBoundary(s, i) then i else FindDown(s, i - 1)
  }

  /** The ellipsis, U+2026. */
  const ELLIPSIS: Bytes := [0xE2, 0x80, 0xA6]

  function Truncate(s: Bytes, max: nat): Bytes {
    if |s| <= max then s else s[..FindDown(s, max)] + ELLIPSIS
  }

  // ---- the byte test is right ----

  /** Looking at one byte finds exactly the ends of characters. */
  lemma {:induction false} ByteTestIsExact(s: Bytes, i: nat)
    requires Valid(s) && i <= |s|
    ensures IsCharBoundary(s, i) <==> IsBoundary(s, i)
    decreases |s|
  {
    var k := CharLength(s);
    if 0 < i && k <= i {
      var rest := s[k..];
      ByteTestIsExact(rest, i - k);
      if i < |s| && i == k {
        assert rest[0] == s[k];
        assert CharLength(rest) > 0;
      } else if i < |s| {
        assert rest[i - k] == s[i];
      }
    }
  }

  lemma CharLengthStays(s: Bytes, i: nat)
    requires i <= |s| && (0 < CharLength(s) <= i || 0 < CharLength(s[..i]))
    ensures CharLength(s[..i]) == CharLength(s)
  {
  }

  /** A cut at an end of characters leaves valid text on both sides, and no other cut does. */
  lemma {:induction false} CutIsValidExactly(s: Bytes, i: nat)
    requires Valid(s) && i <= |s|
    ensures IsBoundary(s, i) ==> Valid(s[..i]) && Valid(s[i..])
    ensures Valid(s[..i]) ==> IsBoundary(s, i)
    decreases |s|
  {
    var k := CharLength(s);
    if i == 0 {
      assert s[..0] == [] && s[0..] == s;
    } else if k <= i {
      CharLengthStays(s, i);
      assert s[..i][k..] == s[k..][..i - k] && s[i..] == s[k..][i - k..];
      CutIsValidExactly(s[k..], i - k);
    } else {
      NoShorterChar(s, i);
    }
  }

  /** A proper prefix of a character is not a character. */
  lemma NoShorterChar(s: Bytes, i: nat)
    requires 0 < i < CharLength(s)
    ensures CharLength(s[..i]) == 0
  {
  }

  lemma {:induction false} ValidConcat(s: Bytes, t: Bytes)
    requires Valid(s) && Valid(t)
    ensures Valid(s + t)
  {
    if s == [] {
      assert s + t == t;
    } else {
      var k := CharLength(s);
      CharLengthStays(s + t, |s|);
      assert (s + t)[..|s|] == s && (s + t)[k..] == s[k..] + t;
      ValidConcat(s[k..], t);
    }
  }

  /** No more than three bytes in a row pass for the inside of a character. */
  /** Text may be cut at an ASCII character, and joined with one. */
  lemma ValidAround(a: Bytes, c: Byte, b: Bytes)
    requires c <= 0x7F
    ensures Valid(a + [c] + b) <==> Valid(a) && Valid(b)
  {
    var s, rest := a + [c] + b, [c] + b;
    assert s == a + rest && s[..|a|] == a && s[|a|..] == rest && rest[1..] == b;
    if Valid(a) && Valid(b) {
      ValidConcat(a, rest);
    }
    if Valid(s) {
      assert s[|a|] == c;
      ByteTestIsExact(s, |a|);
      CutIsValidExactly(s, |a|);
    }
  }

  lemma {:induction false} BoundaryWithinFour(s: Bytes, i: nat) returns (j: nat)
    requires Valid(s) && i <= |s|
    ensures j <= i < j + 4 && IsBoundary(s, j)
    decreases |s|
  {
    var k := CharLength(s);
    if i < k || i == 0 {
      j := 0;
    } else {
      var n := BoundaryWithinFour(s[k..], i - k);
      j := n + k;
    }
  }

  /** The ellipsis is the character U+2026. */
  lemma EllipsisIsEncoded()
    ensures ELLIPSIS == Encode(0x2026)
  {
  }

  lemma EllipsisIsValid()
    ensures Valid(ELLIPSIS)
  {
    var s := ELLIPSIS;
    assert CharLength(s) == 3 && s[3..] == [];
  }

  /** What `truncate` keeps of valid text that is too long: the longest prefix of whole characters in
      at most `max` bytes, no more than three bytes short of it; the result is valid UTF-8. */
  lemma TruncateKeepsLongest(s: Bytes, max: nat)
    requires Valid(s) && max < |s|
    ensures var end := FindDown(s, max);
            && Truncate(s, max) == s[..end] + ELLIPSIS
            && end <= max <= end + 3
            && Valid(s[..end]) && (forall j :: end < j <= max ==> !Valid(s[..j]))
            && Valid(Truncate(s, max))
  {
    var end := FindDown(s, max);
    ByteTestIsExact(s, end);
    CutIsValidExactly(s, end);
    forall j | end < j <= max ensures !Valid(s[..j]) {
      ByteTestIsExact(s, j);
      CutIsValidExactly(s, j);
    }
    var near := BoundaryWithinFour(s, max);
    ByteTestIsExact(s, near);
    EllipsisIsValid();
    ValidConcat(s[..end], ELLIPSIS);
  }

  lemma CutBeforeEllipsis(s: Bytes, max: nat)
    requires 3 <= |s| <= max + 3 && max < |s| && s[|s| - 3..] == ELLIPSIS
    ensures FindDown(s, max) == |s| - 3
  {
    var e, n := s[|s| - 3..], |s| - 3;
    assert s[n] == e[0] && s[n + 1] == e[1] && s[n + 2] == e[2];
  }

  /** `truncate` returns its input exactly when it fits, or when it ends in an ellipsis and the cut
      falls at or inside it. */
  lemma UnchangedExactly(s: Bytes, max: nat)
    ensures Truncate(s, max) == s <==> |s| <= max || (3 <= |s| <= max + 3 && s[|s| - 3..] == ELLIPSIS)
  {
    if max < |s| {
      var end := FindDown(s, max);
      var cut := s[..end] + ELLIPSIS;
      assert cut[end..] == ELLIPSIS;
      if 3 <= |s| <= max + 3 && s[|s| - 3..] == ELLIPSIS {
        CutBeforeEllipsis(s, max);
        assert s == s[..|s| - 3] + s[|s| - 3..];
      }
    }
  }

  /** The result is within `max` bytes exactly when the text was, or when the three bytes up to the one at
      `max` all continue a character: then `max` is three bytes into a character of four, and the cut
      gives up as many bytes as the ellipsis takes. */
  lemma FitsExactly(s: Bytes, max: nat)
    requires Valid(s)
    ensures |Truncate(s, max)| <= max <==>
            |s| <= max || (3 <= max && IsTail(s[max - 2]) && IsTail(s[max - 1]) && IsTail(s[max]))
  {
    if max < |s| {
      TruncateKeepsLongest(s, max);
      var end := FindDown(s, max);
      if 3 <= max {
        assert end < max ==> !IsCharBoundary(s, max);
        assert end < max - 1 ==> !IsCharBoundary(s, max - 1);
        assert end < max - 2 ==> !IsCharBoundary(s, max - 2);
        assert IsCharBoundary(s, end);
      }
    }
  }

  /** Two plain letters cut to one come back longer than they went in. */
  lemma TruncateOverruns()
    ensures Valid([0x61, 0x62]) && Truncate([0x61, 0x62], 1) == [0x61] + ELLIPSIS
    ensures |Truncate([0x61, 0x62], 1)| == 4
  {
    var s: Bytes := [0x61, 0x62];
    var last := s[1..];
    assert last == [0x62] && last[1..] == [];
    assert CharLength(last) == 1 && Valid(last);
    assert IsCharBoundary(s, 1) && s[..1] == [0x61];
  }
}
