/** The persisted conversation-to-space map, and the 32-character hex form a 16-byte space id takes
    in it. A read-only run must find, for every recorded conversation, the very space it was
    ingested under. */
module SpaceManifest {
  import opened Wrappers

  type Byte = b: int | 0 <= b < 256
  type Uuid = u: seq<Byte> | |u| == 16 witness seq(16, _ => 0)

  type Nibble = d: int | 0 <= d < 16

  function HexDigit(d: Nibble): (c: char)
    ensures DigitValue(c) == Some(d)
  {
    if d < 10 then '0' + d as char else 'a' + (d - 10) as char
  }

  /** `format!("{x:02x}")`. */
  function HexByte(x: Byte): string { [HexDigit(x / 16), HexDigit(x % 16)] }

  function HexText(b: seq<Byte>): (s: string)
    ensures |s| == 2 * |b|
  {
    if b == [] then "" else HexByte(b[0]) + HexText(b[1..])
  }

  function DigitValue(c: char): Option<Nibble> {
    if '0' <= c <= '9' then Some(c as int - '0' as int)
    else if 'a' <= c <= 'f' then Some(c as int - 'a' as int + 10)
    else if 'A' <= c <= 'F' then Some(c as int - 'A' as int + 10)
    else None
  }

  /** `u8::from_str_radix(s, 16)` on a two-character slice, including the leading `+` it accepts. */
  function ParsePair(hi: char, lo: char): (r: Option<int>)
    ensures r.Some? ==> 0 <= r.value < 256
  {
    match (DigitValue(hi), DigitValue(lo))
    case (Some(h), Some(l)) => Some(16 * (h as int) + (l as int))
    case (None, Some(l)) => if hi == '+' then Some(l) else None
    case _ => None
  }

  function Pairs(s: string): Option<seq<Byte>> {
    if |s| < 2 then Some([])
    else
      match ParsePair(s[0], s[1])
      case None => None
      case Some(v) =>
        match Pairs(s[2..])
        case None => None
        case Some(rest) => Some([v] + rest)
  }

  lemma {:induction false} PairsLength(s: string)
    ensures Pairs(s).Some? ==> |Pairs(s).value| == |s| / 2
  {
    if 2 <= |s| {
      PairsLength(s[2..]);
    }
  }

  function Parse(s: string): Option<Uuid> {
    PairsLength(s);
    if |s| != 32 || Pairs(s).None? then None
    else
      var u: Uuid := Pairs(s).value;
      Some(u)
  }

  lemma PairRoundTrip(x: Byte)
    ensures ParsePair(HexByte(x)[0], HexByte(x)[1]) == Some(x)
  {
  }

  lemma {:induction false} PairsRoundTrip(b: seq<Byte>)
    ensures Pairs(HexText(b)) == Some(b)
  {
    if b != [] {
      PairRoundTrip(b[0]);
      PairsRoundTrip(b[1..]);
      assert HexText(b)[2..] == HexText(b[1..]);
      assert b == [b[0]] + b[1..];
    }
  }

  /** Bytes to hex to bytes is the identity on every space id. */
  lemma HexRoundTrip(u: Uuid)
    ensures Parse(HexText(u)) == Some(u)
  {
    PairsRoundTrip(u);
  }

  ghost predicate LowerHex(s: string) {
    forall i :: 0 <= i < |s| ==> LowerDigit(s[i])
  }

  predicate LowerDigit(c: char) { '0' <= c <= '9' || 'a' <= c <= 'f' }

  lemma DigitCanonical(c: char, d: Nibble)
    ensures HexDigit(d) == c <==> LowerDigit(c) && DigitValue(c) == Some(d)
  {
  }

  lemma PairCanonical(hi: char, lo: char)
    requires ParsePair(hi, lo).Some?
    ensures HexByte(ParsePair(hi, lo).value) == [hi, lo] <==> LowerDigit(hi) && LowerDigit(lo)
  {
    var v := ParsePair(hi, lo).value;
    DigitCanonical(hi, v / 16);
    DigitCanonical(lo, v % 16);
    assert HexByte(v) == [hi, lo] <==> HexDigit(v / 16) == hi && HexDigit(v % 16) == lo;
    if DigitValue(hi).Some? {
      assert v == 16 * DigitValue(hi).value + DigitValue(lo).value;
    }
  }

  lemma LowerHexSplit(s: string)
    requires 2 <= |s|
    ensures LowerHex(s) <==> LowerDigit(s[0]) && LowerDigit(s[1]) && LowerHex(s[2..])
  {
    assert forall i :: 2 <= i < |s| ==> s[i] == s[2..][i - 2];
    assert forall i :: 0 <= i < |s[2..]| ==> s[2..][i] == s[i + 2];
  }

  lemma {:induction false} PairsCanonical(s: string)
    requires |s| % 2 == 0 && Pairs(s).Some?
    ensures HexText(Pairs(s).value) == s <==> LowerHex(s)
  {
    if 2 <= |s| {
      var v, rest := ParsePair(s[0], s[1]).value, s[2..];
      PairCanonical(s[0], s[1]);
      PairsCanonical(rest);
      LowerHexSplit(s);
      HexTextStep(v, Pairs(rest).value, s);
    }
  }

  lemma HexTextStep(v: Byte, rest: seq<Byte>, s: string)
    requires 2 <= |s|
    ensures HexText([v] + rest) == s <==> HexByte(v) == [s[0], s[1]] && HexText(rest) == s[2..]
  {
    var t := HexText([v] + rest);
    assert ([v] + rest)[1..] == rest;
    assert t[..2] == HexByte(v) && t[2..] == HexText(rest);
    assert t == t[..2] + t[2..] && s == s[..2] + s[2..] && s[..2] == [s[0], s[1]];
  }

  /** The other direction holds exactly on lower-case digits: upper case and a leading `+` are read
      but written back differently. */
  lemma ParseThenHex(s: string)
    requires Parse(s).Some?
    ensures HexText(Parse(s).value) == s <==> LowerHex(s)
  {
    PairsCanonical(s);
  }

  // ---- the text, character by character ----

  const DIGITS := "0123456789abcdef"

  /** The text of some bytes: for each, the digit of its upper four bits and then of its lower four. */
  lemma {:induction false} HexTextAt(b: seq<Byte>, i: nat)
    requires i < |b|
    ensures HexText(b)[2 * i] == DIGITS[b[i] / 16] && HexText(b)[2 * i + 1] == DIGITS[b[i] % 16]
  {
    if 0 < i {
      HexTextAt(b[1..], i - 1);
      assert HexText(b)[2..] == HexText(b[1..]);
      assert HexText(b)[2 * i] == HexText(b[1..])[2 * (i - 1)];
      assert HexText(b)[2 * i + 1] == HexText(b[1..])[2 * (i - 1) + 1];
    } else {
      HexByteDigits(b[0]);
    }
  }

  lemma HexByteDigits(x: Byte)
    ensures HexByte(x) == [DIGITS[x / 16], DIGITS[x % 16]]
  {
    NibbleDigit(x / 16);
    NibbleDigit(x % 16);
  }

  lemma NibbleDigit(d: Nibble)
    ensures HexDigit(d) == DIGITS[d]
  {
  }

  /** Upper and lower case read the same. */
  lemma {:induction false} CaseDoesNotMatter(s: string, t: string)
    requires |s| == |t| && forall i :: 0 <= i < |s| ==> s[i] == t[i] || ('A' <= s[i] <= 'F' && t[i] == s[i] + ' ')
    ensures Parse(s) == Parse(t)
  {
    PairsIgnoreCase(s, t);
  }

  lemma {:induction false} PairsIgnoreCase(s: string, t: string)
    requires |s| == |t| && forall i :: 0 <= i < |s| ==> s[i] == t[i] || ('A' <= s[i] <= 'F' && t[i] == s[i] + ' ')
    ensures Pairs(s) == Pairs(t)
  {
    if 2 <= |s| {
      PairsIgnoreCase(s[2..], t[2..]);
      DigitIgnoresCase(s[0], t[0]);
      DigitIgnoresCase(s[1], t[1]);
    }
  }

  lemma DigitIgnoresCase(c: char, d: char)
    requires c == d || ('A' <= c <= 'F' && d == c + ' ')
    ensures DigitValue(c) == DigitValue(d) && (c == '+' <==> d == '+')
  {
  }

  /** A plus sign in front of a digit reads as a zero. */
  lemma PlusReadsAsZero(lo: char)
    ensures ParsePair('+', lo) == ParsePair('0', lo)
  {
  }

  function Repeated(hi: char, lo: char, n: nat): (s: string)
    ensures |s| == 2 * n
  {
    if n == 0 then "" else [hi, lo] + Repeated(hi, lo, n - 1)
  }

  lemma {:induction false} RepeatedParses(hi: char, lo: char, n: nat)
    requires ParsePair(hi, lo).Some?
    ensures Pairs(Repeated(hi, lo, n)).Some?
  {
    if n > 0 {
      RepeatedParses(hi, lo, n - 1);
      assert Repeated(hi, lo, n)[2..] == Repeated(hi, lo, n - 1);
    }
  }

  /** Both of them: sixteen times `AA` and sixteen times `+1`. */
  lemma ReadButWrittenDifferently(hi: char, lo: char)
    requires (hi == 'A' && lo == 'A') || (hi == '+' && lo == '1')
    ensures var s := Repeated(hi, lo, 16);
            Parse(s).Some? && HexText(Parse(s).value) != s
  {
    var s := Repeated(hi, lo, 16);
    RepeatedParses(hi, lo, 16);
    assert s[0] == hi;
    assert !LowerDigit(s[0]);
    ParseThenHex(s);
  }

  lemma {:induction false} HexTextAppend(b: seq<Byte>, x: Byte)
    ensures HexText(b + [x]) == HexText(b) + HexByte(x)
  {
    if b == [] {
      assert b + [x] == [x];
    } else {
      HexTextAppend(b[1..], x);
      assert (b + [x])[1..] == b[1..] + [x];
    }
  }

  method Hex16(b: Uuid) returns (s: string)
    ensures s == HexText(b)
  {
    s := "";
    for i := 0 to |b|
      invariant s == HexText(b[..i])
    {
      HexTextAppend(b[..i], b[i]);
      assert b[..i + 1] == b[..i] + [b[i]];
      s := s + HexByte(b[i]);
    }
    assert b[..|b|] == b;
  }

  function AndThen(a: seq<Byte>, rest: Option<seq<Byte>>): Option<seq<Byte>> {
    if rest.None? then None else Some(a + rest.value)
  }

  lemma AndThenPush(a: seq<Byte>, s: string)
    requires 2 <= |s|
    ensures ParsePair(s[0], s[1]).None? ==> AndThen(a, Pairs(s)) == None
    ensures ParsePair(s[0], s[1]).Some? ==>
            AndThen(a, Pairs(s)) == AndThen(a + [ParsePair(s[0], s[1]).value], Pairs(s[2..]))
  {
    if ParsePair(s[0], s[1]).Some? && Pairs(s[2..]).Some? {
      var v := ParsePair(s[0], s[1]).value;
      assert a + ([v] + Pairs(s[2..]).value) == a + [v] + Pairs(s[2..]).value;
    }
  }

  /** Fills the slots left to right and gives up at the first pair that is not hex. */
  method FillSlots(s: string) returns (out: seq<Byte>, ok: bool)
    requires |s| == 32
    ensures Pairs(s) == if ok then Some(out) else None
    ensures ok ==> |out| == 16
  {
    var slots := new Byte[16](_ => 0);
    assert s[2 * 0..] == s && slots[..0] == [];
    assert Pairs(s).Some? ==> [] + Pairs(s).value == Pairs(s).value;
    for i := 0 to 16
      invariant AndThen(slots[..i], Pairs(s[2 * i..])) == Pairs(s)
    {
      var rest := s[2 * i..];
      AndThenPush(slots[..i], rest);
      var v := ParsePair(s[2 * i], s[2 * i + 1]);
      if v.None? {
        return [], false;
      }
      assert rest[2..] == s[2 * (i + 1)..];
      slots[i] := v.value;
      assert slots[..i + 1] == slots[..i] + [v.value];
    }
    assert slots[..16] == slots[..] && Pairs(s[2 * 16..]) == Some([]);
    assert slots[..] + [] == slots[..];
    return slots[..], true;
  }

  method Unhex16(s: string) returns (r: Option<Uuid>)
    ensures r == Parse(s)
  {
    if |s| != 32 {
      return None;
    }
    var out, ok := FillSlots(s);
    if !ok {
      return None;
    }
    var u: Uuid := out;
    return Some(u);
  }

  class Manifest {
    var spaces: map<string, string>

    constructor ()
      ensures spaces == map[]
    {
      spaces := map[];
    }

    /** The space a conversation resolves to on a later read-only run. */
    function SpaceOf(key: string): Option<Uuid>
      reads this
    {
      Lookup(spaces, key)
    }

    method Record(key: string, space: Uuid)
      modifies this
      ensures spaces == old(spaces)[key := HexText(space)]
      ensures SpaceOf(key) == Some(space)
      ensures forall k :: k != key ==> SpaceOf(k) == old(SpaceOf(k))
    {
      var text := Hex16(space);
      HexRoundTrip(space);
      spaces := spaces[key := text];
    }

    method SpaceFor(key: string) returns (r: Option<Uuid>)
      ensures r == SpaceOf(key)
    {
      if key !in spaces {
        return None;
      }
      r := Unhex16(spaces[key]);
    }
  }

  function Lookup(spaces: map<string, string>, key: string): Option<Uuid> {
    if key in spaces then Parse(spaces[key]) else None
  }
}
