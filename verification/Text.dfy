/** Strings as Rust's `str` methods see them, character by character. */
module Text {
  import opened Wrappers
  import opened Words

  /** Unicode `White_Space`. */
  predicate IsSpace(c: char) {
    || '\U{0009}' <= c <= '\U{000D}' || c == ' ' || c == '\U{0085}' || c == '\U{00A0}' || c == '\U{1680}'
    || '\U{2000}' <= c <= '\U{200A}' || c == '\U{2028}' || c == '\U{2029}' || c == '\U{202F}' || c == '\U{205F}'
    || c == '\U{3000}'
  }

  /** The 25 code points Unicode lists as white space. */
  lemma SpacesExactly(c: char)
    ensures IsSpace(c) <==>
            c as int in {0x9, 0xA, 0xB, 0xC, 0xD, 0x20, 0x85, 0xA0, 0x1680, 0x2000, 0x2001, 0x2002, 0x2003, 0x2004,
              0x2005,
                         0x2006, 0x2007, 0x2008, 0x2009, 0x200A, 0x2028, 0x2029, 0x202F, 0x205F, 0x3000}
  {
  }

  function TrimStart(s: string): string {
    if s != "" && IsSpace(s[0]) then TrimStart(s[1..]) else s
  }

  function TrimEnd(s: string): string {
    if s != "" && IsSpace(s[|s| - 1]) then TrimEnd(s[..|s| - 1]) else s
  }

  function Trim(s: string): string { TrimEnd(TrimStart(s)) }

  /** Whitespace at neither end. */
  predicate IsTrimmed(s: string) { s == "" || (!IsSpace(s[0]) && !IsSpace(s[|s| - 1])) }

  lemma TrimKeeps(s: string)
    requires IsTrimmed(s)
    ensures Trim(s) == s
  {
  }

  lemma {:induction false} TrimStartWindow(s: string) returns (i: nat)
    ensures i <= |s| && TrimStart(s) == s[i..] && forall k :: 0 <= k < i ==> IsSpace(s[k])
  {
    i := 0;
    if s != "" && IsSpace(s[0]) {
      var k := TrimStartWindow(s[1..]);
      i := k + 1;
      assert forall n :: 0 < n < i ==> s[n] == s[1..][n - 1];
    }
  }

  lemma {:induction false} TrimEndWindow(s: string) returns (j: nat)
    ensures j <= |s| && TrimEnd(s) == s[..j] && forall k :: j <= k < |s| ==> IsSpace(s[k])
  {
    j := |s|;
    if s != "" && IsSpace(s[|s| - 1]) {
      j := TrimEndWindow(s[..|s| - 1]);
    }
  }

  /** Trimming keeps the middle of a string, with nothing but whitespace on either side. */
  lemma TrimWindow(s: string) returns (i: nat, j: nat)
    ensures i <= j <= |s| && Trim(s) == s[i..j]
    ensures forall k :: 0 <= k < i || j <= k < |s| ==> IsSpace(s[k])
  {
    i := TrimStartWindow(s);
    var t := s[i..];
    var n := TrimEndWindow(t);
    j := i + n;
    assert t[..n] == s[i..j];
    assert forall k :: j <= k < |s| ==> s[k] == t[k - i];
  }

  lemma {:induction false} TrimEndTrimmed(s: string)
    requires s != "" ==> !IsSpace(s[0])
    ensures IsTrimmed(TrimEnd(s))
  {
    if s != "" && IsSpace(s[|s| - 1]) {
      TrimEndTrimmed(s[..|s| - 1]);
    }
  }

  lemma TrimIsTrimmed(s: string)
    ensures IsTrimmed(Trim(s))
  {
    TrimStartShorter(s);
    TrimEndTrimmed(TrimStart(s));
  }

  /** `pat` occurs in `s` at `i`. */
  predicate OccursAt(s: string, pat: string, i: int) {
    0 <= i <= |s| - |pat| && s[i..i + |pat|] == pat
  }

  ghost predicate Occurs(s: string, pat: string) { exists i :: OccursAt(s, pat, i) }

  /** `str::contains`. */
  predicate Contains(s: string, pat: string)
    ensures Contains(s, pat) <==> Occurs(s, pat)
  {
    if OccursAt(s, pat, 0) then true
    else if s == "" then
      assert forall i :: !OccursAt(s, pat, i);
      false
    else
      assert forall i :: OccursAt(s, pat, i) ==> OccursAt(s[1..], pat, i - 1) by {
        forall i | OccursAt(s, pat, i) ensures OccursAt(s[1..], pat, i - 1) {
          assert s[1..][i - 1..i - 1 + |pat|] == s[i..i + |pat|];
        }
      }
      assert forall i :: OccursAt(s[1..], pat, i) ==> OccursAt(s, pat, i + 1) by {
        forall i | OccursAt(s[1..], pat, i) ensures OccursAt(s, pat, i + 1) {
          assert s[1..][i..i + |pat|] == s[i + 1..i + 1 + |pat|];
        }
      }
      Contains(s[1..], pat)
  }

  /** `str::rfind`. */
  function RFind(s: string, pat: string): (r: Option<nat>)
    ensures r.Some? ==> OccursAt(s, pat, r.value) && forall j :: r.value < j ==> !OccursAt(s, pat, j)
    ensures r.None? ==> !Occurs(s, pat)
  {
    RFindFrom(s, pat, |s|)
  }

  function RFindFrom(s: string, pat: string, i: nat): (r: Option<nat>)
    ensures r.Some? ==>
            r.value <= i && OccursAt(s, pat, r.value) && forall j :: r.value < j <= i ==> !OccursAt(s, pat, j)
    ensures r.None? ==> forall j :: j <= i ==> !OccursAt(s, pat, j)
  {
    if OccursAt(s, pat, i) then Some(i)
    else if i == 0 then None
    else RFindFrom(s, pat, i - 1)
  }

  ghost predicate NoSpace(s: string) { forall i :: 0 <= i < |s| ==> !IsSpace(s[i]) }

  function TokenLength(s: string): (k: nat)
    ensures k <= |s| && NoSpace(s[..k])
    ensures k < |s| ==> IsSpace(s[k])
    ensures s != "" && !IsSpace(s[0]) ==> 0 < k
  {
    if s == "" || IsSpace(s[0]) then 0 else 1 + TokenLength(s[1..])
  }

  /** `split_whitespace`. */
  function Tokens(s: string): seq<string>
    decreases |s|
  {
    var t := TrimStart(s);
    TrimStartShorter(s);
    if t == "" then [] else [t[..TokenLength(t)]] + Tokens(t[TokenLength(t)..])
  }

  lemma {:induction false} TrimStartShorter(s: string)
    ensures |TrimStart(s)| <= |s|
    ensures TrimStart(s) != "" ==> !IsSpace(TrimStart(s)[0])
  {
    if s != "" && IsSpace(s[0]) {
      TrimStartShorter(s[1..]);
    }
  }

  lemma {:induction false} TokenLengthExact(a: string, rest: string)
    requires NoSpace(a) && (rest != "" ==> IsSpace(rest[0]))
    ensures TokenLength(a + rest) == |a|
  {
    if a == "" {
      assert a + rest == rest;
    } else {
      assert (a + rest)[1..] == a[1..] + rest;
      TokenLengthExact(a[1..], rest);
    }
  }

  /** A word followed by a space is the first token. */
  lemma FirstToken(a: string, c: char, rest: string)
    requires a != "" && NoSpace(a) && IsSpace(c)
    ensures Tokens(a + [c] + rest) == [a] + Tokens(rest)
  {
    var s := a + [c] + rest;
    assert s == a + ([c] + rest);
    TokenLengthExact(a, [c] + rest);
    assert TrimStart(s) == s && s[..|a|] == a && s[|a|..] == [c] + rest;
    assert ([c] + rest)[1..] == rest;
    assert TrimStart([c] + rest) == TrimStart(rest);
  }

  lemma OnlyToken(a: string)
    requires a != "" && NoSpace(a)
    ensures Tokens(a) == [a]
  {
    TokenLengthExact(a, "");
    assert a + "" == a && a[|a|..] == "";
  }

  // ---- numbers ----

  function DigitOf(d: nat): (c: char)
    requires d < 10
    ensures '0' <= c <= '9' && c as int - '0' as int == d
  {
    '0' + d as char
  }

  /** `format!("{n}")`. */
  function Decimal(n: nat): (s: string)
    ensures s != ""
    ensures forall i :: 0 <= i < |s| ==> '0' <= s[i] <= '9'
  {
    if n < 10 then [DigitOf(n)] else Decimal(n / 10) + [DigitOf(n % 10)]
  }

  /** The value of a string of decimal digits, most significant first. */
  function DigitsValue(s: string): Option<nat> {
    if s == "" then Some(0)
    else
      var c := s[|s| - 1];
      var init := DigitsValue(s[..|s| - 1]);
      if init.None? || !('0' <= c <= '9') then None else Some(10 * init.value + (c as int - '0' as int))
  }

  lemma {:induction false} DecimalReadsBack(n: nat)
    ensures DigitsValue(Decimal(n)) == Some(n)
  {
    var s := Decimal(n);
    if n < 10 {
      assert s[..|s| - 1] == "";
    } else {
      DecimalReadsBack(n / 10);
      assert s[..|s| - 1] == Decimal(n / 10);
    }
  }

  /** `str::parse::<u32>`: an optional plus sign, at least one digit, and in range. */
  function ParseU32(s: string): Option<nat> {
    var digits := if s != "" && s[0] == '+' then s[1..] else s;
    if digits == "" then None
    else
      var v := DigitsValue(digits);
      if v.Some? && v.value <= U32_MAX then v else None
  }

  /** `str::parse::<i64>`: an optional sign, at least one digit, and in range. */
  function ParseI64(s: string): (r: Option<int>)
    ensures r.Some? ==> FitsI64(r.value)
  {
    var signed := s != "" && (s[0] == '+' || s[0] == '-');
    var digits := if signed then s[1..] else s;
    if digits == "" then None
    else
      match DigitsValue(digits)
      case None => None
      case Some(v) =>
        var n: int := if signed && s[0] == '-' then -(v as int) else v as int;
        if FitsI64(n) then Some(n) else None
  }

  lemma SignedDigits(sign: char, n: nat)
    ensures (([sign] + Decimal(n))[0] == sign) && ([sign] + Decimal(n))[1..] == Decimal(n)
    ensures DigitsValue(Decimal(n)) == Some(n)
  {
    DecimalReadsBack(n);
  }

  /** A plus sign changes nothing; a minus sign is refused for u32 and negates for i64. */
  lemma SignsParse(n: nat)
    ensures ParseU32("+" + Decimal(n)) == if n <= U32_MAX then Some(n) else None
    ensures ParseI64("+" + Decimal(n)) == if n <= I64_MAX then Some(n) else None
    ensures ParseI64("-" + Decimal(n)) == if n <= I64_MAX + 1 then Some(-(n as int)) else None
  {
    SignedDigits('+', n);
    SignedDigits('-', n);
  }

  // ---- ASCII case ----

  function LowerChar(c: char): char {
    if 'A' <= c <= 'Z' then c + 32 as char else c
  }

  /** The letters by name: each capital goes to the small letter in its place, and nothing else changes. */
  lemma LowerExactly(i: nat, c: char)
    requires i < 26
    ensures LowerChar("ABCDEFGHIJKLMNOPQRSTUVWXYZ"[i]) == "abcdefghijklmnopqrstuvwxyz"[i]
    ensures c as int < 65 || 90 < c as int ==> LowerChar(c) == c
  {
  }

  /** `to_ascii_lowercase`. */
  function Lower(s: string): (r: string)
    ensures |r| == |s| && forall i :: 0 <= i < |s| ==> r[i] == LowerChar(s[i])
  {
    seq(|s|, i requires 0 <= i < |s| => LowerChar(s[i]))
  }

  lemma LowerKeepsSpace(c: char)
    ensures IsSpace(LowerChar(c)) == IsSpace(c)
  {
  }

  lemma LowerTrimmed(s: string)
    requires IsTrimmed(s)
    ensures IsTrimmed(Lower(s))
  {
    if s != "" {
      LowerKeepsSpace(s[0]);
      LowerKeepsSpace(s[|s| - 1]);
    }
  }

  /** An occurrence carries over to any text that holds this one. */
  lemma OccursInside(before: string, s: string, after: string, pat: string)
    requires Occurs(s, pat)
    ensures Occurs(before + s + after, pat)
  {
    var i :| OccursAt(s, pat, i);
    var t, k := before + s + after, |before| + i;
    assert t[k..k + |pat|] == s[i..i + |pat|];
    assert OccursAt(t, pat, k);
  }

  lemma OccursTransitive(s: string, mid: string, pat: string)
    requires Occurs(s, mid) && Occurs(mid, pat)
    ensures Occurs(s, pat)
  {
    var i :| OccursAt(s, mid, i);
    OccursInside(s[..i], mid, s[i + |mid|..], pat);
    assert s == s[..i] + mid + s[i + |mid|..];
  }

  lemma LowerAppend(a: string, b: string)
    ensures Lower(a + b) == Lower(a) + Lower(b)
  {
  }

  /** An occurrence with no whitespace at its ends lies within the window of `TrimWindow`. */
  lemma OccursInWindow(s: string, pat: string, k: nat, i: nat, j: nat)
    requires pat != "" && IsTrimmed(pat) && OccursAt(Lower(s), pat, k)
    requires i <= j <= |s| && forall n :: 0 <= n < i || j <= n < |s| ==> IsSpace(s[n])
    ensures i <= k && k + |pat| <= j
  {
    var first, last := k, k + |pat| - 1;
    var found := Lower(s)[k..k + |pat|];
    assert found[0] == Lower(s)[first] && found[|pat| - 1] == Lower(s)[last];
    LowerKeepsSpace(s[first]);
    LowerKeepsSpace(s[last]);
    assert !IsSpace(s[first]) && !IsSpace(s[last]);
  }

  lemma LowerSlice(s: string, i: nat, j: nat)
    requires i <= j <= |s|
    ensures Lower(s[i..j]) == Lower(s)[i..j]
  {
  }

  /** A pattern with no whitespace at its ends occurs in the trimmed text exactly when it occurs in
      the text, in any letter case. */
  lemma OccursInTrim(s: string, pat: string)
    requires pat != "" && IsTrimmed(pat)
    ensures Occurs(Lower(Trim(s)), pat) <==> Occurs(Lower(s), pat)
  {
    var i, j := TrimWindow(s);
    LowerSlice(s, i, j);
    var low := Lower(s);
    if Occurs(low, pat) {
      var k :| OccursAt(low, pat, k);
      OccursInWindow(s, pat, k, i, j);
      OccursInSlice(low, pat, k, i, j);
    }
    if Occurs(low[i..j], pat) {
      OccursInside(low[..i], low[i..j], low[j..], pat);
      ThreeParts(low, i, j);
    }
  }

  lemma ThreeParts(s: string, i: nat, j: nat)
    requires i <= j <= |s|
    ensures s[..i] + s[i..j] + s[j..] == s
  {
  }

  lemma OccursInSlice(s: string, pat: string, k: nat, i: nat, j: nat)
    requires OccursAt(s, pat, k) && i <= k && k + |pat| <= j <= |s|
    ensures Occurs(s[i..j], pat)
  {
    var mid, n := s[i..j], k - i;
    var found := mid[n..n + |pat|];
    assert s[k..k + |pat|] == pat;
    assert |found| == |pat| && forall x :: 0 <= x < |found| ==> found[x] == pat[x];
    assert OccursAt(mid, pat, n);
  }
}
