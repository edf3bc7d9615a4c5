/** The pieces of JavaScript's built-in semantics the application's logic leans on:
    `String.prototype.trim`, `parseInt` without a radix, the remainder operator `%`
    and `Math.round`, restated over unbounded integers and exact reals. */
module Js {
  import opened Optional
  import opened Text

  /** WhiteSpace and LineTerminator code points of the ECMAScript grammar: what `trim`
      removes and what `parseInt` skips. */
  predicate IsWhitespace(c: char) {
    || '\U{9}' <= c <= '\U{D}'
    || c == ' ' || c == '\U{A0}' || c == '\U{1680}'
    || '\U{2000}' <= c <= '\U{200A}'
    || c == '\U{2028}' || c == '\U{2029}' || c == '\U{202F}' || c == '\U{205F}'
    || c == '\U{3000}' || c == '\U{FEFF}'
  }

  predicate AllWhitespace(s: string) {
    forall i :: 0 <= i < |s| ==> IsWhitespace(s[i])
  }

  lemma WhitespaceCons(c: char, s: string)
    requires IsWhitespace(c) && AllWhitespace(s)
    ensures AllWhitespace([c] + s)
  {
    assert forall i :: 0 < i <= |s| ==> ([c] + s)[i] == s[i - 1];
  }

  lemma WhitespaceSnoc(s: string, c: char)
    requires AllWhitespace(s) && IsWhitespace(c)
    ensures AllWhitespace(s + [c])
  {
    assert forall i :: 0 <= i < |s| ==> (s + [c])[i] == s[i];
  }

  /** How many whitespace characters `s` starts with. */
  function LeadingSpace(s: string): (n: nat)
    ensures n <= |s| && AllWhitespace(s[..n])
    ensures n < |s| ==> !IsWhitespace(s[n])
  {
    if |s| > 0 && IsWhitespace(s[0]) then
      var k := LeadingSpace(s[1..]);
      WhitespaceCons(s[0], s[1..][..k]);
      assert s[..k + 1] == [s[0]] + s[1..][..k];
      k + 1
    else 0
  }

  /** How many whitespace characters `s` ends with. */
  function TrailingSpace(s: string): (n: nat)
    ensures n <= |s| && AllWhitespace(s[|s| - n..])
    ensures n < |s| ==> !IsWhitespace(s[|s| - n - 1])
  {
    if |s| > 0 && IsWhitespace(s[|s| - 1]) then
      var init := s[..|s| - 1];
      var k := TrailingSpace(init);
      WhitespaceSnoc(init[|init| - k..], s[|s| - 1]);
      assert s[|s| - (k + 1)..] == init[|init| - k..] + [s[|s| - 1]];
      k + 1
    else 0
  }

  /** `s.trimStart()`: `s` from its first character that is not whitespace. */
  function TrimStart(s: string): (r: string)
    ensures |r| > 0 ==> !IsWhitespace(r[0])
  {
    s[LeadingSpace(s)..]
  }

  /** `s.trim()`: the piece of `s` after its leading whitespace, with only whitespace
      after it, and no whitespace at either of its ends. */
  function Trim(s: string): (r: string)
    ensures LeadingSpace(s) + |r| <= |s|
    ensures r == s[LeadingSpace(s)..LeadingSpace(s) + |r|]
    ensures AllWhitespace(s[LeadingSpace(s) + |r|..])
    ensures |r| > 0 ==> !IsWhitespace(r[0]) && !IsWhitespace(r[|r| - 1])
  {
    var i := LeadingSpace(s);
    var t := s[i..];
    var j := |t| - TrailingSpace(t);
    PieceOfSuffix(s, i, j);
    t[..j]
  }

  /** The first `j` characters of `s[i..]`, and what follows them. */
  lemma PieceOfSuffix(s: string, i: nat, j: nat)
    requires i + j <= |s|
    ensures s[i..][..j] == s[i..i + j] && s[i..][j..] == s[i + j..]
    ensures j > 0 ==> s[i..][..j][0] == s[i] && s[i..][..j][j - 1] == s[i..][j - 1]
  {
  }

  /** `!s.trim()`: the field is blank. */
  predicate IsBlank(s: string) {
    Trim(s) == ""
  }

  /** A field is blank exactly when every character of it is whitespace. */
  lemma BlankIffAllWhitespace(s: string)
    ensures IsBlank(s) <==> AllWhitespace(s)
  {
    var i := LeadingSpace(s);
    if IsBlank(s) {
      assert s == s[..i] + s[i..];
      WhitespaceConcat(s[..i], s[i..]);
    }
  }

  lemma WhitespaceConcat(a: string, b: string)
    requires AllWhitespace(a) && AllWhitespace(b)
    ensures AllWhitespace(a + b)
  {
    assert forall k :: |a| <= k < |a + b| ==> (a + b)[k] == b[k - |a|];
  }

  /** The value of a digit in base 10 or 16 (`parseInt` accepts both letter cases). */
  function RadixDigit(c: char, radix: nat): Option<nat>
    requires radix == 10 || radix == 16
  {
    if '0' <= c <= '9' then Some(c as int - '0' as int)
    else if radix == 16 && 'a' <= c <= 'f' then Some(c as int - 'a' as int + 10)
    else if radix == 16 && 'A' <= c <= 'F' then Some(c as int - 'A' as int + 10)
    else None
  }

  /** Length of the longest prefix of `s` made of digits of `radix`. */
  function DigitRun(s: string, radix: nat): (n: nat)
    requires radix == 10 || radix == 16
    ensures n <= |s|
    ensures forall i :: 0 <= i < n ==> RadixDigit(s[i], radix).Some?
    ensures n < |s| ==> RadixDigit(s[n], radix).None?
  {
    if |s| > 0 && RadixDigit(s[0], radix).Some? then 1 + DigitRun(s[1..], radix) else 0
  }

  /** The number denoted by a run of digits, most significant first. */
  function RunValue(s: string, radix: nat): nat
    requires radix == 10 || radix == 16
    requires forall i :: 0 <= i < |s| ==> RadixDigit(s[i], radix).Some?
  {
    if |s| == 0 then 0
    else RunValue(s[..|s| - 1], radix) * radix + RadixDigit(s[|s| - 1], radix).value
  }

  /** `parseInt(s)`: skip whitespace, read an optional sign, switch to base 16 after
      `0x`/`0X`, then read the longest run of digits; no digits gives NaN (`None`). */
  function ParseInt(s: string): (r: Option<int>)
    ensures r.None? <==> DigitRun(Unsigned(s).body, Unsigned(s).radix) == 0
    ensures r.Some? && r.value < 0 ==> Unsigned(s).negative
  {
    var u := Unsigned(s);
    var n := DigitRun(u.body, u.radix);
    if n == 0 then None
    else
      var v: int := RunValue(u.body[..n], u.radix);
      Some(if u.negative then -v else v)
  }

  /** What `parseInt` has found before its digits: base, remaining text, sign. */
  datatype Prefix = Prefix(radix: nat, body: string, negative: bool)

  /** `parseInt`'s preparation: whitespace, sign and hexadecimal prefix removed. */
  function Unsigned(s: string): (u: Prefix)
    ensures u.radix == 10 || u.radix == 16
  {
    var t := TrimStart(s);
    var negative := |t| > 0 && t[0] == '-';
    var rest := if |t| > 0 && (t[0] == '-' || t[0] == '+') then t[1..] else t;
    if |rest| >= 2 && rest[0] == '0' && (rest[1] == 'x' || rest[1] == 'X') then Prefix(16, rest[2..], negative)
    else Prefix(10, rest, negative)
  }

  /** `parseInt` reads back what `String(n)` writes. */
  lemma ParseIntOfIntToString(n: int)
    ensures ParseInt(IntToString(n)) == Some(n)
  {
    ParseIntOfDigitsThen(n, "");
    assert IntToString(n) + "" == IntToString(n);
  }

  /** `parseInt` stops at the first character that is not a digit, so a fraction or an
      exponent after the integer part is ignored. */
  lemma ParseIntOfDigitsThen(n: int, tail: string)
    requires tail == "" || tail[0] == '.' || tail[0] == 'e' || tail[0] == 'E'
    ensures ParseInt(IntToString(n) + tail) == Some(n)
  {
    var m: nat := if n < 0 then -n else n;
    var digits := NatToString(m);
    var u := digits + tail;
    var s := IntToString(n) + tail;
    UnsignedOfDigitsThen(n, tail);
    DigitRunOfDigits(digits, tail);
    assert u[..|digits|] == digits;
    RunValueIsDigitsValue(digits);
    assert RunValue(u[..|digits|], 10) == m;
  }

  /** A decimal rendering followed by `tail` is read in base 10 with its own sign. */
  lemma UnsignedOfDigitsThen(n: int, tail: string)
    requires tail == "" || tail[0] == '.' || tail[0] == 'e' || tail[0] == 'E'
    ensures Unsigned(IntToString(n) + tail)
            == Prefix(10, NatToString(if n < 0 then -n else n) + tail, n < 0)
  {
    var digits := NatToString(if n < 0 then -n else n);
    assert IntToString(n) + tail == (if n < 0 then "-" else "") + (digits + tail);
    DecimalPrefix(digits, tail, n < 0);
  }

  /** An optional minus sign, digits without a superfluous leading zero, then text that
      cannot continue a number: base 10, nothing skipped. */
  lemma DecimalPrefix(digits: string, tail: string, negative: bool)
    requires |digits| >= 1 && AllDigits(digits) && (digits[0] == '0' ==> digits == "0")
    requires tail == "" || tail[0] == '.' || tail[0] == 'e' || tail[0] == 'E'
    ensures Unsigned((if negative then "-" else "") + (digits + tail))
            == Prefix(10, digits + tail, negative)
  {
    var u := digits + tail;
    assert u[0] == digits[0];
    NoHexPrefix(digits, tail);
    if negative {
      var s := "-" + u;
      assert s[0] == '-' && s[1..] == u;
      NotTrimmed(s);
      UnsignedOfTrimmed(s, u, true);
    } else {
      assert "" + u == u;
      NotTrimmed(u);
      UnsignedOfTrimmed(u, u, false);
    }
  }

  lemma NotTrimmed(s: string)
    requires |s| > 0 && (s[0] == '-' || IsDigit(s[0]))
    ensures TrimStart(s) == s
  {
    assert !IsWhitespace(s[0]);
  }

  lemma UnsignedOfTrimmed(s: string, u: string, negative: bool)
    requires TrimStart(s) == s && |u| > 0 && IsDigit(u[0])
    requires negative ==> |s| > 0 && s[0] == '-' && s[1..] == u
    requires !negative ==> s == u
    requires !(|u| >= 2 && u[0] == '0' && (u[1] == 'x' || u[1] == 'X'))
    ensures Unsigned(s) == Prefix(10, u, negative)
  {
  }

  lemma NoHexPrefix(digits: string, tail: string)
    requires |digits| >= 1 && AllDigits(digits) && (digits[0] == '0' ==> digits == "0")
    requires tail == "" || tail[0] == '.' || tail[0] == 'e' || tail[0] == 'E'
    ensures var u := digits + tail; !(|u| >= 2 && u[0] == '0' && (u[1] == 'x' || u[1] == 'X'))
  {
    var u := digits + tail;
    if |u| >= 2 && u[0] == '0' {
      assert u[0] == digits[0];
      assert u[1] == tail[0];
    }
  }

  lemma {:induction false} DigitRunOfDigits(digits: string, tail: string)
    requires AllDigits(digits)
    requires tail == "" || !IsDigit(tail[0])
    ensures DigitRun(digits + tail, 10) == |digits|
    decreases |digits|
  {
    if |digits| > 0 {
      assert (digits + tail)[1..] == digits[1..] + tail;
      DigitRunOfDigits(digits[1..], tail);
    } else {
      assert digits + tail == tail;
    }
  }

  lemma {:induction false} RunValueIsDigitsValue(digits: string)
    requires AllDigits(digits)
    ensures RunValue(digits, 10) == DigitsValue(digits)
    decreases |digits|
  {
    if |digits| > 0 {
      RunValueIsDigitsValue(digits[..|digits| - 1]);
    }
  }

  /** JavaScript's `a % b`: the remainder of division truncated toward zero, so it takes
      the sign of `a` (Dafny's `%` is Euclidean and never negative). */
  function Rem(a: int, b: int): (r: int)
    requires b != 0
    ensures a >= 0 ==> r == a % Abs(b)
    ensures a < 0 ==> r == -Rem(-a, b) && r > -(Abs(b) as int) && r <= 0
    decreases if a < 0 then 1 else 0
  {
    if a >= 0 then a % Abs(b) else -((-a) % Abs(b))
  }

  function Abs(x: int): nat {
    if x < 0 then -x else x
  }

  /** `Math.round(x)`: the nearest integer, halves rounded up. */
  function MathRound(x: real): (n: int)
    ensures n as real - 0.5 <= x < n as real + 0.5
  {
    (x + 0.5).Floor
  }
}
