/** Decimal digits, JavaScript's rendering of integers, fixed-width zero padding and the
    code-unit order that JavaScript's `<`, `>=` and `localeCompare` (for the ASCII
    strings used here) apply to strings. */
module Text {

  predicate IsDigit(c: char) {
    '0' <= c <= '9'
  }

  function DigitValue(c: char): nat
    requires IsDigit(c)
  {
    c as int - '0' as int
  }

  function DigitChar(d: nat): (c: char)
    requires d < 10
    ensures IsDigit(c) && DigitValue(c) == d
  {
    ('0' as int + d) as char
  }

  predicate AllDigits(s: string) {
    forall i :: 0 <= i < |s| ==> IsDigit(s[i])
  }

  function Pow10(n: nat): (p: nat)
    ensures p >= 1
  {
    if n == 0 then 1 else 10 * Pow10(n - 1)
  }

  /** The number a string of decimal digits denotes, most significant digit first. */
  function DigitsValue(s: string): nat
    requires AllDigits(s)
  {
    if |s| == 0 then 0 else DigitsValue(s[..|s| - 1]) * 10 + DigitValue(s[|s| - 1])
  }

  /** Appending a digit multiplies by ten and adds it. */
  lemma DigitsValueSnoc(s: string, c: char)
    requires AllDigits(s) && IsDigit(c)
    ensures AllDigits(s + [c])
    ensures DigitsValue(s + [c]) == DigitsValue(s) * 10 + DigitValue(c)
  {
    assert (s + [c])[..|s|] == s;
  }

  /** JavaScript's `String(n)` for a non-negative integer: shortest decimal form. */
  function NatToString(n: nat): (s: string)
    ensures |s| >= 1 && AllDigits(s)
    ensures DigitsValue(s) == n
    ensures s[0] == '0' ==> s == "0"
  {
    if n < 10 then [DigitChar(n)]
    else
      var prefix := NatToString(n / 10);
      DigitsValueSnoc(prefix, DigitChar(n % 10));
      prefix + [DigitChar(n % 10)]
  }

  /** JavaScript's `String(n)` (and template interpolation) for an integer. */
  function IntToString(n: int): (s: string)
    ensures |s| >= 1
    ensures n >= 0 ==> s == NatToString(n)
    ensures n < 0 ==> s == "-" + NatToString(-n)
  {
    if n < 0 then "-" + NatToString(-n) else NatToString(n)
  }

  /** `n` written with exactly `width` digits, zero padded on the left. */
  function Pad(n: nat, width: nat): (s: string)
    requires n < Pow10(width)
    ensures |s| == width && AllDigits(s)
    ensures DigitsValue(s) == n
  {
    if width == 0 then ""
    else
      var prefix := Pad(n / 10, width - 1);
      DigitsValueSnoc(prefix, DigitChar(n % 10));
      prefix + [DigitChar(n % 10)]
  }

  /** Lexicographic order on strings, element by element. */
  predicate LexLe(a: string, b: string)
    decreases |a|
  {
    |a| == 0 || (|b| > 0 && (a[0] < b[0] || (a[0] == b[0] && LexLe(a[1..], b[1..]))))
  }

  predicate LexLt(a: string, b: string) {
    LexLe(a, b) && a != b
  }

  lemma {:induction false} LexLeReflexive(a: string)
    ensures LexLe(a, a)
    decreases |a|
  {
    if |a| > 0 {
      LexLeReflexive(a[1..]);
    }
  }

  lemma {:induction false} LexLeTotal(a: string, b: string)
    ensures LexLe(a, b) || LexLe(b, a)
    decreases |a|
  {
    if |a| > 0 && |b| > 0 && a[0] == b[0] {
      LexLeTotal(a[1..], b[1..]);
    }
  }

  lemma {:induction false} LexLeAntisymmetric(a: string, b: string)
    requires LexLe(a, b) && LexLe(b, a)
    ensures a == b
    decreases |a|
  {
    if |a| > 0 {
      LexLeAntisymmetric(a[1..], b[1..]);
      assert a == [a[0]] + a[1..] && b == [b[0]] + b[1..];
    }
  }

  lemma {:induction false} LexLeTransitive(a: string, b: string, c: string)
    requires LexLe(a, b) && LexLe(b, c)
    ensures LexLe(a, c)
    decreases |a|
  {
    if |a| > 0 && a[0] == b[0] && b[0] == c[0] {
      LexLeTransitive(a[1..], b[1..], c[1..]);
    }
  }

  /** Comparing two strings whose first parts have the same length decides on the
      first parts unless they are equal. */
  lemma {:induction false} LexLeConcat(p: string, s: string, q: string, t: string)
    requires |p| == |q|
    ensures LexLe(p + s, q + t) <==> (LexLt(p, q) || (p == q && LexLe(s, t)))
    decreases |p|
  {
    if |p| > 0 {
      assert (p + s)[1..] == p[1..] + s;
      assert (q + t)[1..] == q[1..] + t;
      LexLeConcat(p[1..], s, q[1..], t);
      assert p == [p[0]] + p[1..] && q == [q[0]] + q[1..];
    } else {
      assert p + s == s && q + t == t;
    }
  }

  /** Concatenations with equally long first parts are equal only part by part. */
  lemma ConcatInjective<T>(p: seq<T>, s: seq<T>, q: seq<T>, t: seq<T>)
    requires |p| == |q|
    ensures p + s == q + t <==> p == q && s == t
  {
    if p + s == q + t {
      assert p == (p + s)[..|p|] && q == (q + t)[..|q|];
      assert s == (p + s)[|p|..] && t == (q + t)[|q|..];
    }
  }

  /** Length of the run of decimal digits that `x` starts with. */
  function DigitPrefixLength(x: string): (n: nat)
    ensures n <= |x|
  {
    if |x| > 0 && IsDigit(x[0]) then 1 + DigitPrefixLength(x[1..]) else 0
  }

  lemma {:induction false} DigitPrefixOfDigitsThen(a: string, s: string)
    requires AllDigits(a) && |s| > 0 && !IsDigit(s[0])
    ensures DigitPrefixLength(a + s) == |a|
    decreases |a|
  {
    if |a| > 0 {
      assert (a + s)[1..] == a[1..] + s;
      DigitPrefixOfDigitsThen(a[1..], s);
    } else {
      assert a + s == s;
    }
  }

  /** A run of digits followed by text that starts with something else splits only one
      way: at the first non-digit. */
  lemma DigitsThenSeparator(a: string, s: string, b: string, t: string)
    requires AllDigits(a) && AllDigits(b)
    requires |s| > 0 && !IsDigit(s[0]) && |t| > 0 && !IsDigit(t[0])
    ensures a + s == b + t <==> a == b && s == t
  {
    if a + s == b + t {
      DigitPrefixOfDigitsThen(a, s);
      DigitPrefixOfDigitsThen(b, t);
      ConcatInjective(a, s, b, t);
    }
  }

  /** Splitting off the most significant digit. */
  lemma {:induction false} DigitsValueCons(s: string)
    requires |s| > 0 && AllDigits(s)
    ensures DigitsValue(s) == DigitValue(s[0]) * Pow10(|s| - 1) + DigitsValue(s[1..])
    decreases |s|
  {
    if |s| > 1 {
      var init := s[..|s| - 1];
      DigitsValueCons(init);
      assert init[1..] == s[1..][..|s[1..]| - 1];
      assert init[0] == s[0];
      ShiftDigit(DigitValue(s[0]), Pow10(|s| - 2), DigitsValue(init[1..]), DigitValue(s[|s| - 1]));
    } else {
      assert s[1..] == [];
    }
  }

  /** Appending a digit to `d` followed by `mid` shifts both by one place. */
  lemma ShiftDigit(d: int, p: int, mid: int, last: int)
    ensures (d * p + mid) * 10 + last == d * (10 * p) + (mid * 10 + last)
  {
  }

  lemma {:induction false} DigitsValueBound(s: string)
    requires AllDigits(s)
    ensures DigitsValue(s) < Pow10(|s|)
    decreases |s|
  {
    if |s| > 0 {
      DigitsValueBound(s[..|s| - 1]);
    }
  }

  /** For digit strings of equal length, the string order is the numeric order. */
  lemma {:induction false} DigitsLexOrder(a: string, b: string)
    requires |a| == |b| && AllDigits(a) && AllDigits(b)
    ensures LexLe(a, b) <==> DigitsValue(a) <= DigitsValue(b)
    decreases |a|
  {
    if |a| > 0 {
      var p := Pow10(|a| - 1);
      DigitsValueCons(a);
      DigitsValueCons(b);
      DigitsValueBound(a[1..]);
      DigitsValueBound(b[1..]);
      var da, db := DigitValue(a[0]), DigitValue(b[0]);
      var ra, rb := DigitsValue(a[1..]), DigitsValue(b[1..]);
      DigitsLexOrder(a[1..], b[1..]);
      LeadingDigitOrder(da, db, ra, rb, p);
      assert (a[0] < b[0] <==> da < db) && (a[0] == b[0] <==> da == db);
      assert LexLe(a, b) <==> a[0] < b[0] || (a[0] == b[0] && LexLe(a[1..], b[1..]));
    }
  }

  /** Numbers written with the same number of places compare by their leading digit
      first and by the rest on a tie. */
  lemma LeadingDigitOrder(da: nat, db: nat, ra: nat, rb: nat, p: nat)
    requires ra < p && rb < p
    ensures da * p + ra <= db * p + rb <==> da < db || (da == db && ra <= rb)
  {
    if da < db {
      LeadingDigitDecides(da, db, ra, rb, p);
    } else if db < da {
      LeadingDigitDecides(db, da, rb, ra, p);
    }
  }

  /** A smaller leading digit gives a smaller number, whatever follows. */
  lemma LeadingDigitDecides(x: nat, y: nat, rx: nat, ry: nat, p: nat)
    requires x < y && rx < p
    ensures x * p + rx < y * p + ry
  {
    MulMonotone(x + 1, y, p);
  }

  /** Two digit strings of the same length are equal exactly when their values are. */
  lemma DigitsInjective(a: string, b: string)
    requires |a| == |b| && AllDigits(a) && AllDigits(b)
    ensures a == b <==> DigitsValue(a) == DigitsValue(b)
  {
    DigitsLexOrder(a, b);
    DigitsLexOrder(b, a);
    if DigitsValue(a) == DigitsValue(b) {
      LexLeAntisymmetric(a, b);
    }
  }

  lemma MulMonotone(x: nat, y: nat, p: nat)
    requires x <= y
    ensures x * p <= y * p
  {
  }

  /** Zero-padded numbers of the same width compare like the numbers. */
  lemma PadOrder(n: nat, k: nat, width: nat)
    requires n < Pow10(width) && k < Pow10(width)
    ensures LexLe(Pad(n, width), Pad(k, width)) <==> n <= k
    ensures Pad(n, width) == Pad(k, width) <==> n == k
  {
    DigitsLexOrder(Pad(n, width), Pad(k, width));
    DigitsInjective(Pad(n, width), Pad(k, width));
  }
}
