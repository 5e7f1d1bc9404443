/**
 * The few Python string operations the application relies on: `str.strip()`,
 * `str.lower()`, `str(int)`, `int(str)` on the strings `str(int)` produces,
 * `str.zfill` and the `{:02d}` format.
 */
module Text {

  /** Characters for which Python's `str.isspace()` holds. */
  predicate IsSpace(c: char)
  {
    ('\t' <= c <= '\r') || ('\U{1C}' <= c <= ' ') ||
    c == '\U{85}' || c == '\U{A0}' || c == '\U{1680}' || ('\U{2000}' <= c <= '\U{200A}') ||
    c == '\U{2028}' || c == '\U{2029}' || c == '\U{202F}' || c == '\U{205F}' || c == '\U{3000}'
  }

  function TrimLeft(s: string): (r: string)
    ensures |r| <= |s| && r == s[|s| - |r|..]
    ensures r == [] || !IsSpace(r[0])
    ensures forall i :: 0 <= i < |s| - |r| ==> IsSpace(s[i])
  {
    if s != [] && IsSpace(s[0]) then TrimLeft(s[1..]) else s
  }

  function TrimRight(s: string): (r: string)
    ensures |r| <= |s| && r == s[..|r|]
    ensures r == [] || !IsSpace(r[|r| - 1])
    ensures forall i :: |r| <= i < |s| ==> IsSpace(s[i])
  {
    if s != [] && IsSpace(s[|s| - 1]) then TrimRight(s[..|s| - 1]) else s
  }

  /** Python's `s.strip()`: drop leading and trailing whitespace. */
  function Strip(s: string): (r: string)
    ensures exists i, j :: (0 <= i <= j <= |s| && r == s[i..j] &&
      (forall k :: 0 <= k < i ==> IsSpace(s[k])) &&
      (forall k :: j <= k < |s| ==> IsSpace(s[k])))
    ensures r == [] || (!IsSpace(r[0]) && !IsSpace(r[|r| - 1]))
  {
    var l := TrimLeft(s);
    var r := TrimRight(l);
    assert r == s[|s| - |l|..|s| - |l| + |r|];
    r
  }

  /** Python's `str.lower()` on one character, for ASCII and Latin-1 capitals. */
  function LowerChar(c: char): (r: char)
  {
    if 'A' <= c <= 'Z' || ('\U{C0}' <= c <= '\U{DE}' && c != '\U{D7}') then
      (c as int + 32) as char
    else c
  }

  function Lower(s: string): (r: string)
    ensures |r| == |s| && forall i :: 0 <= i < |s| ==> r[i] == LowerChar(s[i])
  {
    if s == [] then [] else [LowerChar(s[0])] + Lower(s[1..])
  }

  /** Python's `s.strip().lower()`, the normalisation applied to flags and roles. */
  function Normalize(s: string): string
  {
    Lower(Strip(s))
  }

  // ---------------------------------------------------------------------------
  // Decimal numerals
  // ---------------------------------------------------------------------------

  function Digit(d: nat): (c: char)
    requires d < 10
    ensures '0' <= c <= '9' && DigitValue(c) == d
  {
    ('0' as int + d) as char
  }

  function DigitValue(c: char): nat
  {
    if '0' <= c <= '9' then c as int - '0' as int else 0
  }

  predicate AllDigits(s: string)
  {
    forall i :: 0 <= i < |s| ==> '0' <= s[i] <= '9'
  }

  /** `str(n)` for a natural number: most significant digit first, no leading zero. */
  function DecimalString(n: nat): (s: string)
    ensures 1 <= |s| && AllDigits(s)
    ensures s[0] == '0' ==> n == 0
  {
    if n < 10 then [Digit(n)] else DecimalString(n / 10) + [Digit(n % 10)]
  }

  /** Python's `str(i)` for an integer. */
  function IntToString(i: int): (s: string)
  {
    if i < 0 then "-" + DecimalString(-i) else DecimalString(i)
  }

  /** The value of a string of decimal digits (the empty string reads as 0). */
  function ParseNat(s: string): nat
  {
    if s == [] then 0 else 10 * ParseNat(s[..|s| - 1]) + DigitValue(s[|s| - 1])
  }

  /** Python's `int(t)` on an optional minus sign followed by digits (`int("-0") == 0`). */
  function ParseInt(t: string): int
  {
    if t != [] && t[0] == '-' then -(ParseNat(t[1..]) as int) else ParseNat(t)
  }

  /** Python's `s.zfill(w)`: pad with zeros after an optional sign up to width `w`. */
  function ZFill(s: string, w: nat): (r: string)
    ensures |r| == if |s| >= w then |s| else w
  {
    if |s| >= w then s
    else if s != [] && (s[0] == '-' || s[0] == '+') then [s[0]] + Zeros(w - |s|) + s[1..]
    else Zeros(w - |s|) + s
  }

  function Zeros(k: nat): (r: string)
    ensures |r| == k && forall i :: 0 <= i < k ==> r[i] == '0'
  {
    if k == 0 then [] else ['0'] + Zeros(k - 1)
  }

  /** Python's `f"{x:02d}"`: at least two characters, zero-padded after the sign. */
  function Pad2(x: int): (r: string)
  {
    if x < 0 then "-" + DecimalString(-x)
    else if x < 10 then "0" + DecimalString(x)
    else DecimalString(x)
  }

  // ---------------------------------------------------------------------------
  // Lemmas
  // ---------------------------------------------------------------------------

  lemma {:induction false} ParseDecimal(n: nat)
    ensures ParseNat(DecimalString(n)) == n
  {
    var s := DecimalString(n);
    if n >= 10 {
      ParseDecimal(n / 10);
      assert s[..|s| - 1] == DecimalString(n / 10);
    }
  }

  /** `int(str(i)) == i`. */
  lemma ParseIntToString(i: int)
    ensures ParseInt(IntToString(i)) == i
  {
    if i < 0 {
      var s := IntToString(i);
      assert s[1..] == DecimalString(-i);
      ParseDecimal(-i);
    } else {
      ParseDecimal(i);
    }
  }

  lemma {:induction false} DecimalStringLength(n: nat)
    ensures |DecimalString(n)| == 1 <==> n < 10
    ensures |DecimalString(n)| == 2 <==> 10 <= n < 100
    ensures |DecimalString(n)| == 3 <==> 100 <= n < 1000
    ensures |DecimalString(n)| >= 4 <==> 1000 <= n
  {
    if n >= 10 {
      DecimalStringLength(n / 10);
    }
  }

  /** Two digit characters read as a two-digit number. */
  lemma ParseTwoDigits(a: nat, b: nat)
    requires a < 10 && b < 10
    ensures ParseInt([Digit(a), Digit(b)]) == 10 * a + b
  {
    var s := [Digit(a), Digit(b)];
    assert s[..1] == [Digit(a)] && [Digit(a)][..0] == [];
    assert ParseNat([Digit(a)]) == a;
    assert ParseNat(s) == 10 * a + b;
  }

  /** A minus sign and one digit. */
  lemma ParseSignedDigit(a: nat)
    requires a < 10
    ensures ParseInt(['-', Digit(a)]) == -(a as int)
  {
    var s := ['-', Digit(a)];
    assert s[1..] == [Digit(a)] && [Digit(a)][..0] == [];
    assert ParseNat([Digit(a)]) == a;
  }

  /** Two-character rendering of a number below 100, as `{:02d}` prints it. */
  lemma Pad2TwoDigits(x: nat)
    requires x < 100
    ensures Pad2(x) == [Digit(x / 10), Digit(x % 10)]
  {
    if x >= 10 {
      assert DecimalString(x / 10) == [Digit(x / 10)];
    }
  }

  /** `f"{x:02d}"` is at least two characters long and `int()` reads it back as `x`. */
  lemma Pad2ReadsBack(x: int)
    ensures |Pad2(x)| >= 2 && ParseInt(Pad2(x)) == x
  {
    if x < 0 {
      assert Pad2(x) == IntToString(x);
      ParseIntToString(x);
    } else if x < 10 {
      Pad2TwoDigits(x);
      ParseTwoDigits(0, x);
    } else {
      DecimalStringLength(x);
      ParseIntToString(x);
    }
  }

  /** `str(n)` for a three-digit number. */
  lemma DecimalThree(n: nat)
    requires 100 <= n < 1000
    ensures DecimalString(n) == [Digit(n / 100), Digit(n / 10 % 10), Digit(n % 10)]
  {
    assert DecimalString(n / 10) == [Digit(n / 100), Digit(n / 10 % 10)] by {
      assert DecimalString(n / 10 / 10) == [Digit(n / 100)];
    }
  }

  /** The last character of `str(n)` is its units digit. */
  lemma DecimalLastDigit(n: nat)
    ensures var s := DecimalString(n); s[|s| - 1] == Digit(n % 10)
  {
  }

  lemma DivTenTwice(n: nat)
    ensures n / 10 / 10 == n / 100 && n / 100 / 10 == n / 1000
  {
  }

  lemma DecimalSnoc(n: nat)
    requires 10 <= n
    ensures DecimalString(n) == DecimalString(n / 10) + [Digit(n % 10)]
  {
  }

  /** The last four characters of `str(n)` for `n >= 1000`. */
  lemma DecimalLastFour(n: nat)
    requires 1000 <= n
    ensures var s := DecimalString(n);
      |s| >= 4 && s[|s| - 4..] == [Digit(n / 1000 % 10), Digit(n / 100 % 10), Digit(n / 10 % 10), Digit(n % 10)]
  {
    DivTenTwice(n);
    LastFourOf(n, n / 10, n / 100, n / 1000);
  }

  lemma LastFourOf(n: nat, m1: nat, m2: nat, m3: nat)
    requires 10 <= m2 && m1 == n / 10 && m2 == m1 / 10 && m3 == m2 / 10
    ensures var s := DecimalString(n);
      |s| >= 4 && s[|s| - 4..] == [Digit(m3 % 10), Digit(m2 % 10), Digit(m1 % 10), Digit(n % 10)]
  {
    var s3 := DecimalString(m3);
    DecimalSnoc(n);
    DecimalSnoc(m1);
    DecimalSnoc(m2);
    DecimalLastDigit(m3);
    LastFourOfSnocs(s3, Digit(m2 % 10), Digit(m1 % 10), Digit(n % 10));
  }

  lemma LastFourOfSnocs(p: string, a: char, b: char, c: char)
    requires |p| >= 1
    ensures var s := p + [a] + [b] + [c]; |s| >= 4 && s[|s| - 4..] == [p[|p| - 1], a, b, c]
  {
  }

  /** `strip()` leaves a string with no whitespace at either end as it is. */
  lemma StripUnpadded(s: string)
    requires s == [] || (!IsSpace(s[0]) && !IsSpace(s[|s| - 1]))
    ensures Strip(s) == s
  {
    assert TrimLeft(s) == s;
    assert TrimRight(s) == s;
  }

  /** Lowering a character neither creates nor removes whitespace and is idempotent. */
  lemma LowerCharFacts(c: char)
    ensures IsSpace(LowerChar(c)) <==> IsSpace(c)
    ensures LowerChar(LowerChar(c)) == LowerChar(c)
  {
  }

  /** `s.strip().lower()` is idempotent: normalising twice is normalising once. */
  lemma NormalizeIdempotent(s: string)
    ensures Normalize(Normalize(s)) == Normalize(s)
  {
    var u := Normalize(s);
    LowerKeepsEdges(Strip(s));
    LowerIdempotent(Strip(s));
    NormalizeFixed(u);
  }

  /** Lower-casing a string with no whitespace at either end keeps it so. */
  lemma LowerKeepsEdges(t: string)
    requires t == [] || (!IsSpace(t[0]) && !IsSpace(t[|t| - 1]))
    ensures var u := Lower(t); u == [] || (!IsSpace(u[0]) && !IsSpace(u[|u| - 1]))
  {
    if t != [] {
      LowerCharFacts(t[0]);
      LowerCharFacts(t[|t| - 1]);
    }
  }

  /** Every character of a lower-cased string is already in lower case. */
  lemma LowerIdempotent(t: string)
    ensures var u := Lower(t); forall i :: 0 <= i < |u| ==> LowerChar(u[i]) == u[i]
  {
    forall i | 0 <= i < |t|
      ensures LowerChar(Lower(t)[i]) == Lower(t)[i]
    {
      LowerCharFacts(t[i]);
    }
  }

  /** A string already stripped and in lower case is its own normal form. */
  lemma NormalizeFixed(s: string)
    requires s == [] || (!IsSpace(s[0]) && !IsSpace(s[|s| - 1]))
    requires forall i :: 0 <= i < |s| ==> LowerChar(s[i]) == s[i]
    ensures Normalize(s) == s
  {
    StripUnpadded(s);
  }
}
