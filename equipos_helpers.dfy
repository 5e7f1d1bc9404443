/**
 * equipos.py, the helpers around team generation: reading a stored HHMM hour
 * (`formatear_hora`), the duo/trio validation of `_guardar_companeros_si_valido`,
 * the jersey rules, and the manual swap and confirmation check of the
 * generation panel.
 */
module EquiposHelpers {
  import opened Wrappers
  import opened Text
  import opened Lineup
  import opened Search

  // ---------------------------------------------------------------------------
  // formatear_hora
  // ---------------------------------------------------------------------------

  const DefaultHour: string := "19:00"

  /** `f"{hh:02d}:{mm:02d}"` for a valid hour and minute, the default otherwise. */
  function HourText(hh: int, mm: int): (r: string)
    ensures r == DefaultHour || (0 <= hh <= 23 && 0 <= mm <= 59)
    ensures |r| == 5 && r[2] == ':'
  {
    if 0 <= hh <= 23 && 0 <= mm <= 59 then
      Pad2TwoDigits(hh);
      Pad2TwoDigits(mm);
      Pad2(hh) + ":" + Pad2(mm)
    else DefaultHour
  }

  /**
   * `formatear_hora`: `str(int(h))` of at most two characters is the hour
   * itself; a longer one is zero-filled to four characters and its last four
   * read as `HH` and `MM`.
   */
  function FormatHour(h: Option<int>): (r: string)
    ensures |r| == 5 && r[2] == ':'
  {
    if h.None? then DefaultHour
    else
      var s := IntToString(h.value);
      if |s| <= 2 then HourText(ParseInt(s), 0)
      else
        var z := ZFill(s, 4);
        var t := z[|z| - 4..];
        HourText(ParseInt(t[..2]), ParseInt(t[2..]))
  }

  /**
   * The hour and minute `formatear_hora` reads from `x`, case by case: a
   * two-digit value is an hour; otherwise the last four decimal digits are
   * HHMM, except that the minus sign of a short negative number ends up in
   * the hour field.
   */
  function HourFields(x: int): (int, int)
  {
    var n := if x < 0 then -x else x;
    if -10 < x < 100 then (x, 0)
    else if -100 < x <= -10 then (0, n)
    else if -1000 < x <= -100 then (-(n / 100), n % 100)
    else (n / 100 % 100, n % 100)
  }

  /** `formatear_hora` agrees with the case analysis of `HourFields`. */
  lemma FormatHourFields(x: int)
    ensures FormatHour(Some(x)) == HourText(HourFields(x).0, HourFields(x).1)
  {
    var n: nat := if x < 0 then -x else x;
    DecimalStringLength(n);
    if -10 < x < 100 {
      ParseIntToString(x);
    } else if -100 < x <= -10 {
      NegativeTwoDigits(n);
    } else if -1000 < x <= -100 {
      NegativeThreeDigits(n);
    } else if 100 <= x < 1000 {
      PositiveThreeDigits(n);
    } else {
      FourDigitsOrMore(x, n);
    }
  }

  lemma NegativeTwoDigits(n: nat)
    requires 10 <= n < 100
    ensures FormatHour(Some(-(n as int))) == HourText(0, n)
  {
    DecimalStringLength(n);
    var d := DecimalString(n);
    var s := IntToString(-(n as int));
    assert s == "-" + d;
    var z := ZFill(s, 4);
    assert z == "-0" + d;
    assert z[|z| - 4..] == z;
    assert z[..2] == "-0" && z[2..] == d;
    assert ParseInt("-0") == 0;
    ParseDecimal(n);
  }

  lemma NegativeThreeDigits(n: nat)
    requires 100 <= n < 1000
    ensures FormatHour(Some(-(n as int))) == HourText(-(n / 100), n % 100)
  {
    var a, b, c := n / 100, n / 10 % 10, n % 10;
    NegativePaddedThree(n);
    FourCharsHour(-(n as int), '-', Digit(a), Digit(b), Digit(c));
    ParseSignedDigit(a);
    ParseTwoDigits(b, c);
    HundredsOf(n);
  }

  /** `str(-n).zfill(4)` for a three-digit `n` is `str(-n)` itself. */
  lemma NegativePaddedThree(n: nat)
    requires 100 <= n < 1000
    ensures |IntToString(-(n as int))| == 4
    ensures ZFill(IntToString(-(n as int)), 4) == ['-', Digit(n / 100), Digit(n / 10 % 10), Digit(n % 10)]
  {
    DecimalThree(n);
  }

  lemma PositiveThreeDigits(n: nat)
    requires 100 <= n < 1000
    ensures FormatHour(Some(n)) == HourText(n / 100 % 100, n % 100)
  {
    var a, b, c := n / 100, n / 10 % 10, n % 10;
    PaddedThree(n);
    FourCharsHour(n, Digit(0), Digit(a), Digit(b), Digit(c));
    ParseTwoDigits(0, a);
    ParseTwoDigits(b, c);
    ThreeDigitFields(n);
  }

  lemma ThreeDigitFields(n: nat)
    requires 100 <= n < 1000
    ensures 10 * 0 + n / 100 == n / 100 % 100
    ensures 10 * (n / 10 % 10) + n % 10 == n % 100
  {
    HundredsOf(n);
  }

  /** `str(n).zfill(4)` for a three-digit `n`. */
  lemma PaddedThree(n: nat)
    requires 100 <= n < 1000
    ensures |IntToString(n)| == 3
    ensures ZFill(IntToString(n), 4) == [Digit(0), Digit(n / 100), Digit(n / 10 % 10), Digit(n % 10)]
  {
    DecimalThree(n);
  }

  /** When `str(x)` is longer than two characters and zero-fills to four, those four are `HH` and `MM`. */
  lemma FourCharsHour(x: int, d0: char, d1: char, d2: char, d3: char)
    requires |IntToString(x)| > 2
    requires ZFill(IntToString(x), 4) == [d0, d1, d2, d3]
    ensures FormatHour(Some(x)) == HourText(ParseInt([d0, d1]), ParseInt([d2, d3]))
  {
    var z := [d0, d1, d2, d3];
    assert z[|z| - 4..] == z;
    assert z[|z| - 4..][..2] == [d0, d1] && z[|z| - 4..][2..] == [d2, d3];
  }

  lemma FourDigitsOrMore(x: int, n: nat)
    requires n == (if x < 0 then -x else x) && 1000 <= n
    ensures FormatHour(Some(x)) == HourText(n / 100 % 100, n % 100)
  {
    DecimalStringLength(n);
    var d := DecimalString(n);
    var s := IntToString(x);
    assert s == d || s == "-" + d;
    assert ZFill(s, 4) == s;
    assert s[|s| - 4..] == d[|d| - 4..];
    LastFourParsed(n);
  }

  /** The last four digits of `str(n)`, read as `HH` and `MM`. */
  lemma LastFourParsed(n: nat)
    requires 1000 <= n
    ensures |DecimalString(n)| >= 4
    ensures var d := DecimalString(n);
      ParseInt(d[|d| - 4..][..2]) == n / 100 % 100 && ParseInt(d[|d| - 4..][2..]) == n % 100
  {
    DecimalLastFour(n);
    var d := DecimalString(n);
    var t := d[|d| - 4..];
    assert t[..2] == [Digit(n / 1000 % 10), Digit(n / 100 % 10)];
    assert t[2..] == [Digit(n / 10 % 10), Digit(n % 10)];
    ParseTwoDigits(n / 1000 % 10, n / 100 % 10);
    ParseTwoDigits(n / 10 % 10, n % 10);
    DivTenTwice(n);
    HundredsOf(n / 100);
    HundredsOf(n);
  }

  lemma HundredsOf(q: nat)
    ensures q % 100 == 10 * (q / 10 % 10) + q % 10
  {
  }

  /** An hour stored as `100 * h + m` by `time_int_from_time` reads back as `"hh:mm"` when `h >= 1`. */
  lemma FormatHourOfStoredTime(x: int, h: nat, m: nat)
    requires 1 <= h <= 23 && m <= 59 && x == 100 * h + m
    ensures FormatHour(Some(x)) == Pad2(h) + ":" + Pad2(m)
  {
    FormatHourFields(x);
    StoredTimeFields(h, m);
  }

  lemma StoredTimeFields(h: nat, m: nat)
    requires m < 100 && h < 100
    ensures (100 * h + m) / 100 % 100 == h && (100 * h + m) % 100 == m
  {
    assert (100 * h + m) / 100 == h;
  }

  /** At hour 0 the stored value has at most two digits and reads as an hour: 00:15 shows as "15:00". */
  lemma FormatHourAtMidnight()
    ensures FormatHour(Some(15)) == "15:00"
    ensures FormatHour(Some(0)) == "00:00"
    ensures FormatHour(Some(59)) == DefaultHour
  {
    SmallHour(15);
    SmallHour(0);
    SmallHour(59);
    Pad2TwoDigits(15);
    Pad2TwoDigits(0);
  }

  /** A stored value of at most two digits is read as the hour, with minute 0. */
  lemma SmallHour(x: nat)
    requires x < 100
    ensures FormatHour(Some(x)) == HourText(x, 0)
  {
    FormatHourFields(x);
  }

  // ---------------------------------------------------------------------------
  // _guardar_companeros_si_valido
  // ---------------------------------------------------------------------------

  /** The verdict of the duo/trio validation; `Repeated` carries the names chosen twice. */
  datatype Verdict = BadSizes | Repeated(names: set<string>) | Accepted

  predicate SizesOk(duo1: seq<string>, duo2: seq<string>, trio1: seq<string>, trio2: seq<string>)
  {
    |duo1| in {0, 2} && |duo2| in {0, 2} && |trio1| in {0, 3} && |trio2| in {0, 3}
  }

  /** The validation of `_guardar_companeros_si_valido`: sizes first, then names picked more than once. */
  function CheckCompanions(duo1: seq<string>, duo2: seq<string>, trio1: seq<string>, trio2: seq<string>): (v: Verdict)
    ensures v.BadSizes? <==> !SizesOk(duo1, duo2, trio1, trio2)
    ensures v.Accepted? <==> SizesOk(duo1, duo2, trio1, trio2) && forall x :: multiset(duo1 + duo2 + trio1 + trio2)[x] <= 1
    ensures v.Repeated? ==> (v.names != {} &&
      forall x :: x in v.names <==> multiset(duo1 + duo2 + trio1 + trio2)[x] > 1)
  {
    if !SizesOk(duo1, duo2, trio1, trio2) then BadSizes
    else
      var chosen := duo1 + duo2 + trio1 + trio2;
      var twice := set x | x in chosen && multiset(chosen)[x] > 1;
      assert forall x :: multiset(chosen)[x] > 1 ==> x in twice;
      if twice != {} then Repeated(twice) else Accepted
  }

  /** Accepted groups have the right sizes, no name twice, and at most ten names in all. */
  lemma AcceptedCompanions(duo1: seq<string>, duo2: seq<string>, trio1: seq<string>, trio2: seq<string>)
    ensures CheckCompanions(duo1, duo2, trio1, trio2).Accepted? <==>
      SizesOk(duo1, duo2, trio1, trio2) && NoRepeats(duo1 + duo2 + trio1 + trio2)
    ensures CheckCompanions(duo1, duo2, trio1, trio2).Accepted? ==> |duo1 + duo2 + trio1 + trio2| <= 10
  {
    var chosen := duo1 + duo2 + trio1 + trio2;
    if SizesOk(duo1, duo2, trio1, trio2) {
      if NoRepeats(chosen) {
        forall x | x in chosen ensures multiset(chosen)[x] <= 1 {
          MultisetOfDistinct(chosen, x);
        }
      } else {
        var i, j :| 0 <= i < j < |chosen| && chosen[i] == chosen[j];
        TwiceInMultiset(chosen, i, j);
      }
    }
  }

  /** No entry occurs twice. */
  predicate NoRepeats(s: seq<string>)
  {
    forall i, j :: 0 <= i < j < |s| ==> s[i] != s[j]
  }

  lemma {:induction false} MultisetOfDistinct(s: seq<string>, x: string)
    requires NoRepeats(s)
    ensures multiset(s)[x] <= 1
  {
    if s != [] {
      var init := s[..|s| - 1];
      assert s == init + [s[|s| - 1]];
      MultisetOfDistinct(init, x);
      if s[|s| - 1] == x {
        assert x !in init;
      }
    }
  }

  lemma TwiceInMultiset(s: seq<string>, i: nat, j: nat)
    requires i < j < |s| && s[i] == s[j]
    ensures multiset(s)[s[i]] > 1
  {
    assert s == s[..i] + [s[i]] + s[i + 1..j] + [s[j]] + s[j + 1..];
  }

  // ---------------------------------------------------------------------------
  // Jerseys
  // ---------------------------------------------------------------------------

  /** `JERSEYS`. */
  const Light: string := "clara"
  const Dark: string := "oscura"

  predicate IsJersey(c: Option<string>)
  {
    c == Some(Light) || c == Some(Dark)
  }

  /** The jerseys set on a team's rows that are neither NULL nor empty. */
  function Worn(rows: seq<Option<string>>): (r: seq<string>)
    ensures forall x :: x in r <==> Some(x) in rows && x != ""
  {
    if rows == [] then []
    else
      var last := rows[|rows| - 1];
      Worn(rows[..|rows| - 1]) + (if last.Some? && last.value != "" then [last.value] else [])
  }

  /** `obtener_camiseta_equipo`: the team's jersey when every row that has one agrees, `None` otherwise. */
  function TeamJersey(rows: seq<Option<string>>): (r: Option<string>)
  {
    var worn := Worn(rows);
    if worn == [] then None
    else if forall x :: x in worn ==> x == worn[0] then Some(worn[0])
    else None
  }

  /** The team has jersey `c` exactly when some row wears `c` and no row wears anything else. */
  lemma TeamJerseyUniform(rows: seq<Option<string>>, c: string)
    ensures TeamJersey(rows) == Some(c) <==>
      c != "" && Some(c) in rows && forall i :: 0 <= i < |rows| && rows[i].Some? && rows[i].value != "" ==> rows[i].value == c
  {
    var worn := Worn(rows);
    if TeamJersey(rows) == Some(c) {
      assert worn != [] && worn[0] == c;
      forall i | 0 <= i < |rows| && rows[i].Some? && rows[i].value != "" ensures rows[i].value == c {
        assert rows[i] in rows;
        assert rows[i].value in worn;
      }
    }
    if c != "" && Some(c) in rows && forall i :: 0 <= i < |rows| && rows[i].Some? && rows[i].value != "" ==> rows[i].value == c {
      assert c in worn;
      forall x | x in worn ensures x == c {
        var i :| 0 <= i < |rows| && rows[i] == Some(x);
      }
      assert worn[0] in worn;
    }
  }

  /** What a jersey rule does to one team's rows: leave them, or set them all to one jersey. */
  datatype Assignment = Keep | SetTo(jersey: string)

  /**
   * `intercambiar_camisetas`, given the teams' current jerseys `c1` and `c2`:
   * `r.0` is what happens to team 1's rows and `r.1` to team 2's. Equal jerseys
   * (both unset included) restart from light against dark; otherwise each team
   * takes the other's jersey when that one is a known jersey and keeps its own
   * when it is not, so two known, different jerseys trade places.
   */
  function SwapJerseys(c1: Option<string>, c2: Option<string>): (r: (Assignment, Assignment))
    ensures c1 == c2 ==> r == (SetTo(Light), SetTo(Dark))
    ensures c1 == c2 ==> After(c1, r.0) == Some(Light) && After(c2, r.1) == Some(Dark)
    ensures c1 != c2 ==> After(c1, r.0) == (if IsJersey(c2) then c2 else c1)
    ensures c1 != c2 ==> After(c2, r.1) == (if IsJersey(c1) then c1 else c2)
    ensures c1 != c2 && IsJersey(c1) && IsJersey(c2) ==> After(c1, r.0) == c2 && After(c2, r.1) == c1
    ensures c1 != c2 && !IsJersey(c2) ==> r.0 == Keep
    ensures c1 != c2 && !IsJersey(c1) ==> r.1 == Keep
  {
    if (c1.None? && c2.None?) || c1 == c2 then (SetTo(Light), SetTo(Dark))
    else
      (if IsJersey(c2) then SetTo(c2.value) else Keep,
       if IsJersey(c1) then SetTo(c1.value) else Keep)
  }

  /** The jersey a team shows after an assignment. */
  function After(c: Option<string>, a: Assignment): Option<string>
  {
    if a.SetTo? then Some(a.jersey) else c
  }

  /** With two different jerseys the teams exchange them, and doing it twice restores them. */
  lemma SwapJerseysExchanges(c1: Option<string>, c2: Option<string>)
    requires IsJersey(c1) && IsJersey(c2) && c1 != c2
    ensures var r := SwapJerseys(c1, c2); After(c1, r.0) == c2 && After(c2, r.1) == c1
    ensures var r := SwapJerseys(c1, c2); var s := SwapJerseys(After(c1, r.0), After(c2, r.1));
      After(After(c1, r.0), s.0) == c1 && After(After(c2, r.1), s.1) == c2
  {
  }

  /** After the rule, the teams never show the same jersey unless one of them had none. */
  lemma SwapJerseysOutcome(c1: Option<string>, c2: Option<string>)
    ensures var r := SwapJerseys(c1, c2);
      (IsJersey(c1) || c1.None?) && (IsJersey(c2) || c2.None?) && (c1.Some? == c2.Some?) ==>
        After(c1, r.0) != After(c2, r.1)
  {
  }

  /** A team with "clara" against a team without a jersey: both end up in "clara". */
  lemma SwapJerseysOneSided()
    ensures var r := SwapJerseys(Some(Light), None); After(Some(Light), r.0) == Some(Light) && After(None, r.1) == Some(Light)
  {
  }

  /** On confirmation, a team without a jersey gets "clara" (team 1) or "oscura" (team 2). */
  function DefaultJerseys(c1: Option<string>, c2: Option<string>): (r: (Assignment, Assignment))
    ensures r.0 == (if c1.None? then SetTo(Light) else Keep)
    ensures r.1 == (if c2.None? then SetTo(Dark) else Keep)
    ensures After(c1, r.0).Some? && After(c2, r.1).Some?
  {
    (if c1.None? then SetTo(Light) else Keep, if c2.None? then SetTo(Dark) else Keep)
  }

  // ---------------------------------------------------------------------------
  // Manual swap and confirmation
  // ---------------------------------------------------------------------------

  /**
   * The manual swap of the generation panel: when a player `a` of team 1 and
   * a player `b` of team 2 are both picked, they exchange slots (the first
   * slot holding each name); "(ninguno)" on either side is `None`.
   */
  function ManualSwap(l: seq<string>, a: Option<string>, b: Option<string>): (r: seq<string>)
    requires |l| == 10
    requires a.Some? ==> a.value in l[..5]
    requires b.Some? ==> b.value in l[5..]
    ensures |r| == 10 && multiset(r) == multiset(l)
    ensures a.None? || b.None? ==> r == l
    ensures a.Some? && b.Some? ==>
      var i1, i2 := IndexOf(l[..5], a.value), 5 + IndexOf(l[5..], b.value);
      r[i1] == b.value && r[i2] == a.value && forall k :: 0 <= k < 10 && k != i1 && k != i2 ==> r[k] == l[k]
  {
    if a.None? || b.None? then l
    else
      var i1, i2 := IndexOf(l[..5], a.value), 5 + IndexOf(l[5..], b.value);
      assert l[i1] == a.value && l[i2] == b.value;
      ExchangeKeepsMultiset(l, i1, i2);
      l[i1 := l[i2]][i2 := l[i1]]
  }

  lemma ExchangeKeepsMultiset(l: seq<string>, i: nat, j: nat)
    requires i < j < |l|
    ensures multiset(l[i := l[j]][j := l[i]]) == multiset(l)
  {
    var r := l[i := l[j]][j := l[i]];
    assert r == l[..i] + [l[j]] + l[i + 1..j] + [l[i]] + l[j + 1..];
    assert l == l[..i] + [l[i]] + l[i + 1..j] + [l[j]] + l[j + 1..];
  }

  /** Swapping the same two players back restores the line-up when no name appears twice. */
  lemma ManualSwapBack(l: seq<string>, a: string, b: string)
    requires |l| == 10 && NoRepeats(l) && a in l[..5] && b in l[5..]
    ensures var r := ManualSwap(l, Some(a), Some(b));
      b in r[..5] && a in r[5..] && ManualSwap(r, Some(b), Some(a)) == l
  {
    var i1, i2 := IndexOf(l[..5], a), IndexOf(l[5..], b);
    var r := ManualSwap(l, Some(a), Some(b));
    assert r[..5][i1] == b && r[5..][i2] == a;
    assert IndexOf(r[..5], b) == i1 by {
      forall k | 0 <= k < i1 ensures r[..5][k] != b {
        assert r[k] == l[k] && l[k] != l[5 + i2];
      }
    }
    assert IndexOf(r[5..], a) == i2 by {
      forall k | 0 <= k < i2 ensures r[5..][k] != a {
        assert r[5 + k] == l[5 + k] && l[5 + k] != l[i1];
      }
    }
  }

  /** The confirmation check: five named players on each side. */
  predicate CanConfirm(l: seq<string>)
  {
    |NonBlank(Front(l))| == 5 && |NonBlank(Back(l))| == 5
  }

  /** A ten-slot line-up can be confirmed exactly when it has no empty slot. */
  lemma CanConfirmFull(l: seq<string>)
    requires |l| == 10
    ensures CanConfirm(l) <==> forall i :: 0 <= i < 10 ==> l[i] != ""
  {
    assert Front(l) == l[..5] && Back(l) == l[5..];
    FullSide(l[..5]);
    FullSide(l[5..]);
    forall i | 0 <= i < 10 ensures l[i] == (if i < 5 then l[..5][i] else l[5..][i - 5]) { }
  }

  /** A side keeps all its slots among the non-empty names exactly when none is empty. */
  lemma {:induction false} FullSide(s: seq<string>)
    ensures |NonBlank(s)| == |s| <==> forall i :: 0 <= i < |s| ==> s[i] != ""
  {
    if s != [] {
      var init := s[..|s| - 1];
      FullSide(init);
      assert forall i :: 0 <= i < |init| ==> init[i] == s[i];
    }
  }
}
