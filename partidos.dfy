/**
 * partidos.py, the pure helpers of match administration: times stored as
 * HHMM integers, the colour of a match in the calendar, and the ten-player
 * quota when adding players to a match.
 */
module Partidos {
  import opened Wrappers
  import opened Text
  import opened EquiposHelpers

  /** A `datetime.time` reduced to hour and minute. */
  datatype Time = Time(hour: nat, minute: nat)

  predicate ValidTime(t: Time)
  {
    t.hour <= 23 && t.minute <= 59
  }

  const Seven: Time := Time(19, 0)

  /** `time_int_from_time`: 19:00 is stored as 1900. */
  function TimeToInt(t: Time): (x: nat)
    ensures ValidTime(t) ==> x <= 2359 && x / 100 == t.hour && x % 100 == t.minute
  {
    t.hour * 100 + t.minute
  }

  /**
   * `time_from_int_str`: `None` and integers that are not an HHMM time read as
   * 19:00. Python's `//` and `%` by 100 agree with Dafny's for every integer.
   */
  function TimeFromInt(x: Option<int>): (t: Time)
    ensures ValidTime(t)
    ensures x.Some? && 0 <= x.value / 100 <= 23 && x.value % 100 <= 59 ==> t == Time(x.value / 100, x.value % 100)
    ensures x.None? || !(0 <= x.value / 100 <= 23 && x.value % 100 <= 59) ==> t == Seven
  {
    if x.None? then Seven
    else
      var hh, mm := x.value / 100, x.value % 100;
      if 0 <= hh <= 23 && mm <= 59 then Time(hh, mm) else Seven
  }

  /** Storing a valid time and reading it back gives the same time. */
  lemma TimeRoundTrip(t: Time)
    requires ValidTime(t)
    ensures TimeFromInt(Some(TimeToInt(t))) == t
  {
  }

  /** An integer reads as a time other than the default only if it is that time's HHMM encoding. */
  lemma TimeFromIntEncodes(x: int)
    ensures 0 <= x / 100 <= 23 && x % 100 <= 59 <==> 0 <= x && TimeToInt(TimeFromInt(Some(x))) == x
  {
  }

  /** `time_label`: "Sin hora" for `None`, otherwise `f"{x // 100:02d}:{x % 100:02d}"`, valid or not. */
  function TimeLabel(x: Option<int>): (r: string)
    ensures x.None? ==> r == "Sin hora"
    ensures x.Some? ==> ':' in r && r != "Sin hora"
    ensures x.Some? ==> r == Pad2(x.value / 100) + ":" + Pad2(x.value % 100)
  {
    if x.None? then "Sin hora"
    else
      var r := Pad2(x.value / 100) + ":" + Pad2(x.value % 100);
      assert r[|Pad2(x.value / 100)|] == ':';
      assert forall k :: 0 <= k < |"Sin hora"| ==> "Sin hora"[k] != ':';
      r
  }

  /**
   * Every stored integer, valid time or not, labels as two fields around a
   * colon that read back as `x // 100` and `x % 100`; the minute field always
   * has exactly two digits.
   */
  lemma TimeLabelReadsBack(x: int)
    ensures var r := TimeLabel(Some(x));
      |r| >= 5 && r[|r| - 3] == ':' &&
      ParseInt(r[..|r| - 3]) == x / 100 && ParseInt(r[|r| - 2..]) == x % 100
  {
    var h, m := Pad2(x / 100), Pad2(x % 100);
    Pad2ReadsBack(x / 100);
    Pad2ReadsBack(x % 100);
    Pad2TwoDigits(x % 100);
    ReadsBackAtColon(TimeLabel(Some(x)), h, m, x / 100, x % 100);
  }

  /** A text `h + ":" + m` with a two-character `m` splits back into the numbers `h` and `m` read as. */
  lemma ReadsBackAtColon(r: string, h: string, m: string, a: int, b: int)
    requires r == h + ":" + m && |m| == 2 && |h| >= 2
    requires ParseInt(h) == a && ParseInt(m) == b
    ensures |r| >= 5 && r[|r| - 3] == ':' && ParseInt(r[..|r| - 3]) == a && ParseInt(r[|r| - 2..]) == b
  {
    assert r[..|r| - 3] == h;
    assert r[|r| - 2..] == m;
  }

  /** The label of a stored valid time is its `"HH:MM"` text. */
  lemma TimeLabelOfTime(t: Time)
    requires ValidTime(t)
    ensures TimeLabel(Some(TimeToInt(t))) == Pad2(t.hour) + ":" + Pad2(t.minute)
    ensures |TimeLabel(Some(TimeToInt(t)))| == 5
  {
    Pad2TwoDigits(t.hour);
    Pad2TwoDigits(t.minute);
  }

  /** The label and `formatear_hora` agree on stored times from 01:00 on. */
  lemma LabelAgreesWithFormatHour(t: Time)
    requires ValidTime(t) && 1 <= t.hour
    ensures TimeLabel(Some(TimeToInt(t))) == FormatHour(Some(TimeToInt(t)))
  {
    TimeLabelOfTime(t);
    FormatHourOfTime(t);
  }

  lemma FormatHourOfTime(t: Time)
    requires ValidTime(t) && 1 <= t.hour
    ensures FormatHour(Some(TimeToInt(t))) == Pad2(t.hour) + ":" + Pad2(t.minute)
  {
    StoredAsHundreds(t);
    FormatHourOfStoredTime(TimeToInt(t), t.hour, t.minute);
  }

  lemma StoredAsHundreds(t: Time)
    ensures TimeToInt(t) == 100 * t.hour + t.minute
  {
  }

  /** Below 100 they differ: 19 is "00:19" for the label and "19:00" for `formatear_hora`. */
  lemma LabelDiffersBelowOneHundred()
    ensures TimeLabel(Some(19)) == "00:19" && FormatHour(Some(19)) == "19:00"
  {
    Pad2TwoDigits(0);
    Pad2TwoDigits(19);
    FormatHourFields(19);
  }

  // ---------------------------------------------------------------------------
  // Calendar colours
  // ---------------------------------------------------------------------------

  /** `COLORES`. */
  const Palette: seq<string> := ["#1e293b", "#3b0764", "#164e63", "#4a044e", "#0b3a3d", "#2b2c58", "#3c1c4f", "#052e2e"]

  /** `color_por_partido`: the palette entry at `pid mod 8` (Python's `%` is never negative here). */
  function ColorFor(pid: int): (c: string)
    ensures c in Palette && c == Palette[pid % |Palette|]
  {
    Palette[pid % |Palette|]
  }

  /** Colours repeat every eight ids, and eight consecutive ids get eight different colours. */
  lemma ColorCycle(pid: int)
    ensures ColorFor(pid + 8) == ColorFor(pid)
    ensures forall p, q :: pid <= p < q < pid + 8 ==> ColorFor(p) != ColorFor(q)
  {
    assert (pid + 8) % 8 == pid % 8;
    forall p, q | pid <= p < q < pid + 8 ensures ColorFor(p) != ColorFor(q) {
      CloseResidues(p, q);
      PaletteDistinct(p % 8, q % 8);
    }
  }

  /** Two integers less than eight apart have different residues mod 8. */
  lemma CloseResidues(p: int, q: int)
    requires p < q < p + 8
    ensures p % 8 != q % 8
  {
    assert q == p + (q - p);
  }

  lemma PaletteDistinct(a: nat, b: nat)
    requires a < 8 && b < 8 && a != b
    ensures Palette[a] != Palette[b]
  {
    assert Palette[a][1] != Palette[b][1] || Palette[a][2] != Palette[b][2];
  }

  // ---------------------------------------------------------------------------
  // The ten-player quota
  // ---------------------------------------------------------------------------

  const Quota := 10

  /** `cupo_restante = max(0, 10 - total_actual)`. */
  function RemainingQuota(total: nat): (r: nat)
    ensures total + r >= Quota && (r == 0 || total + r == Quota)
    ensures r == 0 <==> total >= Quota
  {
    if Quota - total > 0 then Quota - total else 0
  }

  /** `seleccionados[:cupo_restante]` when more names are picked than fit. */
  function TrimSelection(selected: seq<string>, room: nat): (r: seq<string>)
    ensures |r| <= room && |r| <= |selected|
    ensures r == selected[..|r|]
    ensures |selected| <= room ==> r == selected
  {
    if |selected| > room then selected[..room] else selected
  }

  /** Adding the trimmed selection never takes a match past ten players, nor adds any to a full one. */
  lemma QuotaRespected(total: nat, selected: seq<string>)
    ensures total + |TrimSelection(selected, RemainingQuota(total))| <= if total >= Quota then total else Quota
  {
  }
}
