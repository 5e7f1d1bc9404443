/**
 * historial.py, the match history page: how a stored jersey, a team number,
 * the winner column and the official flag are rendered as text.
 */
module Historial {
  import opened Wrappers
  import opened Text
  import EquiposHelpers

  const Shirt: string := "\U{1F455}"
  const WhiteCircle: string := "\U{26AA}"
  const BlackSquare: string := "\U{2B1B}"

  /** `_camiseta_emoji`: a circle for a light jersey, a square for a dark one, a shirt otherwise. */
  function JerseyEmoji(c: Option<string>): (r: string)
    ensures r == WhiteCircle <==> c.Some? && c.value != "" && "clara" <= Normalize(c.value)
    ensures r == BlackSquare <==> c.Some? && c.value != "" && !("clara" <= Normalize(c.value)) && "osc" <= Normalize(c.value)
    ensures r == WhiteCircle || r == BlackSquare || r == Shirt
  {
    if c.None? || c.value == "" then Shirt
    else
      var n := Normalize(c.value);
      if "clara" <= n then WhiteCircle
      else if "osc" <= n then BlackSquare
      else Shirt
  }

  /** The two jerseys the application stores are shown as the circle and the square. */
  lemma JerseyEmojiOfStored()
    ensures JerseyEmoji(Some(EquiposHelpers.Light)) == WhiteCircle
    ensures JerseyEmoji(Some(EquiposHelpers.Dark)) == BlackSquare
  {
    StoredJerseysNormal();
    assert "clara" <= EquiposHelpers.Light;
    assert !("clara" <= EquiposHelpers.Dark) && "osc" <= EquiposHelpers.Dark;
  }

  lemma StoredJerseysNormal()
    ensures Normalize(EquiposHelpers.Light) == EquiposHelpers.Light
    ensures Normalize(EquiposHelpers.Dark) == EquiposHelpers.Dark
  {
    NormalizeFixed(EquiposHelpers.Light);
    NormalizeFixed(EquiposHelpers.Dark);
  }

  /** Spacing and capitals in the stored jersey do not change its emoji. */
  lemma JerseyEmojiNormalized(s: string)
    ensures JerseyEmoji(Some(s)) == JerseyEmoji(Some(Normalize(s)))
  {
    var n := Normalize(s);
    NormalizeIdempotent(s);
    if s == [] {
      assert Strip(s) == [];
      assert n == [];
    } else if n == [] {
      assert !("clara" <= n) && !("osc" <= n);
    } else {
      assert Normalize(n) == n;
    }
  }

  /** `_equipo_label`. */
  function TeamLabel(n: int): (r: string)
    ensures r == "Equipo 1" <==> n == 1
    ensures r == "Equipo 1" || r == "Equipo 2"
  {
    if n == 1 then "Equipo 1" else "Equipo 2"
  }

  /** `_ganador_texto_simple` on the integer column `partidos.ganador` (`None` for NULL). */
  function WinnerText(g: Option<int>): (r: string)
    ensures r == "\U{2014}" <==> g.None?
    ensures g == Some(1) ==> r == "Gan\U{F3} Equipo 1"
    ensures g == Some(2) ==> r == "Gan\U{F3} Equipo 2"
    ensures g == Some(0) ==> r == "Empate"
    ensures g.Some? && g.value !in {0, 1, 2} ==> r == IntToString(g.value) && ParseInt(r) == g.value
  {
    match g
    case None => "\U{2014}"
    case Some(x) =>
      if x == 1 then "Gan\U{F3} Equipo 1"
      else if x == 2 then "Gan\U{F3} Equipo 2"
      else if x == 0 then "Empate"
      else
        ParseIntToString(x);
        NumeralShape(x);
        IntToString(x)
  }

  /** `str(x)` starts with a minus sign or a digit. */
  lemma NumeralShape(x: int)
    ensures IntToString(x) != [] && (IntToString(x)[0] == '-' || '0' <= IntToString(x)[0] <= '9')
  {
  }

  /** Different winner values are shown differently. */
  lemma WinnerTextInjective(a: Option<int>, b: Option<int>)
    requires WinnerText(a) == WinnerText(b)
    ensures a == b
  {
    if a.Some? && b.Some? {
      var x, y := a.value, b.value;
      NumeralShape(x);
      NumeralShape(y);
      if x !in {0, 1, 2} && y !in {0, 1, 2} {
        assert ParseInt(WinnerText(a)) == x;
      }
    }
  }

  /** Python truthiness of the integer column `partidos.es_oficial`. */
  predicate Truthy(v: Option<int>)
  {
    v.Some? && v.value != 0
  }

  /** `_oficial_texto`. */
  function OfficialText(v: Option<int>): (r: string)
    ensures r == "Oficial" <==> Truthy(v)
    ensures r == "Oficial" || r == "Amistoso"
  {
    if Truthy(v) then "Oficial" else "Amistoso"
  }

  /** `_oficial_color`. */
  function OfficialColor(v: Option<int>): (r: string)
    ensures r == "#2563eb" <==> Truthy(v)
    ensures r == "#2563eb" || r == "#64748b"
  {
    if Truthy(v) then "#2563eb" else "#64748b"
  }

  /** The badge's text and colour always tell the same story. */
  lemma BadgeAgrees(v: Option<int>)
    ensures OfficialText(v) == "Oficial" <==> OfficialColor(v) == "#2563eb"
  {
  }
}
