/**
 * jugador_panel.py, the player's panel: confirming and cancelling attendance
 * in the `partido_jugadores` table (held here in memory), the list of matches
 * a player can sign up for, and the win/draw/loss tally of a player's matches.
 */
module JugadorPanel {
  import opened Wrappers
  import opened Sorting

  // ---------------------------------------------------------------------------
  // Enrollment
  // ---------------------------------------------------------------------------

  /** A row of `partido_jugadores` (the columns the panel reads or writes). */
  datatype Enrollment = Enrollment(matchId: int, playerId: int, team: Option<int>, jersey: Option<string>, confirmed: Option<int>)

  /** The row `_insertar_confirmacion` adds: confirmed by the player, light jersey, no team yet. */
  function Confirmation(m: int, p: int): Enrollment
  {
    Enrollment(m, p, None, Some("clara"), Some(1))
  }

  predicate Matches(e: Enrollment, m: int, p: int)
  {
    e.matchId == m && e.playerId == p
  }

  /** Some row belongs to player `p` in match `m`. */
  predicate HasPair(rows: seq<Enrollment>, m: int, p: int)
  {
    exists i :: 0 <= i < |rows| && Matches(rows[i], m, p)
  }

  /** `DELETE ... WHERE partido_id = m AND jugador_id = p`: the other rows, in order. */
  function Without(rows: seq<Enrollment>, m: int, p: int): (r: seq<Enrollment>)
    ensures |r| <= |rows|
  {
    if rows == [] then []
    else
      var init, last := rows[..|rows| - 1], rows[|rows| - 1];
      Without(init, m, p) + (if Matches(last, m, p) then [] else [last])
  }

  /** The delete removes every row of the pair and keeps every other row as often as it was there. */
  lemma {:induction false} WithoutSpec(rows: seq<Enrollment>, m: int, p: int)
    ensures !HasPair(Without(rows, m, p), m, p)
    ensures forall e :: multiset(Without(rows, m, p))[e] == if Matches(e, m, p) then 0 else multiset(rows)[e]
  {
    if rows != [] {
      var init, last := rows[..|rows| - 1], rows[|rows| - 1];
      assert rows == init + [last];
      WithoutSpec(init, m, p);
      var w, r := Without(init, m, p), Without(rows, m, p);
      var tail := if Matches(last, m, p) then [] else [last];
      assert r == w + tail;
      forall i | 0 <= i < |r|
        ensures !Matches(r[i], m, p)
      {
        if i >= |w| {
          assert r[i] == last;
        } else {
          assert r[i] == w[i];
        }
      }
    }
  }

  /** Deleting a pair that has no rows leaves the table as it was. */
  lemma {:induction false} WithoutAbsent(rows: seq<Enrollment>, m: int, p: int)
    requires !HasPair(rows, m, p)
    ensures Without(rows, m, p) == rows
  {
    if rows != [] {
      var init, last := rows[..|rows| - 1], rows[|rows| - 1];
      assert !HasPair(init, m, p) by {
        forall i | 0 <= i < |init|
          ensures !Matches(init[i], m, p)
        {
          assert init[i] == rows[i];
        }
      }
      WithoutAbsent(init, m, p);
      assert rows == init + [last];
    }
  }

  /** Cancelling right after confirming gives back the table before the confirmation. */
  lemma CancelUndoesConfirm(rows: seq<Enrollment>, m: int, p: int)
    requires !HasPair(rows, m, p)
    ensures Without(rows + [Confirmation(m, p)], m, p) == rows
  {
    var extended := rows + [Confirmation(m, p)];
    assert extended[..|extended| - 1] == rows;
    WithoutAbsent(rows, m, p);
  }

  /** The enrollment table. */
  class EnrollmentTable {
    var rows: seq<Enrollment>

    constructor (initial: seq<Enrollment>)
      ensures rows == initial
    {
      rows := initial;
    }

    /** `_existe_inscripcion`: scan for a row of the pair, stopping at the first. */
    method Exists(m: int, p: int) returns (found: bool)
      ensures found <==> HasPair(rows, m, p)
    {
      var i := 0;
      found := false;
      while i < |rows| && !found
        invariant 0 <= i <= |rows|
        invariant found ==> HasPair(rows, m, p)
        invariant !found ==> forall j :: 0 <= j < i ==> !Matches(rows[j], m, p)
      {
        found := Matches(rows[i], m, p);
        i := i + 1;
      }
    }

    /** `_insertar_confirmacion`: refuse a player already in the match, otherwise add one confirmed row. */
    method Confirm(m: int, p: int) returns (ok: bool, message: string)
      modifies this
      ensures ok <==> !old(HasPair(rows, m, p))
      ensures ok ==> rows == old(rows) + [Confirmation(m, p)]
      ensures !ok ==> rows == old(rows)
      ensures message == if ok then "Confirmaste tu asistencia \U{1F7E2}" else "Ya estabas inscripto en este partido."
    {
      var present := Exists(m, p);
      if present {
        return false, "Ya estabas inscripto en este partido.";
      }
      rows := rows + [Confirmation(m, p)];
      return true, "Confirmaste tu asistencia \U{1F7E2}";
    }

    /** `_cancelar_confirmacion`: refuse a player not in the match, otherwise delete the pair's rows. */
    method Cancel(m: int, p: int) returns (ok: bool, message: string)
      modifies this
      ensures ok <==> old(HasPair(rows, m, p))
      ensures rows == Without(old(rows), m, p)
      ensures message == if ok then "Cancelaste tu asistencia." else "No estabas inscripto en este partido."
    {
      var present := Exists(m, p);
      if !present {
        WithoutAbsent(rows, m, p);
        return false, "No estabas inscripto en este partido.";
      }
      rows := Without(rows, m, p);
      return true, "Cancelaste tu asistencia.";
    }
  }

  // ---------------------------------------------------------------------------
  // Matches open for sign-up
  // ---------------------------------------------------------------------------

  /**
   * A row of `partidos`. `date` stands for the ISO `YYYY-MM-DD` text, whose
   * string order is the order of the number `YYYYMMDD`.
   */
  datatype Match = Match(id: int, date: int, kind: string)

  function ByDateThenId(m: Match): Rank
  {
    Rank(m.date, m.id)
  }

  predicate OpenFrom(m: Match, today: int)
  {
    m.kind == "abierto" && m.date >= today
  }

  /** The elements satisfying `f`, in order. */
  function Filter(s: seq<Match>, f: Match -> bool): (r: seq<Match>)
    ensures forall x :: multiset(r)[x] == if f(x) then multiset(s)[x] else 0
  {
    if s == [] then []
    else
      var init, last := s[..|s| - 1], s[|s| - 1];
      assert s == init + [last];
      Filter(init, f) + (if f(last) then [last] else [])
  }

  /** `_partidos_abiertos_o_futuros`: the open matches from today on, or failing those every match from today on. */
  function Upcoming(ms: seq<Match>, today: int): seq<Match>
  {
    var open := Filter(ms, (m: Match) => OpenFrom(m, today));
    if open != [] then SortBy(open, ByDateThenId)
    else SortBy(Filter(ms, (m: Match) => m.date >= today), ByDateThenId)
  }

  /**
   * The list is ordered by (date, id), holds every open match from today on
   * when there is one, and otherwise every match from today on, each as many
   * times as in the table.
   */
  lemma UpcomingSpec(ms: seq<Match>, today: int)
    ensures SortedBy(Upcoming(ms, today), ByDateThenId)
    ensures (exists m :: m in ms && OpenFrom(m, today)) ==>
      forall m :: multiset(Upcoming(ms, today))[m] == if OpenFrom(m, today) then multiset(ms)[m] else 0
    ensures !(exists m :: m in ms && OpenFrom(m, today)) ==>
      forall m :: multiset(Upcoming(ms, today))[m] == if m.date >= today then multiset(ms)[m] else 0
  {
    var open := Filter(ms, (m: Match) => OpenFrom(m, today));
    var future := Filter(ms, (m: Match) => m.date >= today);
    if exists m :: m in ms && OpenFrom(m, today) {
      var m :| m in ms && OpenFrom(m, today);
      assert multiset(open)[m] > 0;
      SortedSelection(open);
    } else {
      SortedSelection(future);
    }
  }

  /** Sorting by (date, id) orders a selection and keeps its elements. */
  lemma SortedSelection(sel: seq<Match>)
    ensures SortedBy(SortBy(sel, ByDateThenId), ByDateThenId)
    ensures multiset(SortBy(sel, ByDateThenId)) == multiset(sel)
  {
    SortSorts(sel, ByDateThenId);
    SortPermutes(sel, ByDateThenId);
  }

  // ---------------------------------------------------------------------------
  // Win/draw/loss tally
  // ---------------------------------------------------------------------------

  /** One of the player's matches: `partidos.ganador` and the player's `equipo`, `None` for NULL or no row. */
  datatype Played = Played(winner: Option<int>, team: Option<int>)

  datatype Result = Win | Draw | Loss

  /** How a match counts: not at all while pending or without a team 1 or 2, a draw on 0, a win when the player's team won. */
  function Outcome(r: Played): Option<Result>
  {
    if r.winner.None? then None
    else if r.team != Some(1) && r.team != Some(2) then None
    else if r.winner.value == 0 then Some(Draw)
    else if r.winner == r.team then Some(Win)
    else Some(Loss)
  }

  function CountOf(rows: seq<Played>, res: Result): (n: nat)
    ensures n <= |rows|
  {
    if rows == [] then 0
    else CountOf(rows[..|rows| - 1], res) + (if Outcome(rows[|rows| - 1]) == Some(res) then 1 else 0)
  }

  /** The matches that count at all. */
  function Decided(rows: seq<Played>): (n: nat)
    ensures n <= |rows|
  {
    if rows == [] then 0
    else Decided(rows[..|rows| - 1]) + (if Outcome(rows[|rows| - 1]).Some? then 1 else 0)
  }

  /** The tally loop of `_stats_por_sql`. */
  method Tally(rows: seq<Played>) returns (played: nat, w: nat, d: nat, l: nat)
    ensures played == |rows|
    ensures w == CountOf(rows, Win) && d == CountOf(rows, Draw) && l == CountOf(rows, Loss)
    ensures w + d + l <= played
  {
    played := |rows|;
    w, d, l := 0, 0, 0;
    for i := 0 to |rows|
      invariant w == CountOf(rows[..i], Win) && d == CountOf(rows[..i], Draw) && l == CountOf(rows[..i], Loss)
    {
      assert rows[..i + 1][..i] == rows[..i];
      var r := rows[i];
      if r.winner.None? {
        continue;
      }
      var team := if r.team == Some(1) || r.team == Some(2) then r.team else None;
      if team.None? {
        continue;
      }
      if r.winner.value == 0 {
        d := d + 1;
      } else if r.winner == team {
        w := w + 1;
      } else {
        l := l + 1;
      }
    }
    assert rows[..|rows|] == rows;
    TallySplits(rows);
  }

  /** Wins, draws and losses split the decided matches. */
  lemma {:induction false} TallySplits(rows: seq<Played>)
    ensures CountOf(rows, Win) + CountOf(rows, Draw) + CountOf(rows, Loss) == Decided(rows)
  {
    if rows != [] {
      TallySplits(rows[..|rows| - 1]);
    }
  }
}
