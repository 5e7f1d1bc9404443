/**
 * equipos.py, the ten-slot line-up: slots 0-4 are team 1 and slots 5-9 team 2,
 * `""` marks an empty slot (`lista_nombres_10`), and a line-up's signature is
 * the pair of name sets of its two sides (`equipos_set_key`).
 */
module Lineup {
  import opened Blocks

  /** `[n for n in names if n]`: the non-empty names, in order. */
  function NonBlank(names: seq<string>): (r: seq<string>)
    ensures |r| <= |names|
    ensures forall x :: x in r <==> x in names && x != ""
    ensures forall i :: 0 <= i < |r| ==> r[i] != ""
  {
    if names == [] then []
    else if names[|names| - 1] == "" then NonBlank(names[..|names| - 1])
    else NonBlank(names[..|names| - 1]) + [names[|names| - 1]]
  }

  /** `lista[:5]` and `lista[5:]` (Python slices clamp at the length). */
  function Front(l: seq<string>): seq<string>
  {
    if |l| <= 5 then l else l[..5]
  }

  function Back(l: seq<string>): seq<string>
  {
    if |l| <= 5 then [] else l[5..]
  }

  /** `names + [""] * (5 - len(names))`: pad with empty slots up to five. */
  function PadTo5(names: seq<string>): (r: seq<string>)
    ensures |r| == if |names| >= 5 then |names| else 5
    ensures r[..|names|] == names && forall i :: |names| <= i < |r| ==> r[i] == ""
    decreases 5 - |names|
  {
    if |names| >= 5 then names else PadTo5(names + [""])
  }

  /** `lista_nombres_10`: the first five names of each team, each side padded to five slots. */
  function Names10(e1: seq<Player>, e2: seq<Player>): (r: seq<string>)
    ensures |r| == 10
    ensures forall i :: 0 <= i < 5 ==>
      r[i] == (if i < |e1| then e1[i].name else "") &&
      r[5 + i] == (if i < |e2| then e2[i].name else "")
  {
    var n1 := Names(e1);
    var n2 := Names(e2);
    PadTo5(if |n1| <= 5 then n1 else n1[..5]) + PadTo5(if |n2| <= 5 then n2 else n2[..5])
  }

  /** The signature of a line-up: the sets of non-empty names on each side. */
  datatype Signature = Signature(team1: set<string>, team2: set<string>)

  /** `equipos_set_key`. */
  function SetKey(l: seq<string>): (k: Signature)
    ensures forall x :: x in k.team1 <==> x != "" && x in Front(l)
    ensures forall x :: x in k.team2 <==> x != "" && x in Back(l)
  {
    Signature((set x | x in NonBlank(Front(l))), (set x | x in NonBlank(Back(l))))
  }

  /** The signature ignores empty slots and the order within each side. */
  lemma SetKeyIgnoresOrder(l: seq<string>, m: seq<string>)
    requires |l| == 10 && |m| == 10
    requires multiset(NonBlank(l[..5])) == multiset(NonBlank(m[..5]))
    requires multiset(NonBlank(l[5..])) == multiset(NonBlank(m[5..]))
    ensures SetKey(l) == SetKey(m)
  {
    assert Front(l) == l[..5] && Front(m) == m[..5];
    assert Back(l) == l[5..] && Back(m) == m[5..];
    SameNames(l[..5], m[..5]);
    SameNames(l[5..], m[5..]);
  }

  /** Two sides with the same non-empty names, counted, hold the same set of names. */
  lemma SameNames(a: seq<string>, b: seq<string>)
    requires multiset(NonBlank(a)) == multiset(NonBlank(b))
    ensures forall x :: x != "" && x in a <==> x != "" && x in b
  {
    forall x ensures x != "" && x in a <==> x != "" && x in b {
      assert x in NonBlank(a) <==> x in multiset(NonBlank(a));
      assert x in NonBlank(b) <==> x in multiset(NonBlank(b));
    }
  }

  /** The signature of `lista_nombres_10(e1, e2)`: the names among the first five players of each team. */
  lemma SetKeyOfNames10(e1: seq<Player>, e2: seq<Player>)
    ensures forall x :: x in SetKey(Names10(e1, e2)).team1 <==>
      x != "" && exists i :: 0 <= i < |e1| && i < 5 && e1[i].name == x
    ensures forall x :: x in SetKey(Names10(e1, e2)).team2 <==>
      x != "" && exists i :: 0 <= i < |e2| && i < 5 && e2[i].name == x
  {
    var r := Names10(e1, e2);
    assert Front(r) == r[..5] && Back(r) == r[5..];
    forall x ensures x in SetKey(r).team1 <==> x != "" && exists i :: 0 <= i < |e1| && i < 5 && e1[i].name == x {
      SideHoldsFirstFive(r[..5], e1, x);
    }
    forall x ensures x in SetKey(r).team2 <==> x != "" && exists i :: 0 <= i < |e2| && i < 5 && e2[i].name == x {
      SideHoldsFirstFive(r[5..], e2, x);
    }
  }

  /** A side of five slots filled from a team holds exactly the names of its first five players. */
  lemma SideHoldsFirstFive(side: seq<string>, e: seq<Player>, x: string)
    requires |side| == 5
    requires forall i :: 0 <= i < 5 ==> side[i] == (if i < |e| then e[i].name else "")
    ensures x != "" && x in side <==> x != "" && exists i :: 0 <= i < |e| && i < 5 && e[i].name == x
  {
    if x != "" && x in side {
      var i :| 0 <= i < 5 && side[i] == x;
      assert i < |e| && e[i].name == x;
    }
    if x != "" && exists i :: 0 <= i < |e| && i < 5 && e[i].name == x {
      var i :| 0 <= i < |e| && i < 5 && e[i].name == x;
      assert side[i] == x;
    }
  }
}
