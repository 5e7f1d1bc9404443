/**
 * equipos.py, `evaluar_asignacion`: walk the blocks in a given order and put
 * each one whole into team 1 or team 2, respecting a capacity of five players
 * and favouring the team with the lower rating sum.
 */
module Assignment {
  import opened Blocks

  const Capacity := 5

  /** Two teams in the making: players, rating sums, and the side each visited block went to (`true` is team 1). */
  datatype Teams = Teams(e1: seq<Player>, e2: seq<Player>, s1: int, s2: int, sides: seq<bool>)

  /** An order lists indices of blocks (Python's `bloques[idx]`). */
  predicate ValidOrder(blocks: seq<Block>, order: seq<nat>)
  {
    forall i :: 0 <= i < |order| ==> order[i] < |blocks|
  }

  /** The blocks an order visits, in that order. */
  function Visit(blocks: seq<Block>, order: seq<nat>): (r: seq<Block>)
    requires ValidOrder(blocks, order)
    ensures |r| == |order| && forall i :: 0 <= i < |order| ==> r[i] == blocks[order[i]]
  {
    if order == [] then [] else Visit(blocks, order[..|order| - 1]) + [blocks[order[|order| - 1]]]
  }

  /** The rule for one block: team 1 if it fits there and team 1 is not ahead, or if it does not fit in team 2. */
  predicate GoesToTeam1(t: Teams, size: nat)
  {
    |t.e1| + size <= Capacity && (t.s1 <= t.s2 || |t.e2| + size > Capacity)
  }

  function Place(t: Teams, b: Block): Teams
  {
    if GoesToTeam1(t, |b|) then Teams(t.e1 + b, t.e2, t.s1 + Rating(b), t.s2, t.sides + [true])
    else Teams(t.e1, t.e2 + b, t.s1, t.s2 + Rating(b), t.sides + [false])
  }

  /** The teams after visiting the blocks of `order` one by one. */
  function Greedy(blocks: seq<Block>, order: seq<nat>): Teams
    requires ValidOrder(blocks, order)
  {
    if order == [] then Teams([], [], 0, 0, [])
    else Place(Greedy(blocks, order[..|order| - 1]), blocks[order[|order| - 1]])
  }

  /** The score of an assignment: `abs(s1 - s2)`. */
  function Gap(blocks: seq<Block>, order: seq<nat>): nat
    requires ValidOrder(blocks, order)
  {
    var t := Greedy(blocks, order);
    if t.s1 >= t.s2 then t.s1 - t.s2 else t.s2 - t.s1
  }

  /** The blocks of `bs` whose side is `side`, in order. */
  function Chosen(bs: seq<Block>, sides: seq<bool>, side: bool): seq<Block>
    requires |bs| == |sides|
  {
    if bs == [] then []
    else
      var rest := Chosen(bs[..|bs| - 1], sides[..|bs| - 1], side);
      if sides[|bs| - 1] == side then rest + [bs[|bs| - 1]] else rest
  }

  /** `evaluar_asignacion`: the loop over `orden_indices` updating `e1, e2, s1, s2, n1, n2`. */
  method Assign(blocks: seq<Block>, order: seq<nat>) returns (e1: seq<Player>, e2: seq<Player>, s1: int, s2: int)
    requires ValidOrder(blocks, order)
    ensures var t := Greedy(blocks, order); e1 == t.e1 && e2 == t.e2 && s1 == t.s1 && s2 == t.s2
    ensures s1 == Rating(e1) && s2 == Rating(e2)
    ensures |e1| <= Capacity
    ensures multiset(e1 + e2) == multiset(Flatten(Visit(blocks, order)))
  {
    e1, e2 := [], [];
    s1, s2 := 0, 0;
    var n1, n2 := 0, 0;
    ghost var sides: seq<bool> := [];
    for i := 0 to |order|
      invariant Greedy(blocks, order[..i]) == Teams(e1, e2, s1, s2, sides)
      invariant n1 == |e1| && n2 == |e2|
    {
      assert order[..i + 1][..i] == order[..i];
      var b := blocks[order[i]];
      var size := |b|;
      var elo := Rating(b);
      if n1 + size <= Capacity && (s1 <= s2 || n2 + size > Capacity) {
        e1 := e1 + b; s1 := s1 + elo; n1 := n1 + size;
        sides := sides + [true];
      } else {
        e2 := e2 + b; s2 := s2 + elo; n2 := n2 + size;
        sides := sides + [false];
      }
    }
    assert order[..|order|] == order;
    GreedySums(blocks, order);
    GreedyTeam1Capacity(blocks, order);
    GreedyKeepsPlayers(blocks, order);
  }

  // ---------------------------------------------------------------------------
  // Properties of the greedy rule
  // ---------------------------------------------------------------------------

  /** `s1`/`s2` are the rating sums of the teams, and one side is recorded per visited block. */
  lemma {:induction false} GreedySums(blocks: seq<Block>, order: seq<nat>)
    requires ValidOrder(blocks, order)
    ensures var t := Greedy(blocks, order); t.s1 == Rating(t.e1) && t.s2 == Rating(t.e2) && |t.sides| == |order|
  {
    if order != [] {
      var init := order[..|order| - 1];
      GreedySums(blocks, init);
      var t := Greedy(blocks, init);
      var b := blocks[order[|order| - 1]];
      RatingConcat(t.e1, b);
      RatingConcat(t.e2, b);
    }
  }

  /** Team 1 never has more than five players. */
  lemma {:induction false} GreedyTeam1Capacity(blocks: seq<Block>, order: seq<nat>)
    requires ValidOrder(blocks, order)
    ensures |Greedy(blocks, order).e1| <= Capacity
  {
    if order != [] {
      GreedyTeam1Capacity(blocks, order[..|order| - 1]);
    }
  }

  /** Every player of the visited blocks ends up in exactly one of the teams. */
  lemma {:induction false} GreedyKeepsPlayers(blocks: seq<Block>, order: seq<nat>)
    requires ValidOrder(blocks, order)
    ensures var t := Greedy(blocks, order); multiset(t.e1 + t.e2) == multiset(Flatten(Visit(blocks, order)))
  {
    if order != [] {
      var init := order[..|order| - 1];
      GreedyKeepsPlayers(blocks, init);
      var vs := Visit(blocks, order);
      assert vs[..|vs| - 1] == Visit(blocks, init);
    }
  }

  /**
   * Blocks are never split: team 1 is the concatenation of the visited
   * blocks whose side is team 1, and team 2 that of the others.
   */
  lemma {:induction false} GreedyWholeBlocks(blocks: seq<Block>, order: seq<nat>)
    requires ValidOrder(blocks, order)
    ensures var t := Greedy(blocks, order);
      |t.sides| == |order| &&
      t.e1 == Flatten(Chosen(Visit(blocks, order), t.sides, true)) &&
      t.e2 == Flatten(Chosen(Visit(blocks, order), t.sides, false))
  {
    GreedySums(blocks, order);
    if order != [] {
      var init := order[..|order| - 1];
      GreedyWholeBlocks(blocks, init);
      GreedySums(blocks, init);
      var t0 := Greedy(blocks, init);
      var t := Greedy(blocks, order);
      var vs := Visit(blocks, order);
      assert vs[..|vs| - 1] == Visit(blocks, init);
      assert t.sides[..|order| - 1] == t0.sides;
      var b := blocks[order[|order| - 1]];
      if t.sides[|order| - 1] {
        assert Chosen(vs, t.sides, true) == Chosen(Visit(blocks, init), t0.sides, true) + [b];
        assert Chosen(vs, t.sides, true)[..|Chosen(vs, t.sides, true)| - 1] == Chosen(Visit(blocks, init), t0.sides, true);
        assert Chosen(vs, t.sides, false) == Chosen(Visit(blocks, init), t0.sides, false);
      } else {
        assert Chosen(vs, t.sides, false) == Chosen(Visit(blocks, init), t0.sides, false) + [b];
        assert Chosen(vs, t.sides, false)[..|Chosen(vs, t.sides, false)| - 1] == Chosen(Visit(blocks, init), t0.sides, false);
        assert Chosen(vs, t.sides, true) == Chosen(Visit(blocks, init), t0.sides, true);
      }
    }
  }

  /**
   * With single-player blocks and at most ten of them, team 2 never exceeds
   * five players either; with exactly ten, the split is five and five.
   */
  lemma {:induction false} GreedySingletons(blocks: seq<Block>, order: seq<nat>)
    requires ValidOrder(blocks, order) && |order| <= 10
    requires forall i :: 0 <= i < |order| ==> |blocks[order[i]]| == 1
    ensures var t := Greedy(blocks, order);
      |t.e1| + |t.e2| == |order| && |t.e1| <= Capacity && |t.e2| <= Capacity &&
      (|order| == 10 ==> |t.e1| == 5 && |t.e2| == 5)
  {
    if order != [] {
      GreedySingletons(blocks, order[..|order| - 1]);
      GreedyTeam1Capacity(blocks, order);
    }
  }
}
