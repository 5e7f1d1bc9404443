/**
 * equipos.py, the search for balanced line-ups: `generar_mejor` keeps the best
 * greedy assignment over many block orders, `_pequeno_swap` exchanges one
 * player between the sides of a line-up, and `generar_opciones_unicas`
 * collects line-ups whose signatures have not been seen before.
 *
 * Python's random generator is replaced by explicit inputs: the block orders
 * each seeded search tries, and one `Draw` per swap attempt.
 */
module Search {
  import opened Wrappers
  import opened Blocks
  import opened Assignment
  import opened Lineup

  /** `generar_mejor` stops as soon as the gap is at most this. */
  const GoodEnough := 20

  /** The result of `generar_mejor`: `(None, inf)`, or a line-up with its gap. */
  datatype Best = NotFound | Found(names: seq<string>, diff: nat)

  /** What `generar_mejor` derives from one order. */
  function LineupOf(blocks: seq<Block>, order: seq<nat>): seq<string>
    requires ValidOrder(blocks, order)
  {
    var t := Greedy(blocks, order);
    Names10(t.e1, t.e2)
  }

  predicate ValidOrders(blocks: seq<Block>, orders: seq<seq<nat>>)
  {
    forall i :: 0 <= i < |orders| ==> ValidOrder(blocks, orders[i])
  }

  /** Keep the line-up and gap of `order` when it beats `r` strictly, as `if diff < best_diff`. */
  function Improve(blocks: seq<Block>, r: Best, order: seq<nat>): Best
    requires ValidOrder(blocks, order)
  {
    if r.NotFound? || Gap(blocks, order) < r.diff then Found(LineupOf(blocks, order), Gap(blocks, order)) else r
  }

  /**
   * The loop of `generar_mejor` from order `i` on, `r` being the best of the
   * orders before `i`: it ends after the last order or at a gap of at most 20.
   */
  function BestFrom(blocks: seq<Block>, orders: seq<seq<nat>>, i: nat, r: Best): (b: Best)
    requires ValidOrders(blocks, orders) && i <= |orders|
    ensures r.Found? || i < |orders| ==> b.Found?
    decreases |orders| - i
  {
    if i == |orders| || (r.Found? && r.diff <= GoodEnough) then r
    else BestFrom(blocks, orders, i + 1, Improve(blocks, r, orders[i]))
  }

  /**
   * `generar_mejor`: `orders` are the successive shuffles of the block
   * indices. The result comes from the earliest order with the least gap among
   * those tried, and the search stops at the first gap of at most 20.
   */
  method BestOf(blocks: seq<Block>, orders: seq<seq<nat>>) returns (r: Best, ghost at: nat)
    requires ValidOrders(blocks, orders)
    ensures r.NotFound? <==> |orders| == 0
    ensures r.Found? ==> at < |orders| && r.names == LineupOf(blocks, orders[at]) && r.diff == Gap(blocks, orders[at])
    ensures r.Found? ==> forall j :: 0 <= j < at ==> Gap(blocks, orders[j]) > r.diff && Gap(blocks, orders[j]) > GoodEnough
    ensures r.Found? && r.diff > GoodEnough ==> forall j :: at < j < |orders| ==> Gap(blocks, orders[j]) >= r.diff
    ensures r == BestFrom(blocks, orders, 0, NotFound)
  {
    r, at := NotFound, 0;
    var i := 0;
    while i < |orders| && !(r.Found? && r.diff <= GoodEnough)
      invariant i <= |orders| && BestSoFar(blocks, orders, i, r, at)
      invariant r.Found? && r.diff <= GoodEnough ==> at == i - 1
    {
      r, at := Consider(blocks, orders, i, r, at);
      i := i + 1;
    }
    BestIsBestFrom(blocks, orders, r, at);
  }

  /** What `BestOf` promises about its result. */
  ghost predicate IsBest(blocks: seq<Block>, orders: seq<seq<nat>>, r: Best, at: nat)
    requires ValidOrders(blocks, orders)
  {
    && (r.NotFound? <==> |orders| == 0)
    && (r.Found? ==> at < |orders| && r.names == LineupOf(blocks, orders[at]) && r.diff == Gap(blocks, orders[at]))
    && (r.Found? ==> forall j :: 0 <= j < at ==> Gap(blocks, orders[j]) > r.diff && Gap(blocks, orders[j]) > GoodEnough)
    && (r.Found? && r.diff > GoodEnough ==> forall j :: at < j < |orders| ==> Gap(blocks, orders[j]) >= r.diff)
  }

  /**
   * The characterisation of `BestOf` pins its result down: it is the result of
   * running `generar_mejor`'s loop from the first order.
   */
  lemma BestIsBestFrom(blocks: seq<Block>, orders: seq<seq<nat>>, r: Best, at: nat)
    requires ValidOrders(blocks, orders) && IsBest(blocks, orders, r, at)
    ensures r == BestFrom(blocks, orders, 0, NotFound)
  {
    if r.Found? {
      BestFromBeforeAt(blocks, orders, r, at, 0, NotFound);
    }
  }

  /** Before order `at`, every order is worse than `r` and above 20, so the loop reaches `at` and takes it. */
  lemma {:induction false} BestFromBeforeAt(blocks: seq<Block>, orders: seq<seq<nat>>, r: Best, at: nat, i: nat, s: Best)
    requires ValidOrders(blocks, orders) && IsBest(blocks, orders, r, at) && r.Found? && i <= at
    requires s.NotFound? <==> i == 0
    requires s.Found? ==> s.diff > r.diff && s.diff > GoodEnough
    ensures BestFrom(blocks, orders, i, s) == r
    decreases at - i
  {
    var next := Improve(blocks, s, orders[i]);
    if i < at {
      BestFromBeforeAt(blocks, orders, r, at, i + 1, next);
    } else {
      BestFromAfterAt(blocks, orders, r, i + 1);
    }
  }

  /** After the taken order, the loop stops at once (gap at most 20) or never finds a strictly smaller gap. */
  lemma {:induction false} BestFromAfterAt(blocks: seq<Block>, orders: seq<seq<nat>>, r: Best, i: nat)
    requires ValidOrders(blocks, orders) && r.Found? && i <= |orders|
    requires r.diff > GoodEnough ==> forall j :: i <= j < |orders| ==> Gap(blocks, orders[j]) >= r.diff
    ensures BestFrom(blocks, orders, i, r) == r
    decreases |orders| - i
  {
    if i < |orders| && r.diff > GoodEnough {
      assert Improve(blocks, r, orders[i]) == r;
      BestFromAfterAt(blocks, orders, r, i + 1);
    }
  }

  /** The loop invariant of `BestOf` after trying the first `i` orders. */
  ghost predicate BestSoFar(blocks: seq<Block>, orders: seq<seq<nat>>, i: nat, r: Best, at: nat)
    requires ValidOrders(blocks, orders) && i <= |orders|
  {
    && (r.NotFound? <==> i == 0)
    && (r.Found? ==> at < i && r.names == LineupOf(blocks, orders[at]) && r.diff == Gap(blocks, orders[at]))
    && (r.Found? ==> forall j :: 0 <= j < at ==> Gap(blocks, orders[j]) > r.diff && Gap(blocks, orders[j]) > GoodEnough)
    && (r.Found? ==> forall j :: at < j < i ==> Gap(blocks, orders[j]) >= r.diff)
  }

  /** One step of `generar_mejor`: assign with order `i` and keep it when strictly better. */
  method Consider(blocks: seq<Block>, orders: seq<seq<nat>>, i: nat, r: Best, ghost at: nat) returns (r': Best, ghost at': nat)
    requires ValidOrders(blocks, orders) && i < |orders|
    requires BestSoFar(blocks, orders, i, r, at)
    requires r.Found? ==> r.diff > GoodEnough
    ensures BestSoFar(blocks, orders, i + 1, r', at')
    ensures r'.Found? && r'.diff <= GoodEnough ==> at' == i
    ensures r' == Improve(blocks, r, orders[i])
  {
    var names, diff := Evaluate(blocks, orders[i]);
    if r.NotFound? || diff < r.diff {
      r', at' := Found(names, diff), i;
      TakeNew(blocks, orders, i, r, at);
    } else {
      r', at' := r, at;
      KeepOld(blocks, orders, i, r, at);
    }
  }

  /** The line-up and the gap `generar_mejor` computes for one order. */
  method Evaluate(blocks: seq<Block>, order: seq<nat>) returns (names: seq<string>, diff: nat)
    requires ValidOrder(blocks, order)
    ensures names == LineupOf(blocks, order) && diff == Gap(blocks, order)
  {
    var e1, e2, s1, s2 := Assign(blocks, order);
    diff := if s1 >= s2 then s1 - s2 else s2 - s1;
    names := Names10(e1, e2);
  }

  lemma TakeNew(blocks: seq<Block>, orders: seq<seq<nat>>, i: nat, r: Best, at: nat)
    requires ValidOrders(blocks, orders) && i < |orders|
    requires BestSoFar(blocks, orders, i, r, at)
    requires r.Found? ==> GoodEnough < r.diff && Gap(blocks, orders[i]) < r.diff
    ensures BestSoFar(blocks, orders, i + 1, Found(LineupOf(blocks, orders[i]), Gap(blocks, orders[i])), i)
  {
  }

  lemma KeepOld(blocks: seq<Block>, orders: seq<seq<nat>>, i: nat, r: Best, at: nat)
    requires ValidOrders(blocks, orders) && i < |orders|
    requires BestSoFar(blocks, orders, i, r, at)
    requires r.Found? && Gap(blocks, orders[i]) >= r.diff
    ensures BestSoFar(blocks, orders, i + 1, r, at)
  {
  }

  // ---------------------------------------------------------------------------
  // The swap fallback
  // ---------------------------------------------------------------------------

  /** One random draw of the fallback: the two `random.choice` picks and the `randint` penalty. */
  datatype Draw = Draw(pick1: nat, pick2: nat, penalty: int)

  /** `list.index(x)`: the first position of `x`. */
  function IndexOf(s: seq<string>, x: string): (i: nat)
    requires x in s
    ensures i < |s| && s[i] == x && forall j :: 0 <= j < i ==> s[j] != x
  {
    if s[0] == x then 0 else 1 + IndexOf(s[1..], x)
  }

  /**
   * `_pequeno_swap`: drop the empty slots of each side, exchange the picked
   * player `a` of team 1 with the picked player `b` of team 2 (at the first
   * position of each), and pad both sides back to five slots; `None` when a
   * side has nobody.
   */
  function SmallSwap(l: seq<string>, pick1: nat, pick2: nat): (r: Option<seq<string>>)
    ensures r.None? <==> NonBlank(Front(l)) == [] || NonBlank(Back(l)) == []
    ensures r.Some? && |l| == 10 ==> |r.value| == 10
  {
    var team1, team2 := NonBlank(Front(l)), NonBlank(Back(l));
    if team1 == [] || team2 == [] then None
    else
      var a, b := team1[pick1 % |team1|], team2[pick2 % |team2|];
      var i1, i2 := IndexOf(team1, a), IndexOf(team2, b);
      Some(PadTo5(team1[i1 := b]) + PadTo5(team2[i2 := a]))
  }

  /**
   * Where the swap puts everybody: `b` takes the first slot of `a` in team 1,
   * `a` the first slot of `b` in team 2, every other player keeps its place
   * among the non-empty names of its side, and the empty slots come last.
   */
  lemma SwapExchanges(l: seq<string>, pick1: nat, pick2: nat)
    requires SmallSwap(l, pick1, pick2).Some?
    ensures
      var t1, t2 := NonBlank(Front(l)), NonBlank(Back(l));
      var a, b := t1[pick1 % |t1|], t2[pick2 % |t2|];
      var i1, i2 := IndexOf(t1, a), IndexOf(t2, b);
      var s := SmallSwap(l, pick1, pick2).value;
      && |t1| <= 5 && |s| == 5 + (if |t2| >= 5 then |t2| else 5)
      && s[i1] == b && s[5 + i2] == a
      && (forall i :: 0 <= i < |t1| && i != i1 ==> s[i] == t1[i])
      && (forall i :: 0 <= i < |t2| && i != i2 ==> s[5 + i] == t2[i])
      && (forall i :: |t1| <= i < 5 ==> s[i] == "")
      && (forall i :: 5 + |t2| <= i < |s| ==> s[i] == "")
  {
    var t1, t2 := NonBlank(Front(l)), NonBlank(Back(l));
    var a, b := t1[pick1 % |t1|], t2[pick2 % |t2|];
    var i1, i2 := IndexOf(t1, a), IndexOf(t2, b);
    var p1, p2 := PadTo5(t1[i1 := b]), PadTo5(t2[i2 := a]);
    assert |p1| == 5;
    forall i | 0 <= i < |t1| ensures p1[i] == t1[i1 := b][i] {
      assert p1[..|t1|][i] == p1[i];
    }
    forall i | 0 <= i < |t2| ensures p2[i] == t2[i2 := a][i] {
      assert p2[..|t2|][i] == p2[i];
    }
  }

  /** The swap keeps the same non-empty names, counted with multiplicity. */
  lemma SwapKeepsNames(l: seq<string>, pick1: nat, pick2: nat)
    requires SmallSwap(l, pick1, pick2).Some?
    ensures multiset(NonBlank(SmallSwap(l, pick1, pick2).value)) == multiset(NonBlank(l))
  {
    var t1, t2 := NonBlank(Front(l)), NonBlank(Back(l));
    var a, b := t1[pick1 % |t1|], t2[pick2 % |t2|];
    var i1, i2 := IndexOf(t1, a), IndexOf(t2, b);
    assert Front(l) + Back(l) == l;
    NonBlankConcat(Front(l), Back(l));
    PaddedExchange(t1, t2, i1, i2);
  }

  /** Exchanging one name of each side and padding both keeps the names, counted. */
  lemma PaddedExchange(t1: seq<string>, t2: seq<string>, i1: nat, i2: nat)
    requires i1 < |t1| && i2 < |t2|
    requires forall i :: 0 <= i < |t1| ==> t1[i] != ""
    requires forall i :: 0 <= i < |t2| ==> t2[i] != ""
    ensures multiset(NonBlank(PadTo5(t1[i1 := t2[i2]]) + PadTo5(t2[i2 := t1[i1]]))) == multiset(t1) + multiset(t2)
  {
    var n1, n2 := t1[i1 := t2[i2]], t2[i2 := t1[i1]];
    NonBlankConcat(PadTo5(n1), PadTo5(n2));
    NonBlankPad(n1);
    NonBlankPad(n2);
    NonBlankIdle(n1);
    NonBlankIdle(n2);
    ExchangeMultiset(t1, t2, i1, i2);
  }

  lemma ExchangeMultiset(t1: seq<string>, t2: seq<string>, i1: nat, i2: nat)
    requires i1 < |t1| && i2 < |t2|
    ensures multiset(t1[i1 := t2[i2]]) + multiset(t2[i2 := t1[i1]]) == multiset(t1) + multiset(t2)
  {
    assert t1 == t1[..i1] + [t1[i1]] + t1[i1 + 1..];
    assert t1[i1 := t2[i2]] == t1[..i1] + [t2[i2]] + t1[i1 + 1..];
    assert t2 == t2[..i2] + [t2[i2]] + t2[i2 + 1..];
    assert t2[i2 := t1[i1]] == t2[..i2] + [t1[i1]] + t2[i2 + 1..];
  }

  lemma {:induction false} NonBlankConcat(a: seq<string>, b: seq<string>)
    ensures NonBlank(a + b) == NonBlank(a) + NonBlank(b)
  {
    if b != [] {
      assert (a + b)[..|a + b| - 1] == a + b[..|b| - 1];
      NonBlankConcat(a, b[..|b| - 1]);
    } else {
      assert a + b == a;
    }
  }

  /** Names without empty entries are their own non-empty part. */
  lemma {:induction false} NonBlankIdle(s: seq<string>)
    requires forall i :: 0 <= i < |s| ==> s[i] != ""
    ensures NonBlank(s) == s
  {
    if s != [] {
      NonBlankIdle(s[..|s| - 1]);
    }
  }

  /** Empty slots at the end do not change the non-empty names. */
  lemma {:induction false} NonBlankTrailing(r: seq<string>, k: nat)
    requires k <= |r| && forall i :: k <= i < |r| ==> r[i] == ""
    ensures NonBlank(r) == NonBlank(r[..k])
    decreases |r|
  {
    if |r| > k {
      var init := r[..|r| - 1];
      assert init[..k] == r[..k];
      NonBlankTrailing(init, k);
    } else {
      assert r[..k] == r;
    }
  }

  lemma NonBlankPad(s: seq<string>)
    ensures NonBlank(PadTo5(s)) == NonBlank(s)
  {
    NonBlankTrailing(PadTo5(s), |s|);
  }
}
