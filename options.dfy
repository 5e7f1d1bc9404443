/**
 * equipos.py, `generar_opciones_unicas`: up to `n` line-ups whose team sets
 * have not been seen before. Phase 1 takes the best line-up of successive
 * seeded searches, phase 2 fabricates at most 50 variants by swapping one
 * player of an earlier option, and phase 3 chains swaps on the last option.
 */
module Options {
  import opened Wrappers
  import opened Blocks
  import opened Assignment
  import opened Lineup
  import opened Search

  /** The two team sets of a line-up. */
  function Sides(l: seq<string>): set<set<string>>
  {
    {SetKey(l).team1, SetKey(l).team2}
  }

  /** `(t1 not in equipos_vistos) and (t2 not in equipos_vistos)`. */
  predicate IsFresh(seen: set<set<string>>, l: seq<string>)
  {
    SetKey(l).team1 !in seen && SetKey(l).team2 !in seen
  }

  /** No option repeats a team set of an earlier option, on either side. */
  ghost predicate AllDistinct(opts: seq<seq<string>>)
  {
    forall i, j :: 0 <= i < j < |opts| ==> IsFresh(Sides(opts[i]), opts[j])
  }

  /** The names of the players in the blocks. */
  function RosterNames(blocks: seq<Block>): set<string>
  {
    set p | p in Flatten(blocks) :: p.name
  }

  ghost predicate FromRoster(blocks: seq<Block>, l: seq<string>)
  {
    forall x :: x in l && x != "" ==> x in RosterNames(blocks)
  }

  /** Option `l`, scored `d`, is the result of one of the seeded searches, with its gap as score. */
  ghost predicate Searched(blocks: seq<Block>, probes: seq<seq<seq<nat>>>, l: seq<string>, d: int)
  {
    exists p, at :: 0 <= p < |probes| && 0 <= at < |probes[p]| && ValidOrder(blocks, probes[p][at]) &&
      l == LineupOf(blocks, probes[p][at]) && d == Gap(blocks, probes[p][at])
  }

  /** Option `i` rearranges the names of an earlier option, scored 10 to 35 above it. */
  ghost predicate SwappedFrom(opts: seq<seq<string>>, diffs: seq<int>, i: nat)
    requires i < |opts| == |diffs|
  {
    exists j :: 0 <= j < i && multiset(NonBlank(opts[i])) == multiset(NonBlank(opts[j])) &&
      diffs[j] + 10 <= diffs[i] <= diffs[j] + 35
  }

  /** Where option `i` came from: a seeded search, or a swap of an earlier option. */
  ghost predicate Origin(blocks: seq<Block>, probes: seq<seq<seq<nat>>>, opts: seq<seq<string>>, diffs: seq<int>, i: nat)
    requires i < |opts| == |diffs|
  {
    Searched(blocks, probes, opts[i], diffs[i]) || SwappedFrom(opts, diffs, i)
  }

  /** A witness for `Origin`: the probe and try a search result came from, or the option a swap started from. */
  datatype Source = Probe(p: nat, at: nat) | Swap(from: nat)

  ghost predicate Explained(blocks: seq<Block>, probes: seq<seq<seq<nat>>>, opts: seq<seq<string>>, diffs: seq<int>, src: seq<Source>, i: nat)
    requires i < |opts| == |diffs| == |src|
  {
    match src[i]
    case Probe(p, at) =>
      p < |probes| && at < |probes[p]| && ValidOrder(blocks, probes[p][at]) &&
      opts[i] == LineupOf(blocks, probes[p][at]) && diffs[i] == Gap(blocks, probes[p][at])
    case Swap(j) =>
      j < i && multiset(NonBlank(opts[i])) == multiset(NonBlank(opts[j])) &&
      diffs[j] + 10 <= diffs[i] <= diffs[j] + 35
  }

  /** What holds of the options collected so far, in every phase; `src` explains each option. */
  ghost predicate Collected(blocks: seq<Block>, probes: seq<seq<seq<nat>>>, opts: seq<seq<string>>, diffs: seq<int>, seen: set<set<string>>, src: seq<Source>)
  {
    && |opts| == |diffs| == |src|
    && (forall i :: 0 <= i < |opts| ==> Sides(opts[i]) <= seen)
    && AllDistinct(opts)
    && (forall i :: 0 <= i < |opts| ==> |opts[i]| == 10 && FromRoster(blocks, opts[i]) && diffs[i] >= 0)
    && (forall i :: 0 <= i < |opts| ==> Explained(blocks, probes, opts, diffs, src, i))
  }

  /** A draw stream whose penalties lie within `randint(lo, hi)`. */
  predicate PenaltiesWithin(draws: seq<Draw>, lo: int, hi: int)
  {
    forall i :: 0 <= i < |draws| ==> lo <= draws[i].penalty <= hi
  }

  /** Collecting stops at `n` options, and collects nothing when `n` is not positive. */
  function Limit(n: int): nat
  {
    if n < 0 then 0 else n
  }

  // ---------------------------------------------------------------------------
  // The three phases as functions
  // ---------------------------------------------------------------------------

  /** `opciones`, `diffs` and `equipos_vistos` at some point of the collection. */
  datatype Pool = Pool(opts: seq<seq<string>>, diffs: seq<int>, seen: set<set<string>>)

  const EmptyPool := Pool([], [], {})

  /** `opciones.append(l)`, `diffs.append(d)` and both team sets of `l` added to `equipos_vistos`. */
  function Add(pool: Pool, l: seq<string>, d: int): Pool
  {
    Pool(pool.opts + [l], pool.diffs + [d], pool.seen + Sides(l))
  }

  /** One probe of phase 1: the result of `generar_mejor`, kept when found and fresh. */
  function SearchStep(blocks: seq<Block>, orders: seq<seq<nat>>, pool: Pool): Pool
    requires ValidOrders(blocks, orders)
  {
    var best := BestFrom(blocks, orders, 0, NotFound);
    if best.Found? && IsFresh(pool.seen, best.names) then Add(pool, best.names, best.diff) else pool
  }

  /** Phase 1 from probe `k` on: the pool it ends with and how many probes have run. */
  function SearchFrom(blocks: seq<Block>, n: int, probes: seq<seq<seq<nat>>>, k: nat, pool: Pool): (r: (Pool, nat))
    requires k <= |probes| && forall p :: 0 <= p < |probes| ==> ValidOrders(blocks, probes[p])
    ensures k <= r.1 <= |probes|
    decreases |probes| - k
  {
    if |pool.opts| < n && k < |probes| then SearchFrom(blocks, n, probes, k + 1, SearchStep(blocks, probes[k], pool))
    else (pool, k)
  }

  /** Whether the swap of option `base` with draw `d` yields a candidate with two new team sets. */
  predicate Kept(pool: Pool, base: nat, d: Draw)
    requires base < |pool.opts|
  {
    var cand := SmallSwap(pool.opts[base], d.pick1, d.pick2);
    cand.Some? && IsFresh(pool.seen, cand.value)
  }

  /** One swap attempt of phases 2 and 3: the candidate, scored `score`, joins the pool when kept. */
  function SwapStep(pool: Pool, base: nat, d: Draw, score: int): Pool
    requires base < |pool.opts|
  {
    if Kept(pool, base, d) then Add(pool, SmallSwap(pool.opts[base], d.pick1, d.pick2).value, score) else pool
  }

  /** The score of a swap of option `base`: `(diffs[base] if diffs else 60) + randint(10, 30)`. */
  function FabricatedScore(pool: Pool, base: nat, d: Draw): int
    requires base < |pool.diffs|
  {
    (if pool.diffs != [] then pool.diffs[base] else 60) + d.penalty
  }

  /** Phase 2 after `made` attempts: the pool it ends with and how many attempts it made in all. */
  function FabricateFrom(n: int, pool: Pool, draws: seq<Draw>, made: nat): (r: (Pool, nat))
    requires |draws| == 50 && made <= 50 && |pool.diffs| == |pool.opts|
    ensures made <= r.1 <= 50
    decreases 50 - made
  {
    if |pool.opts| < n && made < 50 && pool.opts != [] then
      var base := made % |pool.opts|;
      var d := draws[made];
      FabricateFrom(n, SwapStep(pool, base, d, FabricatedScore(pool, base, d)), draws, made + 1)
    else (pool, made)
  }

  /** The score of a chained swap: `(diffs[-1] if diffs else 60) + randint(15, 35)`. */
  function ChainedScore(pool: Pool, d: Draw): int
  {
    (if pool.diffs != [] then pool.diffs[|pool.diffs| - 1] else 60) + d.penalty
  }

  /**
   * One round of phase 3 at try `t` with `c` draws used: up to three swaps of
   * option `base`, ending at the first kept one; the pool and draws used after it.
   */
  function ChainRound(pool: Pool, base: nat, draws: seq<Draw>, c: nat, t: nat): (r: (Pool, nat))
    requires base < |pool.opts| && c <= |draws| && t <= 3
    ensures c <= r.1 <= |draws| && (t < 3 && c < |draws| ==> c < r.1)
    decreases 3 - t
  {
    if t < 3 && c < |draws| then
      var d := draws[c];
      if Kept(pool, base, d) then (SwapStep(pool, base, d, ChainedScore(pool, d)), c + 1)
      else ChainRound(pool, base, draws, c + 1, t + 1)
    else (pool, c)
  }

  /** Phase 3 with `c` draws used: rounds on the last option while options are missing and draws remain. */
  function ChainFrom(n: int, pool: Pool, draws: seq<Draw>, c: nat): (r: (Pool, nat))
    requires c <= |draws|
    ensures c <= r.1 <= |draws|
    decreases |draws| - c
  {
    if |pool.opts| < n && pool.opts != [] && c < |draws| then
      var round := ChainRound(pool, |pool.opts| - 1, draws, c, 0);
      ChainFrom(n, round.0, draws, round.1)
    else (pool, c)
  }

  /** Phase 1 never passes `n` options, and it stops early only on reaching `n`. */
  lemma {:induction false} SearchStops(blocks: seq<Block>, n: int, probes: seq<seq<seq<nat>>>, k: nat, pool: Pool)
    requires k <= |probes| && forall p :: 0 <= p < |probes| ==> ValidOrders(blocks, probes[p])
    requires |pool.opts| <= Limit(n) && |pool.diffs| == |pool.opts|
    ensures var r := SearchFrom(blocks, n, probes, k, pool);
      |r.0.opts| == |r.0.diffs| && |pool.opts| <= |r.0.opts| <= Limit(n) && (|r.0.opts| == Limit(n) || r.1 == |probes|)
    decreases |probes| - k
  {
    if |pool.opts| < n && k < |probes| {
      SearchStops(blocks, n, probes, k + 1, SearchStep(blocks, probes[k], pool));
    }
  }

  /**
   * Starting with nothing seen, phase 1 collects nothing exactly when `n` is
   * not positive or no remaining probe tries an order: the first search that
   * finds a line-up finds one whose team sets are new.
   */
  lemma {:induction false} SearchFindsIff(blocks: seq<Block>, n: int, probes: seq<seq<seq<nat>>>, k: nat, pool: Pool)
    requires k <= |probes| && forall p :: 0 <= p < |probes| ==> ValidOrders(blocks, probes[p])
    requires pool.opts == [] && pool.seen == {}
    ensures SearchFrom(blocks, n, probes, k, pool).0.opts == [] <==> n <= 0 || forall p :: k <= p < |probes| ==> probes[p] == []
    decreases |probes| - k
  {
    if n > 0 && k < |probes| {
      var next := SearchStep(blocks, probes[k], pool);
      if probes[k] == [] {
        SearchFindsIff(blocks, n, probes, k + 1, next);
      } else {
        assert next.opts != [];
        SearchKeeps(blocks, n, probes, k + 1, next);
      }
    }
  }

  /** Phase 1 never drops an option. */
  lemma {:induction false} SearchKeeps(blocks: seq<Block>, n: int, probes: seq<seq<seq<nat>>>, k: nat, pool: Pool)
    requires k <= |probes| && forall p :: 0 <= p < |probes| ==> ValidOrders(blocks, probes[p])
    ensures |pool.opts| <= |SearchFrom(blocks, n, probes, k, pool).0.opts|
    decreases |probes| - k
  {
    if |pool.opts| < n && k < |probes| {
      SearchKeeps(blocks, n, probes, k + 1, SearchStep(blocks, probes[k], pool));
    }
  }

  /**
   * Phase 2 never passes `n` options; it does nothing without an earlier
   * option, and otherwise stops early only on reaching `n`.
   */
  lemma {:induction false} FabricateStops(n: int, pool: Pool, draws: seq<Draw>, made: nat)
    requires |draws| == 50 && made <= 50 && |pool.diffs| == |pool.opts| && |pool.opts| <= Limit(n)
    ensures var r := FabricateFrom(n, pool, draws, made);
      |r.0.opts| == |r.0.diffs| && |pool.opts| <= |r.0.opts| <= Limit(n) &&
      (|r.0.opts| == Limit(n) || pool.opts == [] || r.1 == 50) &&
      (pool.opts == [] ==> r == (pool, made))
    decreases 50 - made
  {
    if |pool.opts| < n && made < 50 && pool.opts != [] {
      var base := made % |pool.opts|;
      var d := draws[made];
      FabricateStops(n, SwapStep(pool, base, d, FabricatedScore(pool, base, d)), draws, made + 1);
    }
  }

  /** A round adds at most the one option it ends on. */
  lemma {:induction false} RoundAddsOne(pool: Pool, base: nat, draws: seq<Draw>, c: nat, t: nat)
    requires base < |pool.opts| == |pool.diffs| && c <= |draws| && t <= 3
    ensures var r := ChainRound(pool, base, draws, c, t);
      |r.0.opts| == |r.0.diffs| && |pool.opts| <= |r.0.opts| <= |pool.opts| + 1
    decreases 3 - t
  {
    if t < 3 && c < |draws| && !Kept(pool, base, draws[c]) {
      RoundAddsOne(pool, base, draws, c + 1, t + 1);
    }
  }

  /**
   * Phase 3 never passes `n` options; it does nothing without an earlier
   * option, and otherwise stops early only on reaching `n`: when it falls
   * short, every draw was used.
   */
  lemma {:induction false} ChainStops(n: int, pool: Pool, draws: seq<Draw>, c: nat)
    requires c <= |draws| && |pool.diffs| == |pool.opts| && |pool.opts| <= Limit(n)
    ensures var r := ChainFrom(n, pool, draws, c);
      |r.0.opts| == |r.0.diffs| && |pool.opts| <= |r.0.opts| <= Limit(n) &&
      (|r.0.opts| == Limit(n) || pool.opts == [] || r.1 == |draws|) &&
      (pool.opts == [] ==> r == (pool, c))
    decreases |draws| - c
  {
    if |pool.opts| < n && pool.opts != [] && c < |draws| {
      var round := ChainRound(pool, |pool.opts| - 1, draws, c, 0);
      RoundAddsOne(pool, |pool.opts| - 1, draws, c, 0);
      ChainStops(n, round.0, draws, round.1);
    }
  }

  lemma FabricateUnfold(n: int, pool: Pool, draws: seq<Draw>, made: nat, score: int)
    requires |draws| == 50 && made < 50 && |pool.diffs| == |pool.opts| && 0 < |pool.opts| < n
    requires score == FabricatedScore(pool, made % |pool.opts|, draws[made])
    ensures FabricateFrom(n, pool, draws, made) == FabricateFrom(n, SwapStep(pool, made % |pool.opts|, draws[made], score), draws, made + 1)
  {
  }

  lemma FabricateDone(n: int, pool: Pool, draws: seq<Draw>, made: nat)
    requires |draws| == 50 && made <= 50 && |pool.diffs| == |pool.opts|
    requires !(|pool.opts| < n && made < 50 && pool.opts != [])
    ensures FabricateFrom(n, pool, draws, made) == (pool, made)
  {
  }

  lemma RoundUnfold(pool: Pool, base: nat, draws: seq<Draw>, c: nat, t: nat, score: int)
    requires base < |pool.opts| && c < |draws| && t < 3 && score == ChainedScore(pool, draws[c])
    ensures ChainRound(pool, base, draws, c, t) ==
      if Kept(pool, base, draws[c]) then (SwapStep(pool, base, draws[c], score), c + 1)
      else ChainRound(pool, base, draws, c + 1, t + 1)
  {
  }

  lemma RoundDone(pool: Pool, base: nat, draws: seq<Draw>, c: nat, t: nat)
    requires base < |pool.opts| && c <= |draws| && t <= 3 && (t == 3 || c == |draws|)
    ensures ChainRound(pool, base, draws, c, t) == (pool, c)
  {
  }

  lemma ChainUnfold(n: int, pool: Pool, draws: seq<Draw>, c: nat)
    requires c < |draws| && 0 < |pool.opts| < n
    ensures var round := ChainRound(pool, |pool.opts| - 1, draws, c, 0);
      ChainFrom(n, pool, draws, c) == ChainFrom(n, round.0, draws, round.1)
  {
  }

  lemma ChainDone(n: int, pool: Pool, draws: seq<Draw>, c: nat)
    requires c <= |draws| && !(|pool.opts| < n && pool.opts != [] && c < |draws|)
    ensures ChainFrom(n, pool, draws, c) == (pool, c)
  {
  }

  /** The whole of `generar_opciones_unicas`: the final pool and the chained draws used. */
  function Generate(blocks: seq<Block>, n: int, probes: seq<seq<seq<nat>>>, fabricate: seq<Draw>, chain: seq<Draw>): (r: (Pool, nat))
    requires forall p :: 0 <= p < |probes| ==> ValidOrders(blocks, probes[p])
    requires |fabricate| == 50
  {
    var p1 := SearchFrom(blocks, n, probes, 0, EmptyPool).0;
    SearchStops(blocks, n, probes, 0, EmptyPool);
    var p2 := FabricateFrom(n, p1, fabricate, 0).0;
    ChainFrom(n, p2, chain, 0)
  }

  // ---------------------------------------------------------------------------
  // The three phases as loops
  // ---------------------------------------------------------------------------

  /**
   * `generar_opciones_unicas(bloques, n, max_busquedas)`. `probes[p]` are the
   * block orders tried by the search seeded with `11 + 13 * (p + 1)`, so
   * `|probes|` is `max_busquedas`; `fabricate` holds the draws of the 50
   * fabrication attempts and `chain` those of the chained swaps. Phase 3 ends
   * when `chain` runs out, and `chainUsed` is how many of its draws were used.
   * The final `[:n]` slices are no-ops, since no phase goes past `n` options.
   */
  method GenerateOptions(blocks: seq<Block>, n: int, probes: seq<seq<seq<nat>>>, fabricate: seq<Draw>, chain: seq<Draw>)
    returns (options: seq<seq<string>>, diffs: seq<int>, ghost chainUsed: nat)
    requires forall p :: 0 <= p < |probes| ==> ValidOrders(blocks, probes[p])
    requires |fabricate| == 50 && PenaltiesWithin(fabricate, 10, 30)
    requires PenaltiesWithin(chain, 15, 35)
    ensures var g := Generate(blocks, n, probes, fabricate, chain);
      options == g.0.opts && diffs == g.0.diffs && chainUsed == g.1
    ensures |options| == |diffs| && |options| <= Limit(n)
    ensures options == [] <==> Limit(n) == 0 || forall p :: 0 <= p < |probes| ==> probes[p] == []
    ensures chainUsed <= |chain| && (|options| == Limit(n) || options == [] || chainUsed == |chain|)
    ensures AllDistinct(options)
    ensures forall i :: 0 <= i < |options| ==> |options[i]| == 10 && FromRoster(blocks, options[i]) && diffs[i] >= 0
    ensures forall i :: 0 <= i < |options| ==> Origin(blocks, probes, options, diffs, i)
  {
    var seen, tried, made, used;
    ghost var src;
    options, diffs, seen, src, tried := SearchPhase(blocks, n, probes);
    options, diffs, seen, src, made := FabricatePhase(blocks, n, probes, options, diffs, seen, src, fabricate);
    options, diffs, seen, src, used := ChainPhase(blocks, n, probes, options, diffs, seen, src, chain);
    chainUsed := used;
    forall i | 0 <= i < |options| ensures Origin(blocks, probes, options, diffs, i) {
      ExplainedOrigin(blocks, probes, options, diffs, src, i);
    }
  }

  lemma ExplainedOrigin(blocks: seq<Block>, probes: seq<seq<seq<nat>>>, opts: seq<seq<string>>, diffs: seq<int>, src: seq<Source>, i: nat)
    requires i < |opts| == |diffs| == |src| && Explained(blocks, probes, opts, diffs, src, i)
    ensures Origin(blocks, probes, opts, diffs, i)
  {
    match src[i]
    case Probe(p, at) =>
      assert Searched(blocks, probes, opts[i], diffs[i]);
    case Swap(j) =>
      assert SwappedFrom(opts, diffs, i);
  }

  /**
   * Phase 1: one seeded `generar_mejor` per probe, kept when both team sets
   * are new, until `n` options or the last probe. `tried` is how many probes
   * ran.
   */
  method SearchPhase(blocks: seq<Block>, n: int, probes: seq<seq<seq<nat>>>)
    returns (opts: seq<seq<string>>, diffs: seq<int>, seen: set<set<string>>, ghost src: seq<Source>, tried: nat)
    requires forall p :: 0 <= p < |probes| ==> ValidOrders(blocks, probes[p])
    ensures (Pool(opts, diffs, seen), tried) == SearchFrom(blocks, n, probes, 0, EmptyPool)
    ensures Collected(blocks, probes, opts, diffs, seen, src) && |opts| <= Limit(n)
    ensures tried <= |probes| && (|opts| == Limit(n) || tried == |probes|)
    ensures opts == [] <==> Limit(n) == 0 || forall p :: 0 <= p < |probes| ==> probes[p] == []
  {
    opts, diffs, seen, src := [], [], {}, [];
    tried := 0;
    while |opts| < n && tried < |probes|
      invariant tried <= |probes|
      invariant Collected(blocks, probes, opts, diffs, seen, src) && |opts| <= Limit(n)
      invariant SearchFrom(blocks, n, probes, tried, Pool(opts, diffs, seen)) == SearchFrom(blocks, n, probes, 0, EmptyPool)
    {
      tried := tried + 1;
      var best, at := BestOf(blocks, probes[tried - 1]);
      if best.Found? && IsFresh(seen, best.names) {
        LineupFromRoster(blocks, probes[tried - 1][at]);
        Accept(blocks, probes, opts, diffs, seen, src, best.names, best.diff, Probe(tried - 1, at));
        opts, diffs, seen, src := opts + [best.names], diffs + [best.diff], seen + Sides(best.names), src + [Probe(tried - 1, at)];
      }
    }
    SearchStops(blocks, n, probes, 0, EmptyPool);
    SearchFindsIff(blocks, n, probes, 0, EmptyPool);
  }

  /** Phase 2: at most 50 swaps, attempt `k` starting from option `(k - 1) % len(opciones)`. */
  method FabricatePhase(blocks: seq<Block>, n: int, probes: seq<seq<seq<nat>>>,
                        opts0: seq<seq<string>>, diffs0: seq<int>, seen0: set<set<string>>, ghost src0: seq<Source>, draws: seq<Draw>)
    returns (opts: seq<seq<string>>, diffs: seq<int>, seen: set<set<string>>, ghost src: seq<Source>, made: nat)
    requires Collected(blocks, probes, opts0, diffs0, seen0, src0) && |opts0| <= Limit(n)
    requires |draws| == 50 && PenaltiesWithin(draws, 10, 30)
    ensures (Pool(opts, diffs, seen), made) == FabricateFrom(n, Pool(opts0, diffs0, seen0), draws, 0)
    ensures Collected(blocks, probes, opts, diffs, seen, src) && |opts| <= Limit(n)
    ensures Extends(opts0, diffs0, opts, diffs)
    ensures made <= 50 && (|opts| == Limit(n) || opts0 == [] || made == 50)
    ensures opts0 == [] ==> opts == [] && made == 0
  {
    opts, diffs, seen, src := opts0, diffs0, seen0, src0;
    ExtendsRefl(opts, diffs);
    made := 0;
    while |opts| < n && made < 50 && opts != []
      invariant made <= 50
      invariant Collected(blocks, probes, opts, diffs, seen, src) && |opts| <= Limit(n)
      invariant Extends(opts0, diffs0, opts, diffs)
      invariant FabricateFrom(n, Pool(opts, diffs, seen), draws, made) == FabricateFrom(n, Pool(opts0, diffs0, seen0), draws, 0)
    {
      made := made + 1;
      var base := (made - 1) % |opts|;
      var d := draws[made - 1];
      var score := (if diffs != [] then diffs[base] else 60) + d.penalty;
      var accepted;
      ghost var opts1, diffs1, before := opts, diffs, Pool(opts, diffs, seen);
      FabricateUnfold(n, before, draws, made - 1, score);
      opts, diffs, seen, src, accepted := TrySwap(blocks, n, probes, opts, diffs, seen, src, base, d, score);
      ExtendsTrans(opts0, diffs0, opts1, diffs1, opts, diffs);
    }
    FabricateDone(n, Pool(opts, diffs, seen), draws, made);
    FabricateStops(n, Pool(opts0, diffs0, seen0), draws, 0);
  }

  /**
   * One attempt of phases 2 and 3: swap in option `base` with the draw `d`,
   * and keep the candidate, scored `score`, when both its team sets are new.
   */
  method TrySwap(blocks: seq<Block>, n: int, probes: seq<seq<seq<nat>>>,
                 opts: seq<seq<string>>, diffs: seq<int>, seen: set<set<string>>, ghost src: seq<Source>,
                 base: nat, d: Draw, score: int)
    returns (opts': seq<seq<string>>, diffs': seq<int>, seen': set<set<string>>, ghost src': seq<Source>, accepted: bool)
    requires Collected(blocks, probes, opts, diffs, seen, src) && |opts| < Limit(n)
    requires base < |opts| && diffs[base] + 10 <= score <= diffs[base] + 35
    ensures Collected(blocks, probes, opts', diffs', seen', src') && |opts'| <= Limit(n)
    ensures accepted <==> SmallSwap(opts[base], d.pick1, d.pick2).Some? && IsFresh(seen, SmallSwap(opts[base], d.pick1, d.pick2).value)
    ensures accepted ==> opts' == opts + [SmallSwap(opts[base], d.pick1, d.pick2).value] && diffs' == diffs + [score]
    ensures !accepted ==> opts' == opts && diffs' == diffs && seen' == seen && src' == src
    ensures Pool(opts', diffs', seen') == SwapStep(Pool(opts, diffs, seen), base, d, score)
    ensures Extends(opts, diffs, opts', diffs')
  {    var cand := SmallSwap(opts[base], d.pick1, d.pick2);
    accepted := cand.Some? && IsFresh(seen, cand.value);
    if accepted {
      Derive(blocks, probes, opts, diffs, seen, src, base, d.pick1, d.pick2, score, cand.value);
      opts', diffs', seen', src' := opts + [cand.value], diffs + [score], seen + Sides(cand.value), src + [Swap(base)];
    } else {
      opts', diffs', seen', src' := opts, diffs, seen, src;
    }
  }

  /** `opts`/`diffs` start with `opts0`/`diffs0`: earlier options and scores are never changed. */
  ghost predicate Extends(opts0: seq<seq<string>>, diffs0: seq<int>, opts: seq<seq<string>>, diffs: seq<int>)
  {
    |opts0| <= |opts| && |diffs0| <= |diffs| && opts[..|opts0|] == opts0 && diffs[..|diffs0|] == diffs0
  }

  lemma ExtendsRefl(opts: seq<seq<string>>, diffs: seq<int>)
    ensures Extends(opts, diffs, opts, diffs)
  {
    assert opts[..|opts|] == opts && diffs[..|diffs|] == diffs;
  }

  lemma ExtendsTrans(opts0: seq<seq<string>>, diffs0: seq<int>, opts1: seq<seq<string>>, diffs1: seq<int>, opts: seq<seq<string>>, diffs: seq<int>)
    requires Extends(opts0, diffs0, opts1, diffs1) && Extends(opts1, diffs1, opts, diffs)
    ensures Extends(opts0, diffs0, opts, diffs)
  {
    assert opts[..|opts0|] == opts[..|opts1|][..|opts0|];
    assert diffs[..|diffs0|] == diffs[..|diffs1|][..|diffs0|];
  }

  /** Phase 3: rounds of up to three swaps of the last option, each round ending at the first new one. */
  method ChainPhase(blocks: seq<Block>, n: int, probes: seq<seq<seq<nat>>>,
                    opts0: seq<seq<string>>, diffs0: seq<int>, seen0: set<set<string>>, ghost src0: seq<Source>, draws: seq<Draw>)
    returns (opts: seq<seq<string>>, diffs: seq<int>, seen: set<set<string>>, ghost src: seq<Source>, c: nat)
    requires Collected(blocks, probes, opts0, diffs0, seen0, src0) && |opts0| <= Limit(n)
    requires PenaltiesWithin(draws, 15, 35)
    ensures (Pool(opts, diffs, seen), c) == ChainFrom(n, Pool(opts0, diffs0, seen0), draws, 0)
    ensures Collected(blocks, probes, opts, diffs, seen, src) && |opts| <= Limit(n)
    ensures Extends(opts0, diffs0, opts, diffs)
    ensures c <= |draws| && (|opts| == Limit(n) || opts0 == [] || c == |draws|)
    ensures opts0 == [] ==> opts == [] && c == 0
  {
    opts, diffs, seen, src := opts0, diffs0, seen0, src0;
    ExtendsRefl(opts, diffs);
    c := 0;
    while |opts| < n && opts != [] && c < |draws|
      invariant c <= |draws|
      invariant Collected(blocks, probes, opts, diffs, seen, src) && |opts| <= Limit(n)
      invariant Extends(opts0, diffs0, opts, diffs)
      invariant ChainFrom(n, Pool(opts, diffs, seen), draws, c) == ChainFrom(n, Pool(opts0, diffs0, seen0), draws, 0)
      decreases |draws| - c
    {
      ghost var opts1, diffs1 := opts, diffs;
      ChainUnfold(n, Pool(opts, diffs, seen), draws, c);
      opts, diffs, seen, src, c := ChainRoundOf(blocks, n, probes, opts, diffs, seen, src, draws, c);
      ExtendsTrans(opts0, diffs0, opts1, diffs1, opts, diffs);
    }
    ChainDone(n, Pool(opts, diffs, seen), draws, c);
    ChainStops(n, Pool(opts0, diffs0, seen0), draws, 0);
  }

  /** One round of phase 3: the `for _ in range(3)` on the last option, left at the first new candidate. */
  method ChainRoundOf(blocks: seq<Block>, n: int, probes: seq<seq<seq<nat>>>,
                      opts0: seq<seq<string>>, diffs0: seq<int>, seen0: set<set<string>>, ghost src0: seq<Source>, draws: seq<Draw>, c0: nat)
    returns (opts: seq<seq<string>>, diffs: seq<int>, seen: set<set<string>>, ghost src: seq<Source>, c: nat)
    requires Collected(blocks, probes, opts0, diffs0, seen0, src0) && 0 < |opts0| < Limit(n)
    requires PenaltiesWithin(draws, 15, 35) && c0 < |draws|
    ensures (Pool(opts, diffs, seen), c) == ChainRound(Pool(opts0, diffs0, seen0), |opts0| - 1, draws, c0, 0)
    ensures Collected(blocks, probes, opts, diffs, seen, src) && |opts| <= Limit(n)
    ensures Extends(opts0, diffs0, opts, diffs)
  {
    opts, diffs, seen, src := opts0, diffs0, seen0, src0;
    ExtendsRefl(opts, diffs);
    c := c0;
    var base := |opts0| - 1;
    var t := 0;
    ghost var start := Pool(opts0, diffs0, seen0);
    while t < 3 && c < |draws|
      invariant c == c0 + t && c <= |draws| && t <= 3
      invariant opts == opts0 && diffs == diffs0 && seen == seen0 && src == src0
      invariant ChainRound(start, base, draws, c, t) == ChainRound(start, base, draws, c0, 0)
    {
      var d := draws[c];
      var score := (if diffs != [] then diffs[|diffs| - 1] else 60) + d.penalty;
      RoundUnfold(start, base, draws, c, t, score);
      var opts', diffs', seen', accepted;
      ghost var src';
      opts', diffs', seen', src', accepted := TrySwap(blocks, n, probes, opts, diffs, seen, src, base, d, score);
      c, t := c + 1, t + 1;
      if accepted {
        opts, diffs, seen, src := opts', diffs', seen', src';
        return;
      }
    }
    RoundDone(start, base, draws, c, t);
  }

  // ---------------------------------------------------------------------------
  // Keeping the invariant
  // ---------------------------------------------------------------------------

  /** Accepting an explained line-up with two new team sets keeps every option distinct. */
  lemma Accept(blocks: seq<Block>, probes: seq<seq<seq<nat>>>, opts: seq<seq<string>>, diffs: seq<int>, seen: set<set<string>>, src: seq<Source>,
               l: seq<string>, d: int, s: Source)
    requires Collected(blocks, probes, opts, diffs, seen, src)
    requires IsFresh(seen, l) && |l| == 10 && FromRoster(blocks, l) && d >= 0
    requires Explained(blocks, probes, opts + [l], diffs + [d], src + [s], |opts|)
    ensures Collected(blocks, probes, opts + [l], diffs + [d], seen + Sides(l), src + [s])
  {
    var opts', diffs', src', seen' := opts + [l], diffs + [d], src + [s], seen + Sides(l);
    forall i | 0 <= i < |opts'|
      ensures Sides(opts'[i]) <= seen'
      ensures |opts'[i]| == 10 && FromRoster(blocks, opts'[i]) && diffs'[i] >= 0
    {
      if i < |opts| {
        assert opts'[i] == opts[i] && diffs'[i] == diffs[i];
      }
    }
    forall i, j | 0 <= i < j < |opts'|
      ensures IsFresh(Sides(opts'[i]), opts'[j])
    {
      assert opts'[i] == opts[i];
      if j < |opts| {
        assert opts'[j] == opts[j];
      } else {
        assert Sides(opts[i]) <= seen;
      }
    }
    forall i | 0 <= i < |opts'|
      ensures Explained(blocks, probes, opts', diffs', src', i)
    {
      if i < |opts| {
        ExplainedExtends(blocks, probes, opts, diffs, src, l, d, s, i);
      }
    }
  }

  lemma ExplainedExtends(blocks: seq<Block>, probes: seq<seq<seq<nat>>>, opts: seq<seq<string>>, diffs: seq<int>, src: seq<Source>,
                         l: seq<string>, d: int, s: Source, i: nat)
    requires i < |opts| == |diffs| == |src| && Explained(blocks, probes, opts, diffs, src, i)
    ensures Explained(blocks, probes, opts + [l], diffs + [d], src + [s], i)
  {
    assert (opts + [l])[i] == opts[i] && (diffs + [d])[i] == diffs[i] && (src + [s])[i] == src[i];
    match src[i]
    case Probe(p, at) =>
    case Swap(j) =>
      assert (opts + [l])[j] == opts[j] && (diffs + [d])[j] == diffs[j];
  }

  /** A fresh swap `l` of option `base`, scored `diffs[base] + penalty`, can be accepted. */
  lemma Derive(blocks: seq<Block>, probes: seq<seq<seq<nat>>>, opts: seq<seq<string>>, diffs: seq<int>, seen: set<set<string>>, src: seq<Source>,
               base: nat, pick1: nat, pick2: nat, score: int, l: seq<string>)
    requires Collected(blocks, probes, opts, diffs, seen, src) && base < |opts|
    requires SmallSwap(opts[base], pick1, pick2) == Some(l) && IsFresh(seen, l)
    requires diffs[base] + 10 <= score <= diffs[base] + 35
    ensures Collected(blocks, probes, opts + [l], diffs + [score], seen + Sides(l), src + [Swap(base)])
  {
    SwapFromRoster(blocks, opts[base], pick1, pick2, l);
    SwapKeepsNames(opts[base], pick1, pick2);
    assert (opts + [l])[base] == opts[base] && (diffs + [score])[base] == diffs[base];
    Accept(blocks, probes, opts, diffs, seen, src, l, score, Swap(base));
  }

  /** A swap only rearranges names, so it stays within the roster and keeps ten slots. */
  lemma SwapFromRoster(blocks: seq<Block>, l0: seq<string>, pick1: nat, pick2: nat, l: seq<string>)
    requires FromRoster(blocks, l0) && |l0| == 10
    requires SmallSwap(l0, pick1, pick2) == Some(l)
    ensures FromRoster(blocks, l) && |l| == 10
  {
    SwapKeepsNames(l0, pick1, pick2);
    forall x | x in l && x != "" ensures x in RosterNames(blocks) {
      assert x in NonBlank(l);
      assert x in multiset(NonBlank(l));
      assert x in NonBlank(l0);
    }
  }

  /** Every non-empty name of a searched line-up belongs to a player of the blocks. */
  lemma LineupFromRoster(blocks: seq<Block>, order: seq<nat>)
    requires ValidOrder(blocks, order)
    ensures FromRoster(blocks, LineupOf(blocks, order))
  {
    var t := Greedy(blocks, order);
    var l := LineupOf(blocks, order);
    GreedyKeepsPlayers(blocks, order);
    forall x | x in l && x != "" ensures x in RosterNames(blocks) {
      var k :| 0 <= k < 10 && l[k] == x;
      var p: Player;
      if k < 5 {
        p := t.e1[k];
        assert p in t.e1 + t.e2;
      } else {
        p := t.e2[k - 5];
        assert (t.e1 + t.e2)[|t.e1| + k - 5] == p;
      }
      assert p in multiset(Flatten(Visit(blocks, order)));
      VisitWithin(blocks, order, p);
    }
  }

  lemma VisitWithin(blocks: seq<Block>, order: seq<nat>, p: Player)
    requires ValidOrder(blocks, order) && p in Flatten(Visit(blocks, order))
    ensures p in Flatten(blocks)
  {
    var vs := Visit(blocks, order);
    FlattenMember(vs, p);
    var i :| 0 <= i < |vs| && p in vs[i];
    FlattenMember(blocks, p);
  }

  /** A player is in the flattening exactly when it is in one of the blocks. */
  lemma {:induction false} FlattenMember(bs: seq<Block>, p: Player)
    ensures p in Flatten(bs) <==> exists i :: 0 <= i < |bs| && p in bs[i]
  {
    if bs != [] {
      FlattenMember(bs[..|bs| - 1], p);
      assert forall i :: 0 <= i < |bs| - 1 ==> bs[..|bs| - 1][i] == bs[i];
    }
  }

  /**
   * A block of more than five players cannot enter team 1, so the lineup of
   * that block alone has an empty team 1 and no draw of the small swap yields
   * a candidate: every round of phase 3 on it adds nothing.
   */
  lemma SwapStallsOnOversizedBlock(b: Block, pick1: nat, pick2: nat)
    requires |b| > Capacity
    ensures SmallSwap(LineupOf([b], [0]), pick1, pick2).None?
  {
    var empty := Greedy([b], []);
    assert [0][..0] == [];
    assert !GoesToTeam1(empty, |b|);
    assert Greedy([b], [0]) == Place(empty, b);
    var l := LineupOf([b], [0]);
    var front := Front(l);
    assert forall i :: 0 <= i < |front| ==> front[i] == "";
    AllBlank(front);
  }

  lemma {:induction false} AllBlank(names: seq<string>)
    requires forall i :: 0 <= i < |names| ==> names[i] == ""
    ensures NonBlank(names) == []
  {
    if names != [] {
      AllBlank(names[..|names| - 1]);
    }
  }
}
