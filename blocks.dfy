/**
 * equipos.py, `construir_bloques`: players tagged with the same `bloque`
 * (a duo or a trio chosen by the admin) form one block that must stay on one
 * team; untagged players are blocks of one. Blocks are sorted by size, then by
 * rating sum, both descending.
 */
module Blocks {
  import opened Wrappers
  import opened Sorting

  /** One enrolled player: display name, current rating, and the `bloque` tag as `str(bloque)`. */
  datatype Player = Player(name: string, elo: int, tag: Option<string>)

  type Block = seq<Player>

  /** The grouping key: `None` for a missing or empty tag, the tag's text otherwise. */
  function GroupKey(p: Player): (k: Option<string>)
    ensures k.Some? <==> p.tag.Some? && p.tag.value != ""
    ensures k.Some? ==> k == p.tag
  {
    if p.tag.None? || p.tag.value == "" then None else p.tag
  }

  /** Sum of the ratings of a list of players. */
  function Rating(s: seq<Player>): int
  {
    if s == [] then 0 else Rating(s[..|s| - 1]) + s[|s| - 1].elo
  }

  /** The players of a list of blocks, block after block. */
  function Flatten(bs: seq<Block>): seq<Player>
  {
    if bs == [] then [] else Flatten(bs[..|bs| - 1]) + bs[|bs| - 1]
  }

  function Names(s: seq<Player>): (r: seq<string>)
    ensures |r| == |s| && forall i :: 0 <= i < |s| ==> r[i] == s[i].name
  {
    if s == [] then [] else Names(s[..|s| - 1]) + [s[|s| - 1].name]
  }

  function TagOf(b: Block): Option<string>
  {
    if b == [] then None else GroupKey(b[0])
  }

  /** A block as the builder makes it: non-empty, one key for all, and a single player when untagged. */
  predicate WellFormed(b: Block)
  {
    b != [] &&
    (forall i :: 0 <= i < |b| ==> GroupKey(b[i]) == GroupKey(b[0])) &&
    (GroupKey(b[0]) == None ==> |b| == 1)
  }

  /** How many blocks carry the tag `k`. */
  function TagCount(bs: seq<Block>, k: string): nat
  {
    if bs == [] then 0
    else TagCount(bs[..|bs| - 1], k) + (if TagOf(bs[|bs| - 1]) == Some(k) then 1 else 0)
  }

  /** The sort key of `construir_bloques`: `(-len(bl), -sum(elo))`. */
  function BlockRank(b: Block): Rank
  {
    Rank(-|b|, -Rating(b))
  }

  function Singletons(s: seq<Player>): (r: seq<Block>)
    ensures |r| == |s| && forall i :: 0 <= i < |s| ==> r[i] == [s[i]]
  {
    if s == [] then [] else Singletons(s[..|s| - 1]) + [[s[|s| - 1]]]
  }

  /**
   * `construir_bloques`: one pass fills the groups (in order of first
   * appearance, as a Python dict keeps them) and the list of singles, then the
   * blocks are sorted.
   */
  method BuildBlocks(players: seq<Player>) returns (blocks: seq<Block>)
    ensures multiset(Flatten(blocks)) == multiset(players)
    ensures forall i :: 0 <= i < |blocks| ==> WellFormed(blocks[i])
    ensures forall k :: TagCount(blocks, k) <= 1
    ensures forall i, j :: 0 <= i < j < |blocks| ==>
      |blocks[i]| > |blocks[j]| || (|blocks[i]| == |blocks[j]| && Rating(blocks[i]) >= Rating(blocks[j]))
  {
    var groups, singles := GroupPlayers(players);
    var unsorted := groups + Singletons(singles);
    JoinGroupsAndSingles(groups, singles);
    blocks := SortBy(unsorted, BlockRank);
    SortedBlocks(unsorted);
  }

  /** `list(grupos.values()) + [[j] for j in singles]` keeps the players, the well-formedness and the one-block-per-tag property. */
  lemma JoinGroupsAndSingles(groups: seq<Block>, singles: seq<Player>)
    requires forall g :: 0 <= g < |groups| ==> WellFormed(groups[g]) && TagOf(groups[g]).Some?
    requires forall k :: TagCount(groups, k) <= 1
    requires forall j :: 0 <= j < |singles| ==> GroupKey(singles[j]) == None
    ensures var unsorted := groups + Singletons(singles);
      && multiset(Flatten(unsorted)) == multiset(Flatten(groups)) + multiset(singles)
      && (forall i :: 0 <= i < |unsorted| ==> WellFormed(unsorted[i]))
      && (forall k :: TagCount(unsorted, k) <= 1)
  {
    var unsorted := groups + Singletons(singles);
    forall k ensures TagCount(unsorted, k) <= 1 {
      TagCountConcat(groups, Singletons(singles), k);
      TagCountUntagged(singles, k);
    }
    FlattenConcat(groups, Singletons(singles));
    FlattenSingletons(singles);
    forall i | 0 <= i < |unsorted| ensures WellFormed(unsorted[i]) {
      if i >= |groups| {
        assert unsorted[i] == [singles[i - |groups|]];
      }
    }
  }

  /** The loop of `construir_bloques` that fills `grupos` and `singles`. */
  method GroupPlayers(players: seq<Player>) returns (groups: seq<Block>, singles: seq<Player>)
    ensures forall g :: 0 <= g < |groups| ==> WellFormed(groups[g]) && TagOf(groups[g]).Some?
    ensures forall k :: TagCount(groups, k) <= 1
    ensures forall j :: 0 <= j < |singles| ==> GroupKey(singles[j]) == None
    ensures multiset(Flatten(groups)) + multiset(singles) == multiset(players)
  {
    groups, singles := [], [];
    var index: map<string, nat> := map[];
    for i := 0 to |players|
      invariant Grouping(groups, index, singles)
      invariant multiset(Flatten(groups)) + multiset(singles) == multiset(players[..i])
    {
      assert players[..i + 1] == players[..i] + [players[i]];
      groups, index, singles := AddPlayer(groups, index, singles, players[i]);
    }
    assert players[..|players|] == players;
    CountsAtMostOne(groups, index);
  }

  /** One iteration of the loop: `singles.append(j)` or `grupos[str(b)].append(j)`. */
  method AddPlayer(groups: seq<Block>, index: map<string, nat>, singles: seq<Player>, p: Player)
    returns (groups': seq<Block>, index': map<string, nat>, singles': seq<Player>)
    requires Grouping(groups, index, singles)
    ensures Grouping(groups', index', singles')
    ensures multiset(Flatten(groups')) + multiset(singles') == multiset(Flatten(groups)) + multiset(singles) + multiset{p}
  {
    groups', index', singles' := groups, index, singles;
    var key := GroupKey(p);
    if key == None {
      AddSingle(groups, index, singles, p);
      singles' := singles + [p];
    } else if key.value in index {
      var g := index[key.value];
      AddToGroup(groups, index, singles, g, p);
      groups' := groups[g := groups[g] + [p]];
    } else {
      NewGroup(groups, index, singles, p);
      index' := index[key.value := |groups|];
      groups' := groups + [[p]];
    }
  }

  lemma AddSingle(groups: seq<Block>, index: map<string, nat>, singles: seq<Player>, p: Player)
    requires Grouping(groups, index, singles) && GroupKey(p) == None
    ensures Grouping(groups, index, singles + [p])
  {
  }

  lemma CountsAtMostOne(groups: seq<Block>, index: map<string, nat>)
    requires CountsMatchIndex(groups, index)
    ensures forall k :: TagCount(groups, k) <= 1
  {
  }

  /**
   * The state of the grouping loop: `index` maps each tag seen so far to its
   * group, every group is well formed and tagged, each tag has exactly one
   * group, and the singles are untagged.
   */
  ghost predicate Grouping(groups: seq<Block>, index: map<string, nat>, singles: seq<Player>)
  {
    IndexPointsToGroups(groups, index) &&
    (forall g :: 0 <= g < |groups| ==> WellFormed(groups[g]) && TagOf(groups[g]).Some?) &&
    CountsMatchIndex(groups, index) &&
    (forall j :: 0 <= j < |singles| ==> GroupKey(singles[j]) == None)
  }

  ghost predicate IndexPointsToGroups(groups: seq<Block>, index: map<string, nat>)
  {
    forall k :: k in index ==> index[k] < |groups| && TagOf(groups[index[k]]) == Some(k)
  }

  ghost predicate CountsMatchIndex(groups: seq<Block>, index: map<string, nat>)
  {
    forall k :: TagCount(groups, k) == if k in index then 1 else 0
  }

  lemma AddToGroup(groups: seq<Block>, index: map<string, nat>, singles: seq<Player>, g: nat, p: Player)
    requires Grouping(groups, index, singles)
    requires GroupKey(p).Some? && GroupKey(p).value in index && g == index[GroupKey(p).value]
    ensures Grouping(groups[g := groups[g] + [p]], index, singles)
    ensures multiset(Flatten(groups[g := groups[g] + [p]])) == multiset(Flatten(groups)) + multiset{p}
  {
    GrowGroup(groups[g], p);
    ReplaceGroup(groups, index, g, groups[g] + [p], groups[g := groups[g] + [p]]);
    FlattenUpdate(groups, g, p);
  }

  /** A player with a block's tag joins it and keeps it well formed. */
  lemma GrowGroup(b: Block, p: Player)
    requires WellFormed(b) && TagOf(b).Some? && GroupKey(p) == TagOf(b)
    ensures WellFormed(b + [p]) && TagOf(b + [p]) == TagOf(b)
  {
  }

  /** Replacing a group by a well-formed block with the same tag keeps the index right. */
  lemma ReplaceGroup(groups: seq<Block>, index: map<string, nat>, g: nat, b: Block, groups': seq<Block>)
    requires IndexPointsToGroups(groups, index) && CountsMatchIndex(groups, index)
    requires forall h :: 0 <= h < |groups| ==> WellFormed(groups[h]) && TagOf(groups[h]).Some?
    requires g < |groups| && WellFormed(b) && TagOf(b) == TagOf(groups[g]) && groups' == groups[g := b]
    ensures IndexPointsToGroups(groups', index) && CountsMatchIndex(groups', index)
    ensures forall h :: 0 <= h < |groups'| ==> WellFormed(groups'[h]) && TagOf(groups'[h]).Some?
  {
    forall k ensures TagCount(groups', k) == TagCount(groups, k) {
      TagCountUpdate(groups, g, b, k);
    }
  }

  lemma NewGroup(groups: seq<Block>, index: map<string, nat>, singles: seq<Player>, p: Player)
    requires Grouping(groups, index, singles)
    requires GroupKey(p).Some? && GroupKey(p).value !in index
    ensures Grouping(groups + [[p]], index[GroupKey(p).value := |groups|], singles)
    ensures Flatten(groups + [[p]]) == Flatten(groups) + [p]
  {
    NewGroupIndex(groups, index, p);
    NewGroupCounts(groups, index, p);
    var groups' := groups + [[p]];
    assert groups'[..|groups|] == groups;
    forall g | 0 <= g < |groups'| ensures WellFormed(groups'[g]) && TagOf(groups'[g]).Some? {
      if g < |groups| {
        assert groups'[g] == groups[g];
      }
    }
  }

  lemma NewGroupIndex(groups: seq<Block>, index: map<string, nat>, p: Player)
    requires IndexPointsToGroups(groups, index)
    requires GroupKey(p).Some?
    ensures IndexPointsToGroups(groups + [[p]], index[GroupKey(p).value := |groups|])
  {
    var groups' := groups + [[p]];
    var index' := index[GroupKey(p).value := |groups|];
    forall k | k in index' ensures index'[k] < |groups'| && TagOf(groups'[index'[k]]) == Some(k) {
      if k != GroupKey(p).value {
        assert groups'[index[k]] == groups[index[k]];
      }
    }
  }

  lemma NewGroupCounts(groups: seq<Block>, index: map<string, nat>, p: Player)
    requires CountsMatchIndex(groups, index)
    requires GroupKey(p).Some? && GroupKey(p).value !in index
    ensures CountsMatchIndex(groups + [[p]], index[GroupKey(p).value := |groups|])
  {
    forall k ensures TagCount(groups + [[p]], k) == if k in index[GroupKey(p).value := |groups|] then 1 else 0 {
      TagCountSnoc(groups, [p], k);
    }
  }

  lemma TagCountSnoc(bs: seq<Block>, b: Block, k: string)
    ensures TagCount(bs + [b], k) == TagCount(bs, k) + (if TagOf(b) == Some(k) then 1 else 0)
  {
    assert (bs + [b])[..|bs|] == bs;
  }

  /** Sorting keeps the players, the well-formed blocks and the tag counts, and orders the blocks. */
  lemma SortedBlocks(unsorted: seq<Block>)
    requires forall i :: 0 <= i < |unsorted| ==> WellFormed(unsorted[i])
    ensures var blocks := SortBy(unsorted, BlockRank);
      && multiset(Flatten(blocks)) == multiset(Flatten(unsorted))
      && (forall i :: 0 <= i < |blocks| ==> WellFormed(blocks[i]))
      && (forall k :: TagCount(blocks, k) == TagCount(unsorted, k))
      && (forall i, j :: 0 <= i < j < |blocks| ==>
           |blocks[i]| > |blocks[j]| || (|blocks[i]| == |blocks[j]| && Rating(blocks[i]) >= Rating(blocks[j])))
  {
    var blocks := SortBy(unsorted, BlockRank);
    SortPermutes(unsorted, BlockRank);
    SortSorts(unsorted, BlockRank);
    SortKeepsTagCount(unsorted);
    SortKeepsFlatten(unsorted);
    forall i | 0 <= i < |blocks| ensures WellFormed(blocks[i]) {
      assert blocks[i] in multiset(unsorted);
    }
    forall i, j | 0 <= i < j < |blocks|
      ensures |blocks[i]| > |blocks[j]| || (|blocks[i]| == |blocks[j]| && Rating(blocks[i]) >= Rating(blocks[j]))
    {
      assert RankLe(BlockRank(blocks[i]), BlockRank(blocks[j]));
    }
  }

  // ---------------------------------------------------------------------------
  // Lemmas about blocks
  // ---------------------------------------------------------------------------

  /**
   * What the tag counts mean for players: two players with the same non-empty
   * tag are in the same block.
   */
  lemma SameTagSameBlock(bs: seq<Block>, i: nat, j: nat, x: nat, y: nat)
    requires forall b :: 0 <= b < |bs| ==> WellFormed(bs[b])
    requires forall k :: TagCount(bs, k) <= 1
    requires i < |bs| && j < |bs| && x < |bs[i]| && y < |bs[j]|
    requires GroupKey(bs[i][x]).Some? && GroupKey(bs[i][x]) == GroupKey(bs[j][y])
    ensures i == j
  {
    if i != j {
      var k := GroupKey(bs[i][x]).value;
      if i < j { TagCountTwo(bs, i, j, k); } else { TagCountTwo(bs, j, i, k); }
      assert false;
    }
  }

  lemma {:induction false} TagCountTwo(bs: seq<Block>, i: nat, j: nat, k: string)
    requires i < j < |bs| && TagOf(bs[i]) == Some(k) && TagOf(bs[j]) == Some(k)
    ensures TagCount(bs, k) >= 2
  {
    var init := bs[..|bs| - 1];
    if j < |bs| - 1 {
      TagCountTwo(init, i, j, k);
    } else {
      TagCountAtLeastOne(init, i, k);
    }
  }

  lemma {:induction false} TagCountAtLeastOne(bs: seq<Block>, i: nat, k: string)
    requires i < |bs| && TagOf(bs[i]) == Some(k)
    ensures TagCount(bs, k) >= 1
  {
    if i < |bs| - 1 {
      TagCountAtLeastOne(bs[..|bs| - 1], i, k);
    }
  }

  lemma {:induction false} TagCountUpdate(bs: seq<Block>, g: nat, b: Block, k: string)
    requires g < |bs| && TagOf(b) == TagOf(bs[g])
    ensures TagCount(bs[g := b], k) == TagCount(bs, k)
  {
    var n := |bs| - 1;
    if g < n {
      assert bs[g := b][..n] == bs[..n][g := b];
      TagCountUpdate(bs[..n], g, b, k);
    } else {
      assert bs[g := b][..n] == bs[..n];
    }
  }

  lemma {:induction false} TagCountConcat(a: seq<Block>, b: seq<Block>, k: string)
    ensures TagCount(a + b, k) == TagCount(a, k) + TagCount(b, k)
  {
    if b == [] {
      assert a + b == a;
    } else {
      assert (a + b)[..|a + b| - 1] == a + b[..|b| - 1];
      TagCountConcat(a, b[..|b| - 1], k);
    }
  }

  lemma {:induction false} TagCountUntagged(s: seq<Player>, k: string)
    requires forall j :: 0 <= j < |s| ==> GroupKey(s[j]) == None
    ensures TagCount(Singletons(s), k) == 0
  {
    if s != [] {
      assert Singletons(s)[..|s| - 1] == Singletons(s[..|s| - 1]);
      TagCountUntagged(s[..|s| - 1], k);
    }
  }

  lemma {:induction false} SortKeepsTagCount(bs: seq<Block>)
    ensures forall k :: TagCount(SortBy(bs, BlockRank), k) == TagCount(bs, k)
  {
    if bs != [] {
      SortKeepsTagCount(bs[1..]);
      forall k ensures TagCount(SortBy(bs, BlockRank), k) == TagCount(bs, k) {
        InsertTagCount(bs[0], SortBy(bs[1..], BlockRank), k);
        TagCountCons(bs[0], bs[1..], k);
        assert bs == [bs[0]] + bs[1..];
      }
    }
  }

  /** Inserting a block counts its tag once more. */
  lemma InsertTagCount(x: Block, t: seq<Block>, k: string)
    ensures TagCount(Insert(x, t, BlockRank), k) == TagCount(t, k) + TagCount([x], k)
  {
    var p := InsertPos(x, t, BlockRank);
    assert t == t[..p] + t[p..];
    TagCountConcat(t[..p] + [x], t[p..], k);
    TagCountConcat(t[..p], [x], k);
    TagCountConcat(t[..p], t[p..], k);
  }

  lemma TagCountCons(x: Block, bs: seq<Block>, k: string)
    ensures TagCount([x] + bs, k) == TagCount([x], k) + TagCount(bs, k)
  {
    TagCountConcat([x], bs, k);
  }

  lemma {:induction false} FlattenConcat(a: seq<Block>, b: seq<Block>)
    ensures Flatten(a + b) == Flatten(a) + Flatten(b)
  {
    if b == [] {
      assert a + b == a;
    } else {
      var init, last := b[..|b| - 1], b[|b| - 1];
      assert (a + b)[..|a + b| - 1] == a + init;
      assert (a + b)[|a + b| - 1] == last;
      assert Flatten(a + b) == Flatten(a + init) + last;
      FlattenConcat(a, init);
      assert Flatten(b) == Flatten(init) + last;
      assert Flatten(a) + Flatten(init) + last == Flatten(a) + (Flatten(init) + last);
    }
  }

  lemma {:induction false} FlattenUpdate(bs: seq<Block>, g: nat, p: Player)
    requires g < |bs|
    ensures multiset(Flatten(bs[g := bs[g] + [p]])) == multiset(Flatten(bs)) + multiset{p}
  {
    var n := |bs| - 1;
    if g < n {
      assert bs[g := bs[g] + [p]][..n] == bs[..n][g := bs[..n][g] + [p]];
      FlattenUpdate(bs[..n], g, p);
    } else {
      assert bs[g := bs[g] + [p]][..n] == bs[..n];
    }
  }

  lemma {:induction false} FlattenSingletons(s: seq<Player>)
    ensures Flatten(Singletons(s)) == s
  {
    if s != [] {
      assert Singletons(s)[..|s| - 1] == Singletons(s[..|s| - 1]);
      FlattenSingletons(s[..|s| - 1]);
    }
  }

  lemma {:induction false} SortKeepsFlatten(bs: seq<Block>)
    ensures multiset(Flatten(SortBy(bs, BlockRank))) == multiset(Flatten(bs))
  {
    if bs != [] {
      SortKeepsFlatten(bs[1..]);
      InsertFlatten(bs[0], SortBy(bs[1..], BlockRank));
      FlattenCons(bs[0], bs[1..]);
      assert bs == [bs[0]] + bs[1..];
    }
  }

  /** Inserting a block into a sorted list adds exactly its players. */
  lemma InsertFlatten(x: Block, t: seq<Block>)
    ensures multiset(Flatten(Insert(x, t, BlockRank))) == multiset(Flatten(t)) + multiset(x)
  {
    var p := InsertPos(x, t, BlockRank);
    assert t[..p] + t[p..] == t;
    FlattenInsertion(t[..p], x, t[p..]);
  }

  /** Putting a block anywhere adds exactly its players. */
  lemma FlattenInsertion(before: seq<Block>, x: Block, after: seq<Block>)
    ensures multiset(Flatten(before + [x] + after)) == multiset(Flatten(before + after)) + multiset(x)
  {
    FlattenConcat(before + [x], after);
    FlattenConcat(before, [x]);
    FlattenConcat(before, after);
    assert [x][..0] == [];
  }

  lemma FlattenCons(x: Block, bs: seq<Block>)
    ensures Flatten([x] + bs) == x + Flatten(bs)
  {
    FlattenConcat([x], bs);
    assert [x][..0] == [];
  }

  lemma {:induction false} RatingConcat(a: seq<Player>, b: seq<Player>)
    ensures Rating(a + b) == Rating(a) + Rating(b)
  {
    if b == [] {
      assert a + b == a;
    } else {
      assert (a + b)[..|a + b| - 1] == a + b[..|b| - 1];
      RatingConcat(a, b[..|b| - 1]);
    }
  }

  lemma {:induction false} NamesConcat(a: seq<Player>, b: seq<Player>)
    ensures Names(a + b) == Names(a) + Names(b)
  {
  }
}
