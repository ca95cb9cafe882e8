/** Simplifying the graph loses no value that a reachable block needs. */
module SimplifyUses {
  import opened Collections
  import opened IR
  import SsaPaths
  import opened CfgEdges
  import opened CfgMerge
  import opened CfgUses

  // ---------------------------------------------------------------- freeing a block

  lemma {:induction false} WithoutPredsPairs(g: Graph, ts: seq<nat>, p: nat, v: Value, o: (Value, nat))
    requires AllBelow(ts, |g.blocks|) && v in g.phis && o in WithoutPreds(g, ts, p).phis[v].ops
    ensures o in g.phis[v].ops
    decreases |ts|
  {
    if ts != [] {
      WithoutPredsPairs(WithoutPred(g, ts[0], p), ts[1..], p, v, o);
    }
  }

  /** Apart from b nothing is lost but pairs. */
  lemma FreedParts(g: Graph, b: nat)
    requires b < |g.blocks| && AllBelow(Targets(g.blocks[b]), |g.blocks|)
    ensures var r := BlockFreed(g, b);
            && |r.blocks| == |g.blocks| && r.blocks[b] == BasicBlock([], NoTerm, [], [])
            && (forall x :: 0 <= x < |g.blocks| && x != b ==> r.blocks[x] == g.blocks[x].(preds := r.blocks[x].preds))
            && (forall v :: v in r.phis <==> v in g.phis && g.phis[v].block != b)
            && (forall v :: v in r.phis ==> r.phis[v].block == g.phis[v].block)
            && (forall v, o :: v in r.phis && o in r.phis[v].ops ==> o in g.phis[v].ops)
  {
    hide WithoutPreds, RemoveFirst;
    EmptiedTargets(g, b);
    var h := Emptied(g, b);
    UnterminatedShape(h, b);
    forall v, o | v in h.phis && o in Unterminated(h, b).phis[v].ops
      ensures o in g.phis[v].ops
    {
      WithoutPredsPairs(h, Targets(h.blocks[b]), b, v, o);
    }
  }

  ghost predicate FreedSite(g: Graph, b: nat) {
    Sound(g) && b in g.list && b != 0 && b < |g.blocks| && Isolated(g, b) && AllBelow(Targets(g.blocks[b]), |g.blocks|)
  }

  lemma NoEdgeTo(g: Graph, b: nat)
    requires FreedSite(g, b)
    ensures forall y: nat :: y < |g.blocks| && y != b ==> b !in Targets(g.blocks[y])
  {
    hide PhisOk, ListOk, Targets;
    forall y: nat | y < |g.blocks| && y != b
      ensures b !in Targets(g.blocks[y])
    {
      InPreds(g, y, b);
    }
  }

  /** The freed block could not be reached, and the others are as before. */
  lemma FreedReach(g: Graph, b: nat, x: nat)
    requires FreedSite(g, b)
    ensures !Reachable(g, b) && (Reachable(BlockFreed(g, b), x) <==> Reachable(g, x))
  {
    hide Sound, Isolated, BlockFreed, AllBelow;
    NoEdgeTo(g, b);
    FreedParts(g, b);
    var r := BlockFreed(g, b);
    EntryExists(g);
    BelowCard(|g.blocks|);
    TargetsBelow(g, b);
    var others := Below(|g.blocks|) - {b};
    assert Closed(g, others) && 0 in others;
    if Reachable(r, x) {
      forall S: set<nat> | 0 in S && Closed(g, S)
        ensures x in S
      {
        FreedClosed(g, b, S);
        assert x in S - {b};
      }
    }
    if Reachable(g, x) {
      forall S: set<nat> | 0 in S && Closed(r, S)
        ensures x in S
      {
        FreedClosedBack(g, b, S);
        assert x in S - {b};
      }
    }
  }

  lemma EntryExists(g: Graph)
    requires Sound(g)
    ensures |g.blocks| > 0
  {
    assert g.list[0] in g.list;
  }

  lemma TargetsBelow(g: Graph, b: nat)
    requires FreedSite(g, b)
    ensures forall y: nat, t :: y < |g.blocks| && t in Targets(g.blocks[y]) ==> t < |g.blocks|
  {
    hide PhisOk, ListOk, Targets, EdgesOk;
    forall y: nat, t | y < |g.blocks| && t in Targets(g.blocks[y])
      ensures t < |g.blocks|
    {
      TargetsInRange(g, y);
    }
  }

  lemma FreedClosed(g: Graph, b: nat, S: set<nat>)
    requires FreedSite(g, b) && Closed(g, S)
    ensures Closed(BlockFreed(g, b), S - {b})
  {
    hide Sound, Isolated, BlockFreed, AllBelow;
    NoEdgeTo(g, b);
    FreedParts(g, b);
    forall y | y in S - {b}
      ensures y < |g.blocks| && TargetsIn(BlockFreed(g, b), y, S - {b})
    {
      assert TargetsIn(g, y, S);
    }
  }

  lemma FreedClosedBack(g: Graph, b: nat, S: set<nat>)
    requires FreedSite(g, b) && Closed(BlockFreed(g, b), S)
    ensures Closed(g, S - {b})
  {
    hide Sound, Isolated, BlockFreed, AllBelow;
    NoEdgeTo(g, b);
    FreedParts(g, b);
    forall y | y in S - {b}
      ensures y < |g.blocks| && TargetsIn(g, y, S - {b})
    {
      assert TargetsIn(BlockFreed(g, b), y, S);
    }
  }

  lemma FreedUses(g0: Graph, g: Graph, b: nat)
    requires FreedSite(g, b) && UsesDefined(g0, g)
    ensures UsesDefined(g0, BlockFreed(g, b))
  {
    hide Sound, Isolated, AllBelow, BlockFreed, Reachable, Defined;
    var r := BlockFreed(g, b);
    forall v, y | Defined(g0, v) && UsedAt(r, v, y) && Reachable(r, y)
      ensures HasReachableDef(r, v)
    {
      FreedReach(g, b, y);
      FreedUsedAt(g, b, v, y);
      var x: nat :| DefinedIn(g, v, x) && Reachable(g, x);
      FreedReach(g, b, x);
      FreedDefined(g, b, v, x);
    }
  }

  lemma FreedUsedAt(g: Graph, b: nat, v: Value, y: nat)
    requires FreedSite(g, b) && UsedAt(BlockFreed(g, b), v, y) && y != b
    ensures UsedAt(g, v, y)
  {
    hide Sound, Isolated, BlockFreed, AllBelow;
    FreedParts(g, b);
    var r := BlockFreed(g, b);
    if y < |r.blocks| && UsedInBlock(r.blocks[y], v) {
      assert UsedInBlock(g.blocks[y], v);
    } else {
      var u :| u in r.phis && (v, y) in r.phis[u].ops;
      assert (v, y) in g.phis[u].ops;
    }
  }

  lemma FreedDefined(g: Graph, b: nat, v: Value, x: nat)
    requires FreedSite(g, b) && DefinedIn(g, v, x) && x != b
    ensures DefinedIn(BlockFreed(g, b), v, x)
  {
    hide Sound, Isolated, BlockFreed, AllBelow;
    FreedParts(g, b);
  }

  // ---------------------------------------------------------------- merging

  lemma MergedReach(g: Graph, b: nat, x: nat)
    requires Merges(g, b) && MergeRanges(g, b)
    ensures Reachable(g, b) <==> Reachable(g, g.blocks[b].preds[0])
    ensures Reachable(Merged(g, b), x) <==> Reachable(g, x) && x != b
  {
    hide Sound, CanMerge, Merged, AllBelow;
    MergeReady(g, b);
    MergedShape(g, b);
    var r, p := Merged(g, b), g.blocks[b].preds[0];
    if Reachable(g, b) {
      forall S: set<nat> | 0 in S && Closed(g, S)
        ensures p in S
      {
        if p !in S {
          WithoutLast(g, b, S);
        }
      }
    }
    if Reachable(g, p) {
      forall S: set<nat> | 0 in S && Closed(g, S)
        ensures b in S
      {
        assert TargetsIn(g, p, S) && b in Targets(g.blocks[p]);
      }
    }
    if Reachable(r, x) {
      forall S: set<nat> | 0 in S && Closed(g, S)
        ensures x in S && x != b
      {
        MergedClosed(g, b, S);
        assert x in S - {b};
      }
      MergedNotB(g, b, x);
    }
    if Reachable(g, x) && x != b {
      forall S: set<nat> | 0 in S && Closed(r, S)
        ensures x in S
      {
        MergedClosedBack(g, b, S);
        assert x in S - {b} + if p in S then {b} else {};
      }
    }
  }

  ghost predicate MergeRanges(g: Graph, b: nat) {
    && b < |g.blocks| && g.blocks[b].term.HasTerm? && |g.blocks[b].preds| == 1 && g.blocks[b].preds[0] < |g.blocks|
    && AllBelow(Targets(g.blocks[g.blocks[b].preds[0]]), |g.blocks|) && AllBelow(Targets(g.blocks[b]), |g.blocks|)
  }

  lemma MergedNotB(g: Graph, b: nat, x: nat)
    requires Merges(g, b) && MergeRanges(g, b) && Reachable(Merged(g, b), x)
    ensures x != b
  {
    hide Sound, CanMerge, Merged, AllBelow;
    BelowCard(|g.blocks|);
    AllClosed(g, b);
    MergedClosed(g, b, Below(|g.blocks|));
    assert x in Below(|g.blocks|) - {b};
  }

  lemma AllClosed(g: Graph, b: nat)
    requires Merges(g, b)
    ensures Closed(g, Below(|g.blocks|)) && 0 in Below(|g.blocks|)
  {
    hide PhisOk, EdgesOk, CanMerge, Targets;
    BelowCard(|g.blocks|);
    EntryExists(g);
    forall y | y in Below(|g.blocks|)
      ensures TargetsIn(g, y, Below(|g.blocks|))
    {
      TargetsInRange(g, y);
    }
  }

  lemma WithoutLast(g: Graph, b: nat, S: set<nat>)
    requires Merges(g, b) && Closed(g, S) && g.blocks[b].preds[0] !in S
    ensures Closed(g, S - {b}) && (0 in S ==> 0 in S - {b})
  {
    hide Sound, CanMerge, AllBelow;
    MergeReady(g, b);
    forall y | y in S - {b}
      ensures TargetsIn(g, y, S - {b})
    {
      assert TargetsIn(g, y, S);
    }
  }

  lemma MergedClosed(g: Graph, b: nat, S: set<nat>)
    requires Merges(g, b) && MergeRanges(g, b) && Closed(g, S)
    ensures Closed(Merged(g, b), S - {b})
  {
    hide Sound, CanMerge, Merged, AllBelow;
    MergeReady(g, b);
    MergedShape(g, b);
    var p := g.blocks[b].preds[0];
    forall y | y in S - {b}
      ensures y < |g.blocks| && TargetsIn(Merged(g, b), y, S - {b})
    {
      assert TargetsIn(g, y, S);
      if y == p {
        assert b in Targets(g.blocks[p]);
        assert TargetsIn(g, b, S);
      }
    }
  }

  lemma MergedClosedBack(g: Graph, b: nat, S: set<nat>)
    requires Merges(g, b) && MergeRanges(g, b) && Closed(Merged(g, b), S)
    ensures Closed(g, S - {b} + if g.blocks[b].preds[0] in S then {b} else {})
  {
    hide Sound, CanMerge, Merged, AllBelow;
    MergeReady(g, b);
    MergedShape(g, b);
    var r, p := Merged(g, b), g.blocks[b].preds[0];
    var S' := S - {b} + if p in S then {b} else {};
    forall y | y in S'
      ensures y < |g.blocks| && TargetsIn(g, y, S')
    {
      if y == b {
        assert TargetsIn(r, p, S);
      } else if y != p {
        assert TargetsIn(r, y, S);
      }
    }
  }

  lemma MergedUses(g0: Graph, g: Graph, b: nat)
    requires Merges(g, b) && MergeRanges(g, b) && UsesDefined(g0, g)
    ensures UsesDefined(g0, Merged(g, b))
  {
    hide Sound, CanMerge, Merged, Reachable, Defined, DefinedIn, UsedAt, AllBelow;
    var r, p := Merged(g, b), g.blocks[b].preds[0];
    forall v, y | Defined(g0, v) && UsedAt(r, v, y) && Reachable(r, y)
      ensures HasReachableDef(r, v)
    {
      MergedReach(g, b, y);
      MergedUsedAt(g, b, v, y);
      assert HasReachableDef(g, v);
      var x: nat :| DefinedIn(g, v, x) && Reachable(g, x);
      MergedReach(g, b, x);
      MergedReach(g, b, p);
      MergedDefined(g, b, v, x);
    }
  }

  /** What the merged block needs, one of the two needed. */
  lemma MergedUsedAt(g: Graph, b: nat, v: Value, y: nat)
    requires Merges(g, b) && MergeRanges(g, b) && UsedAt(Merged(g, b), v, y) && y != b
    ensures UsedAt(g, v, y) || (y == g.blocks[b].preds[0] && UsedAt(g, v, b))
  {
    hide Sound, CanMerge, Merged, AllBelow;
    MergeReady(g, b);
    MergedShape(g, b);
    var r, p := Merged(g, b), g.blocks[b].preds[0];
    if y < |r.blocks| && UsedInBlock(r.blocks[y], v) {
      if y == p {
        JoinedUse(g.blocks[p], g.blocks[b], r.blocks[p], v);
      } else {
        assert UsedInBlock(g.blocks[y], v);
      }
    } else {
      var u :| u in r.phis && (v, y) in r.phis[u].ops;
      var ops := g.phis[u].ops;
      var i :| 0 <= i < |ops| && RenamePairs(ops, b, p)[i] == (v, y);
      assert ops[i] in ops;
    }
  }

  lemma JoinedUse(k: BasicBlock, l: BasicBlock, j: BasicBlock, v: Value)
    requires j.body == k.body + l.body && j.term == l.term && UsedInBlock(j, v)
    ensures UsedInBlock(k, v) || UsedInBlock(l, v)
  {
    hide SsaPaths.UsedBy, SsaPaths.UsedByTerm;
    if i :| 0 <= i < |j.body| && SsaPaths.UsedBy(j.body[i], v) {
      if i < |k.body| {
        assert SsaPaths.UsedBy(k.body[i], v);
      } else {
        assert SsaPaths.UsedBy(l.body[i - |k.body|], v);
      }
    }
  }

  lemma MergedDefined(g: Graph, b: nat, v: Value, x: nat)
    requires Merges(g, b) && MergeRanges(g, b) && DefinedIn(g, v, x)
    ensures DefinedIn(Merged(g, b), v, if x == b then g.blocks[b].preds[0] else x)
  {
    hide Sound, Merged, AllBelow;
    MergeReady(g, b);
    MergedShape(g, b);
    var r, p := Merged(g, b), g.blocks[b].preds[0];
    if v in g.phis && g.phis[v].block == x {
    } else {
      var i :| 0 <= i < |g.blocks[x].body| && SsaPaths.Defines(g.blocks[x].body[i], v);
      if x == b {
        assert r.blocks[p].body[|g.blocks[p].body| + i] == g.blocks[b].body[i];
      } else if x == p {
        assert r.blocks[p].body[i] == g.blocks[p].body[i];
      }
    }
  }
}
