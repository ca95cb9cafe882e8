/** Uses and definitions in a graph, and which blocks can be reached. */
module CfgUses {
  import opened Collections
  import opened IR
  import SsaPaths
  import opened CfgEdges

  // ---------------------------------------------------------------- uses and definitions

  predicate UsedInBlock(k: BasicBlock, v: Value) {
    (exists i :: 0 <= i < |k.body| && SsaPaths.UsedBy(k.body[i], v)) ||
      (k.term.HasTerm? && SsaPaths.UsedByTerm(k.term.t, v))
  }

  predicate UsedByPhi(phi: Phi, v: Value) {
    exists i :: 0 <= i < |phi.ops| && phi.ops[i].0 == v
  }

  predicate HasUses(g: Graph, v: Value) {
    (exists b :: 0 <= b < |g.blocks| && UsedInBlock(g.blocks[b], v)) ||
      exists u :: u in g.phis && UsedByPhi(g.phis[u], v)
  }

  /** Block b needs the value: inside, or at its end for a phi of a successor. */
  ghost predicate UsedAt(g: Graph, v: Value, b: nat) {
    (b < |g.blocks| && UsedInBlock(g.blocks[b], v)) || exists u :: u in g.phis && (v, b) in g.phis[u].ops
  }

  ghost predicate DefinedIn(g: Graph, v: Value, x: nat) {
    x < |g.blocks| && ((v in g.phis && g.phis[v].block == x) ||
      exists i :: 0 <= i < |g.blocks[x].body| && SsaPaths.Defines(g.blocks[x].body[i], v))
  }

  ghost predicate Defined(g: Graph, v: Value) {
    exists x: nat :: DefinedIn(g, v, x)
  }

  // ---------------------------------------------------------------- reachability

  ghost predicate TargetsIn(g: Graph, b: nat, S: set<nat>)
    requires b < |g.blocks|
  {
    forall t :: t in Targets(g.blocks[b]) ==> t in S
  }

  ghost predicate Closed(g: Graph, S: set<nat>) {
    forall b :: b in S ==> b < |g.blocks| && TargetsIn(g, b, S)
  }

  /** In every set that has the entry and all targets of its members. */
  ghost predicate Reachable(g: Graph, x: nat) {
    forall S: set<nat> :: 0 in S && Closed(g, S) ==> x in S
  }

  ghost predicate IsWalk(g: Graph, path: seq<nat>, b: nat) {
    && |path| > 0 && path[0] == 0 && path[|path| - 1] == b
    && (forall i :: 0 <= i < |path| ==> path[i] < |g.blocks|)
    && (forall i, j :: 0 <= i < |path| - 1 && j == i + 1 ==> path[j] in Targets(g.blocks[path[i]]))
  }

  ghost predicate HasWalk(g: Graph, b: nat) {
    exists path :: IsWalk(g, path, b)
  }

  lemma WalkOn(g: Graph, path: seq<nat>, b: nat, t: nat)
    requires EdgesOk(g) && IsWalk(g, path, b) && t in Targets(g.blocks[b])
    ensures IsWalk(g, path + [t], t)
  {
    TargetsInRange(g, b);
    var q := path + [t];
    forall i, j | 0 <= i < |q| - 1 && j == i + 1
      ensures q[j] in Targets(g.blocks[q[i]])
    {
      if i == |path| - 1 {
        assert q[i] == b && q[j] == t;
      } else {
        assert q[i] == path[i] && q[j] == path[j];
      }
    }
  }

  /** What is in all closed sets is at the end of a walk. */
  lemma ReachableWalk(g: Graph, b: nat) returns (path: seq<nat>)
    requires EdgesOk(g) && |g.blocks| > 0 && Reachable(g, b)
    ensures IsWalk(g, path, b)
  {
    hide EdgesOk, Targets;
    BelowCard(|g.blocks|);
    var S := set x | x in Below(|g.blocks|) && HasWalk(g, x);
    assert IsWalk(g, [0], 0);
    assert HasWalk(g, 0) && 0 in S;
    forall x | x in S
      ensures TargetsIn(g, x, S)
    {
      var p :| IsWalk(g, p, x);
      forall t | t in Targets(g.blocks[x])
        ensures t in S
      {
        WalkOn(g, p, x, t);
        assert HasWalk(g, t);
        TargetsInRange(g, x);
      }
    }
    assert Closed(g, S);
    assert b in S;
    path :| IsWalk(g, path, b);
  }

  /** Every block on a walk can be reached. */
  lemma {:induction false} WalkReachable(g: Graph, path: seq<nat>, b: nat, i: nat)
    requires IsWalk(g, path, b) && i < |path|
    ensures Reachable(g, path[i])
  {
    hide Targets;
    if i > 0 {
      var h := i - 1;
      WalkReachable(g, path, b, h);
      assert path[i] in Targets(g.blocks[path[h]]);
      forall S: set<nat> | 0 in S && Closed(g, S)
        ensures path[i] in S
      {
        assert path[h] in S;
        assert TargetsIn(g, path[h], S);
      }
    }
  }

  // ---------------------------------------------------------------- definitions dominate uses

  ghost predicate DefinedOn(g: Graph, v: Value, path: seq<nat>) {
    exists i {:trigger path[i]} :: 0 <= i < |path| && DefinedIn(g, v, path[i])
  }

  /** On every walk to a block that needs a value, some block defines it. */
  ghost predicate UsesDominated(g: Graph) {
    forall v, b, path :: Defined(g, v) && UsedAt(g, v, b) && IsWalk(g, path, b) ==> DefinedOn(g, v, path)
  }

  ghost predicate HasReachableDef(g: Graph, v: Value) {
    exists x: nat :: DefinedIn(g, v, x) && Reachable(g, x)
  }

  /** Values of g0 that a reachable block of g needs are defined in a reachable one. */
  ghost predicate UsesDefined(g0: Graph, g: Graph) {
    forall v, b :: Defined(g0, v) && UsedAt(g, v, b) && Reachable(g, b) ==> HasReachableDef(g, v)
  }

  lemma DominatedDefined(g: Graph)
    requires EdgesOk(g) && |g.blocks| > 0 && UsesDominated(g)
    ensures UsesDefined(g, g)
  {
    hide EdgesOk, UsedAt, DefinedIn, IsWalk, Defined;
    forall v, b | Defined(g, v) && UsedAt(g, v, b) && Reachable(g, b)
      ensures HasReachableDef(g, v)
    {
      var path := ReachableWalk(g, b);
      assert DefinedOn(g, v, path);
      var i :| 0 <= i < |path| && DefinedIn(g, v, path[i]);
      WalkReachable(g, path, b, i);
    }
  }

  /** No reachable block needs a value that has lost its definition. */
  ghost predicate NoneLost(g0: Graph, g: Graph) {
    forall v, b :: Defined(g0, v) && !Defined(g, v) && Reachable(g, b) ==> !UsedAt(g, v, b)
  }

  lemma DefinedNoneLost(g0: Graph, g: Graph)
    requires UsesDefined(g0, g)
    ensures NoneLost(g0, g)
  {
    hide UsedAt, DefinedIn, Reachable;
  }
}
