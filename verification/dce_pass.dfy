/** The dead code pass: a depth-first walk that cleans blocks, then the blocks that were
    not visited are emptied and freed. */
module DcePass {
  import opened Collections
  import opened IR
  import SsaPaths
  import opened CfgEdges
  import opened CfgOps
  import opened CfgUses
  import opened SimplifyCfg
  import opened SimplifyUses
  import opened Dce

  // ---------------------------------------------------------------- what must go

  /** Nothing in block x that had no use in g is left in r. */
  ghost predicate Swept(g: Graph, r: Graph, x: nat)
    requires x < |r.blocks|
  {
    && (forall i :: i in r.blocks[x].body ==> !IsDead(g, i))
    && (forall v :: v in r.phis && r.phis[v].block == x ==> HasUses(g, v))
  }

  ghost predicate AllSwept(g: Graph, r: Graph, xs: set<nat>) {
    forall x :: x in xs ==> x < |r.blocks| && Swept(g, r, x)
  }

  /** It stays so when more is removed, and holds for what was there before. */
  lemma SweptMore(g0: Graph, g: Graph, h: Graph, r: Graph, xs: set<nat>)
    requires Shrunk(g0, g) && AllSwept(g, h, xs) && Shrunk(h, r)
    ensures AllSwept(g0, r, xs)
  {
    hide HasUses, HasNoEffect;
    forall x | x in xs
      ensures x < |r.blocks| && Swept(g0, r, x)
    {
      assert Swept(g, h, x);
      forall i | i in r.blocks[x].body
        ensures !IsDead(g0, i)
      {
        ShrunkUses(g0, g, Instr(i.id));
      }
      forall v | v in r.phis && r.phis[v].block == x
        ensures HasUses(g0, v)
      {
        ShrunkUses(g0, g, v);
      }
    }
  }

  lemma SweptUnion(g: Graph, r: Graph, xs: set<nat>, ys: set<nat>)
    requires AllSwept(g, r, xs) && AllSwept(g, r, ys)
    ensures AllSwept(g, r, xs + ys)
  {
    hide Swept;
  }

  lemma SweptBlock(g: Graph, h: Graph, r: Graph, b: nat)
    requires Shrunk(g, h) && Shrunk(h, r) && b < |r.blocks|
    requires forall v :: v in h.phis && h.phis[v].block == b ==> HasUses(g, v)
    requires forall i :: i in r.blocks[b].body ==> !IsDead(h, i)
    ensures AllSwept(g, r, {b})
  {
    hide HasUses, HasNoEffect;
    forall i | i in r.blocks[b].body
      ensures !IsDead(g, i)
    {
      ShrunkUses(g, h, Instr(i.id));
    }
    assert Swept(g, r, b);
  }

  lemma SweptNone(g: Graph, r: Graph)
    ensures AllSwept(g, r, {})
  {
  }

  // ---------------------------------------------------------------- reachability

  lemma SameTargets(g: Graph, r: Graph)
    requires Shrunk(g, r)
    ensures forall b: nat :: b < |g.blocks| ==> Targets(r.blocks[b]) == Targets(g.blocks[b])
  {
  }

  lemma ClosedShrunk(g: Graph, r: Graph, S: set<nat>)
    requires Shrunk(g, r)
    ensures Closed(g, S) <==> Closed(r, S)
  {
    hide Shrunk, Targets;
    SameTargets(g, r);
    assert |g.blocks| == |r.blocks| by { SameLength(g, r); }
    assert forall b: nat :: b < |g.blocks| ==> (TargetsIn(g, b, S) <==> TargetsIn(r, b, S));
  }

  lemma SameLength(g: Graph, r: Graph)
    requires Shrunk(g, r)
    ensures |g.blocks| == |r.blocks| && g.list == r.list
  {
  }

  /** A target of a listed block is listed. */
  lemma TargetListed(g: Graph, b: nat, t: nat)
    requires CfgEdges.Sound(g) && b < |g.blocks| && t in Targets(g.blocks[b])
    ensures t < |g.blocks| && t in g.list
  {
    TargetsInRange(g, b);
    if t !in g.list {
      FreedHasNoEdges(g, t);
    }
  }

  // ---------------------------------------------------------------- emptying what was not visited

  /** The blocks in `done` have lost their code and edges; the others have lost at most
      edges and pairs that concern those. */
  ghost predicate Emptying(h: Graph, e: Graph, visited: set<nat>, done: set<nat>) {
    && EdgesOk(e) && PhisOk(e) && |e.blocks| == |h.blocks| && e.list == h.list && e.phis.Keys <= h.phis.Keys
    && done !! visited
    && (forall x: nat :: x < |h.blocks| ==> EmptiedSo(h, e, done, x))
    && (forall v :: v in e.phis ==> e.phis[v].block == h.phis[v].block && e.phis[v].block !in done)
    && (forall v :: v in h.phis && h.phis[v].block in visited ==> PairsKept(h, e, visited, v))
    && (forall v :: v in e.phis ==> NoNewPairs(h, e, v))
  }

  ghost predicate NoNewPairs(h: Graph, e: Graph, v: Value)
    requires v in e.phis
  {
    v in h.phis && forall o :: o in e.phis[v].ops ==> o in h.phis[v].ops
  }

  ghost predicate EmptiedSo(h: Graph, e: Graph, done: set<nat>, x: nat)
    requires |e.blocks| == |h.blocks| && x < |h.blocks|
  {
    if x in done then e.blocks[x].body == [] && e.blocks[x].term == NoTerm && e.blocks[x].succs == []
    else e.blocks[x] == h.blocks[x].(preds := e.blocks[x].preds)
  }

  ghost predicate PairsKept(h: Graph, e: Graph, visited: set<nat>, v: Value)
    requires v in h.phis
  {
    v in e.phis && forall p: nat :: p in visited ==> Incoming(e.phis[v].ops, p) == Incoming(h.phis[v].ops, p)
  }

  /** The code of b goes, its terminator last. */
  function Hollow(g: Graph, b: nat): Graph
    requires b < |g.blocks|
  {
    g.(blocks := g.blocks[b := g.blocks[b].(body := [])], phis := WithoutPhis(g.phis, b))
  }

  lemma HollowOk(g: Graph, b: nat)
    requires EdgesOk(g) && PhisOk(g) && b < |g.blocks|
    ensures EdgesOk(Hollow(g, b)) && PhisOk(Hollow(g, b)) && AllBelow(Targets(Hollow(g, b).blocks[b]), |g.blocks|)
    ensures Hollow(g, b).blocks[b].succs == Targets(Hollow(g, b).blocks[b])
  {
    hide Preds, Agree;
    var r := Hollow(g, b);
    forall v | v in r.phis
      ensures PhiOk(r, v)
    {
      assert PhiOk(g, v);
    }
    EdgesIgnoreCode(g, r);
    assert BlockOk(r, b);
  }

  lemma EmptyStep(h: Graph, e: Graph, visited: set<nat>, done: set<nat>, b: nat)
    requires Emptying(h, e, visited, done) && b < |h.blocks| && b !in visited
    ensures AllBelow(Targets(Hollow(e, b).blocks[b]), |e.blocks|) &&
              Emptying(h, Unterminated(Hollow(e, b), b), visited, done + {b})
  {
    hide Unterminated, EdgesOk, PhisOk, Incoming, AllBelow, Targets;
    HollowOk(e, b);
    UnterminatedOk(Hollow(e, b), b);
    UnterminatedShape(Hollow(e, b), b);
    var r := Unterminated(Hollow(e, b), b);
    forall x: nat | x < |h.blocks|
      ensures EmptiedSo(h, r, done + {b}, x)
    {
      assert EmptiedSo(h, e, done, x);
    }
    forall v | v in h.phis && h.phis[v].block in visited
      ensures PairsKept(h, r, visited, v)
    {
      assert PairsKept(h, e, visited, v);
      forall p: nat | p in visited
        ensures Incoming(r.phis[v].ops, p) == Incoming(h.phis[v].ops, p)
      {
        UnterminatedIncoming(Hollow(e, b), b, v, p);
      }
    }
    forall v | v in r.phis
      ensures NoNewPairs(h, r, v)
    {
      assert NoNewPairs(h, e, v);
      UnterminatedPairs(Hollow(e, b), b, v);
    }
  }

  lemma UnterminatedPairs(g: Graph, b: nat, v: Value)
    requires b < |g.blocks| && AllBelow(Targets(g.blocks[b]), |g.blocks|) && v in g.phis
    ensures forall o :: o in Unterminated(g, b).phis[v].ops ==> o in g.phis[v].ops
  {
    hide WithoutPreds;
    forall o | o in Unterminated(g, b).phis[v].ops
      ensures o in g.phis[v].ops
    {
      WithoutPredsPairs(g, Targets(g.blocks[b]), b, v, o);
    }
  }

  lemma UnterminatedIncoming(g: Graph, b: nat, v: Value, p: nat)
    requires b < |g.blocks| && AllBelow(Targets(g.blocks[b]), |g.blocks|) && v in g.phis && p != b
    ensures Incoming(Unterminated(g, b).phis[v].ops, p) == Incoming(g.phis[v].ops, p)
  {
    WithoutPredsIncoming(g, Targets(g.blocks[b]), b, v, p);
  }

  /** With all unvisited blocks emptied, nothing leads to them and runs are the same. */
  lemma EmptiedRuns(h: Graph, e: Graph, visited: set<nat>, done: set<nat>)
    requires CfgEdges.Sound(h) && Emptying(h, e, visited, done) && Closed(h, visited) && 0 in visited
    ensures Runs(h) && Runs(e) && EqualRuns(h, e, {})
  {
    hide RunFrom, EdgesOk, PhisOk, ListOk, StepsAlike, Targets, Incoming;
    SoundRuns(h);
    BelowCard(|h.blocks|);
    var out := Below(|h.blocks|) - visited;
    forall c: Context, s: State, n: nat
      ensures EqualRun(h, e, c, s, n)
    {
      forall y: nat | y < |h.blocks| && y !in out
        ensures StepsAlike(h, e, c, y) && StaysOut(h, out, y)
      {
        assert y in visited && TargetsIn(h, y, visited);
        EmptiedStep(h, e, visited, done, c, y);
      }
      RunsAlike(h, e, c, out, 0, s, n);
    }
  }

  lemma EmptiedStep(h: Graph, e: Graph, visited: set<nat>, done: set<nat>, c: Context, x: nat)
    requires EdgesOk(h) && Emptying(h, e, visited, done) && x < |h.blocks| && x in visited && TargetsIn(h, x, visited)
    ensures StepsAlike(h, e, c, x)
  {
    hide EdgesOk, PhisOk, Incoming, ExecBody, Targets;
    assert EmptiedSo(h, e, done, x);
    forall s: State
      ensures StepAlike(h, e, c, x, s)
    {
      if !TermOf(h.blocks[x]).Ret? {
        var t, z := NextBlock(h, c, x, s), BlockEnd(h, c, x, s);
        forall v | v in h.phis && h.phis[v].block == t
          ensures v in e.phis && e.phis[v].block == t && Incoming(e.phis[v].ops, x) == Incoming(h.phis[v].ops, x)
        {
          assert PairsKept(h, e, visited, v);
        }
        EnteredSame(h, e, c, x, x, t, z);
      }
    }
  }

  /** Unlisting the emptied blocks leaves a sound graph. */
  lemma EmptiedSound(h: Graph, e: Graph, visited: set<nat>, done: set<nat>, list: seq<nat>)
    requires CfgEdges.Sound(h) && Emptying(h, e, visited, done) && Closed(h, visited) && 0 in visited
    requires forall x :: x in visited + done <==> x in h.list
    requires Distinct(list) && |list| > 0 && list[0] == 0 && forall x :: x in list <==> x in visited
    ensures CfgEdges.Sound(e.(list := list))
  {
    hide EdgesOk, PhiOk, Targets, AllBelow;
    var r := e.(list := list);
    EdgesIgnorePhis(e, r);
    forall v | v in r.phis
      ensures PhiOk(r, v)
    {
      assert PhiOk(e, v);
      PhiOfList(e, list, v);
    }
    forall x: nat | x < |r.blocks| && x !in r.list
      ensures Freed(r, x)
    {
      EmptiedFreed(h, e, visited, done, x);
    }
    forall x | x in r.list
      ensures x < |r.blocks| && r.blocks[x].term.HasTerm?
    {
      assert EmptiedSo(h, e, done, x);
    }
  }

  lemma PhiOfList(e: Graph, list: seq<nat>, v: Value)
    requires v in e.phis && PhiOk(e, v)
    ensures PhiOk(e.(list := list), v)
  {
  }

  lemma EmptiedFreed(h: Graph, e: Graph, visited: set<nat>, done: set<nat>, x: nat)
    requires CfgEdges.Sound(h) && Emptying(h, e, visited, done) && Closed(h, visited)
    requires (forall y :: y in visited + done <==> y in h.list) && x < |h.blocks| && x !in visited
    ensures e.blocks[x] == BasicBlock([], NoTerm, [], []) && forall v :: v in e.phis ==> e.phis[v].block != x
  {
    hide EdgesOk, PhisOk, AllBelow;
    assert EmptiedSo(h, e, done, x);
    if x !in done {
      assert Freed(h, x);
    }
    forall q: nat | q < |e.blocks|
      ensures x !in Targets(e.blocks[q])
    {
      assert EmptiedSo(h, e, done, q);
      if q in visited {
        assert TargetsIn(h, q, visited);
      } else if q !in done {
        assert Freed(h, q);
      }
    }
    NoPreds(e, x);
  }

  // ---------------------------------------------------------------- the walk

  /** What was visited now has all its targets visited. */
  ghost predicate NewlyClosed(g: Graph, v0: set<nat>, v1: set<nat>) {
    forall x :: x in v1 && x !in v0 ==> x < |g.blocks| && TargetsIn(g, x, v1)
  }

  /** Only what follows from b was visited. */
  ghost predicate Within(g: Graph, v0: set<nat>, v1: set<nat>, b: nat) {
    forall S: set<nat> :: b in S && Closed(g, S) ==> v1 <= v0 + S
  }

  lemma NewlyClosedShrunk(g: Graph, r: Graph, v0: set<nat>, v1: set<nat>)
    requires Shrunk(g, r) && NewlyClosed(g, v0, v1)
    ensures NewlyClosed(r, v0, v1)
  {
    hide Shrunk, Targets;
    SameTargets(g, r);
    SameLength(g, r);
  }

  lemma WithinShrunk(g: Graph, r: Graph, v0: set<nat>, v1: set<nat>, b: nat)
    requires Shrunk(g, r)
    ensures Within(g, v0, v1, b) <==> Within(r, v0, v1, b)
  {
    hide Shrunk, Closed;
    forall S: set<nat>
      ensures Closed(g, S) <==> Closed(r, S)
    {
      ClosedShrunk(g, r, S);
    }
  }

  /** One more target of b has been visited. */
  lemma VisitedMore(g: Graph, v0: set<nat>, v1: set<nat>, v2: set<nat>, b: nat, t: nat)
    requires NewlyClosed(g, v0 + {b}, v1) && Within(g, v0, v1, b) && v1 <= v2
    requires NewlyClosed(g, v1, v2) && Within(g, v1, v2, t) && b < |g.blocks| && t in Targets(g.blocks[b])
    ensures NewlyClosed(g, v0 + {b}, v2) && Within(g, v0, v2, b)
  {
    hide Targets;
    forall x | x in v2 && x !in v0 + {b}
      ensures x < |g.blocks| && TargetsIn(g, x, v2)
    {
      assert x in v1 ==> TargetsIn(g, x, v1);
    }
    forall S: set<nat> | b in S && Closed(g, S)
      ensures v2 <= v0 + S
    {
      assert TargetsIn(g, b, S);
    }
  }

  lemma VisitedAll(g: Graph, v0: set<nat>, v1: set<nat>, b: nat)
    requires NewlyClosed(g, v0 + {b}, v1) && b < |g.blocks| && TargetsIn(g, b, v1)
    ensures NewlyClosed(g, v0, v1)
  {
  }

  /** From nothing, exactly the reachable blocks are visited. */
  lemma VisitedReachable(g: Graph, h: Graph, visited: set<nat>)
    requires Shrunk(g, h) && NewlyClosed(h, {}, visited) && Within(h, {}, visited, 0) && 0 in visited
    ensures Closed(h, visited) && forall x: nat :: x in visited <==> Reachable(g, x)
  {
    hide Shrunk, Targets;
    assert Closed(h, visited);
    WithinShrunk(g, h, {}, visited, 0);
    ClosedShrunk(g, h, visited);
    forall x: nat | x in visited
      ensures Reachable(g, x)
    {
      forall S: set<nat> | 0 in S && Closed(g, S)
        ensures x in S
      {
        assert visited <= {} + S;
      }
    }
  }

  lemma UnlistRuns(h: Graph, e: Graph, list: seq<nat>)
    requires EqualRuns(h, e, {})
    ensures EqualRuns(h, e.(list := list), {})
  {
    hide EdgesOk, Run;
    var r := e.(list := list);
    EdgesIgnorePhis(e, r);
    assert AsFunc(r) == AsFunc(e);
    forall c: Context, s: State, n: nat | Allows(c, {})
      ensures EqualRun(h, r, c, s, n)
    {
      assert EqualRun(h, e, c, s, n);
    }
  }

  // ---------------------------------------------------------------- no use is left without a definition

  /** Values that have lost all definitions are used nowhere. */
  ghost predicate NothingLost(g0: Graph, g: Graph) {
    forall v :: Defined(g0, v) && !Defined(g, v) ==> !HasUses(g, v)
  }

  /** What is still used is used by a visited block, which needed it from the start. */
  lemma StillUsed(g0: Graph, h: Graph, e: Graph, visited: set<nat>, done: set<nat>, v: Value) returns (b: nat)
    requires CfgEdges.Sound(h) && Shrunk(g0, h) && Emptying(h, e, visited, done) && Closed(h, visited)
    requires (forall x :: x in visited + done <==> x in h.list) && HasUses(e, v)
    ensures b in visited && UsedAt(g0, v, b) && HasUses(h, v)
  {
    hide CfgEdges.Sound, Shrunk, UsedInBlock, Targets, EdgesOk, PhiOk, Closed, AllBelow;
    if x :| 0 <= x < |e.blocks| && UsedInBlock(e.blocks[x], v) {
      b := x;
      if b !in visited {
        EmptiedFreed(h, e, visited, done, b);
        EmptyUsesNothing(v);
      }
      assert EmptiedSo(h, e, done, b);
      SameUse(h.blocks[b], e.blocks[b], v);
      ShrunkBlockUse(g0, h, v, b);
    } else {
      var u :| u in e.phis && UsedByPhi(e.phis[u], v);
      var i :| 0 <= i < |e.phis[u].ops| && e.phis[u].ops[i].0 == v;
      b := e.phis[u].ops[i].1;
      assert (v, b) in e.phis[u].ops;
      assert NoNewPairs(h, e, u);
      PairFrom(e, u, i);
      if b !in visited {
        EmptiedFreed(h, e, visited, done, b);
        EmptyHasNoTargets();
      }
      ShrunkPhiUse(g0, h, v, b, u);
    }
  }

  lemma EmptyUsesNothing(v: Value)
    ensures !UsedInBlock(BasicBlock([], NoTerm, [], []), v)
  {
  }

  lemma EmptyHasNoTargets()
    ensures Targets(BasicBlock([], NoTerm, [], [])) == []
  {
  }

  lemma SameUse(k: BasicBlock, l: BasicBlock, v: Value)
    requires l == k.(preds := l.preds) && UsedInBlock(l, v)
    ensures UsedInBlock(k, v)
  {
  }

  lemma ShrunkBlockUse(g: Graph, r: Graph, v: Value, b: nat)
    requires Shrunk(g, r) && b < |r.blocks| && UsedInBlock(r.blocks[b], v)
    ensures UsedAt(g, v, b) && HasUses(r, v)
  {
    hide SsaPaths.UsedBy, SsaPaths.UsedByTerm;
    if i :| 0 <= i < |r.blocks[b].body| && SsaPaths.UsedBy(r.blocks[b].body[i], v) {
      assert r.blocks[b].body[i] in g.blocks[b].body;
      var j :| 0 <= j < |g.blocks[b].body| && g.blocks[b].body[j] == r.blocks[b].body[i];
    }
    assert UsedInBlock(g.blocks[b], v);
  }

  lemma ShrunkPhiUse(g: Graph, r: Graph, v: Value, b: nat, u: Value)
    requires Shrunk(g, r) && u in r.phis && (v, b) in r.phis[u].ops
    ensures UsedAt(g, v, b) && HasUses(r, v)
  {
    assert UsedByPhi(r.phis[u], v);
    assert u in g.phis && g.phis[u] == r.phis[u];
  }

  /** A pair is for a block that branches to the phi's. */
  lemma PairFrom(e: Graph, u: Value, i: nat)
    requires EdgesOk(e) && PhisOk(e) && u in e.phis && i < |e.phis[u].ops|
    ensures e.phis[u].block < |e.blocks| && e.phis[u].ops[i].1 < |e.blocks|
    ensures e.phis[u].block in Targets(e.blocks[e.phis[u].ops[i].1])
  {
    hide Agree, AllBelow, Targets;
    var p := e.phis[u].ops[i].1;
    assert PhiOk(e, u);
    var c := e.phis[u].block;
    assert Preds(e.phis[u].ops)[i] == p;
    assert p in multiset(Preds(e.phis[u].ops));
    assert p in e.blocks[c].preds;
    PredInRange(e, c, p);
    InPreds(e, p, c);
  }

  lemma PredInRange(e: Graph, c: nat, p: nat)
    requires EdgesOk(e) && c < |e.blocks| && p in e.blocks[c].preds
    ensures p < |e.blocks|
  {
    assert BlockOk(e, c);
  }

  lemma KeptDefined(h: Graph, e: Graph, visited: set<nat>, done: set<nat>, v: Value, x: nat)
    requires Emptying(h, e, visited, done) && x in visited && DefinedIn(h, v, x)
    ensures DefinedIn(e, v, x)
  {
    hide EdgesOk, PhisOk, Incoming;
    assert EmptiedSo(h, e, done, x);
    if v in h.phis && h.phis[v].block == x {
      assert PairsKept(h, e, visited, v);
    }
  }

  lemma FinalUses(g0: Graph, h: Graph, e: Graph, visited: set<nat>, done: set<nat>, removed: set<nat>)
    requires Good(g0) && Cleaned(g0, h, removed) && UsesDominated(g0)
    requires Emptying(h, e, visited, done) && Closed(h, visited)
    requires (forall x :: x in visited + done <==> x in h.list) && forall x: nat :: x in visited <==> Reachable(g0, x)
    ensures NothingLost(g0, e)
  {
    hide CfgEdges.Sound, Shrunk, Emptying, EqualRuns, HasUses, UsedAt, DefinedIn, Reachable, UsesDominated, Closed;
    GoodEdges(g0);
    DominatedDefined(g0);
    forall v | Defined(g0, v) && HasUses(e, v)
      ensures Defined(e, v)
    {
      var b := StillUsed(g0, h, e, visited, done, v);
      assert HasReachableDef(g0, v);
      var x: nat :| DefinedIn(g0, v, x) && Reachable(g0, x);
      assert DefinedIn(h, v, x);
      KeptDefined(h, e, visited, done, v, x);
    }
  }

  lemma GoodEdges(g: Graph)
    requires Good(g)
    ensures EdgesOk(g) && |g.blocks| > 0
  {
    assert g.list[0] in g.list;
  }

  lemma UnlistLost(g0: Graph, e: Graph, list: seq<nat>)
    requires NothingLost(g0, e)
    ensures NothingLost(g0, e.(list := list))
  {
    var r := e.(list := list);
    forall v | Defined(g0, v) && !Defined(r, v)
      ensures !HasUses(r, v)
    {
      SameUses(e, r, v);
    }
  }

  lemma SameUses(e: Graph, r: Graph, v: Value)
    requires r.blocks == e.blocks && r.phis == e.phis
    ensures HasUses(r, v) <==> HasUses(e, v)
    ensures Defined(r, v) <==> Defined(e, v)
  {
    hide UsedInBlock, UsedByPhi;
    assert forall x: nat :: DefinedIn(r, v, x) <==> DefinedIn(e, v, x);
  }

  // ---------------------------------------------------------------- the pass

  class Eliminator {
    const fg: FuncGraph
    var visited: set<nat>

    constructor (f: FuncGraph)
      ensures fg == f && visited == {}
    {
      fg := f;
      visited := {};
    }

    /** Removes the phis of b that have no use. */
    method RemoveDeadPhis(b: nat) returns (count: nat)
      requires Good(fg.G()) && b < |fg.blocks|
      modifies fg`phis
      ensures Cleaned(old(fg.G()), fg.G(), {})
      ensures forall v :: v in fg.phis && fg.phis[v].block == b ==> HasUses(old(fg.G()), v)
    {
      hide Good, Cleaned, HasUses, Shrunk;
      ghost var g := fg.G();
      CleanedSelf(g);
      count := 0;
      var todo := set v | v in fg.phis && fg.phis[v].block == b;
      while todo != {}
        invariant Good(fg.G()) && Cleaned(g, fg.G(), {}) && todo <= fg.phis.Keys
        invariant forall v :: v in fg.phis && fg.phis[v].block == b ==> v in todo || HasUses(g, v)
        decreases |todo|
      {
        var v :| v in todo;
        todo := todo - {v};
        CleanedShrunk(g, fg.G(), {});
        ShrunkUses(g, fg.G(), v);
        if !HasUses(fg.G(), v) {
          ghost var h := fg.G();
          CleanPhi(h, v);
          fg.phis := fg.phis - {v};
          ghost var none: set<nat> := {};
          assert none + none == none;
          CleanedTrans(g, h, fg.G(), none, none);
          CleanedGood(h, fg.G(), {});
          count := count + 1;
        }
      }
    }

    /** Removes the instructions of b that are dead when the walk gets to them. */
    method RemoveDeadBody(b: nat) returns (count: nat, ghost removed: set<nat>)
      requires Good(fg.G()) && b < |fg.blocks|
      modifies fg`blocks
      ensures Cleaned(old(fg.G()), fg.G(), removed)
      ensures b < |fg.blocks| && forall i :: i in fg.blocks[b].body ==> !IsDead(old(fg.G()), i)
    {
      hide Good, Cleaned, HasUses, HasNoEffect, Shrunk;
      ghost var g := fg.G();
      CleanedSelf(g);
      count, removed := 0, {};
      var k := 0;
      while k < |fg.blocks[b].body|
        invariant Good(fg.G()) && Cleaned(g, fg.G(), removed) && b < |fg.blocks| && k <= |fg.blocks[b].body|
        invariant forall j :: 0 <= j < k ==> !IsDead(g, fg.blocks[b].body[j])
        decreases |fg.blocks[b].body| - k
      {
        CleanedShrunk(g, fg.G(), removed);
        ShrunkUses(g, fg.G(), Instr(fg.blocks[b].body[k].id));
        if IsDead(fg.G(), fg.blocks[b].body[k]) {
          ghost var h, i := fg.G(), fg.blocks[b].body[k];
          CleanInstr(h, b, k);
          fg.blocks := fg.blocks[b := fg.blocks[b].(body := fg.blocks[b].body[..k] + fg.blocks[b].body[k + 1..])];
          CleanedTrans(g, h, fg.G(), removed, AllocaOf(i));
          CleanedGood(h, fg.G(), AllocaOf(i));
          removed := removed + AllocaOf(i);
          count := count + 1;
        } else {
          k := k + 1;
        }
      }
    }

    /** Cleans block b and everything that can be reached from it through blocks that have
        not been visited yet. */
    method Visit(b: nat) returns (count: nat, ghost removed: set<nat>)
      requires Good(fg.G()) && b in fg.list && b < |fg.blocks|
      modifies this`visited, fg`blocks, fg`phis
      ensures Cleaned(old(fg.G()), fg.G(), removed)
      ensures old(visited) <= visited && b in visited
      ensures b in old(visited) ==> count == 0
      ensures NewlyClosed(fg.G(), old(visited), visited) && Within(fg.G(), old(visited), visited, b)
      ensures forall x :: x in visited && x !in old(visited) ==> x in fg.list
      ensures AllSwept(old(fg.G()), fg.G(), visited - old(visited))
      decreases (set x | x in fg.list) - visited
    {
      hide Good, Cleaned, Shrunk, Targets, NewlyClosed, Within, AllSwept, IsDead, HasUses;
      ghost var g := fg.G();
      count, removed := 0, {};
      if b in visited {
        CleanedSelf(g);
        NothingNewVisited(g, visited, b);
        SweptNone(g, g);
        assert visited - visited == {};
        return;
      }
      ghost var v0 := visited;
      visited := visited + {b};
      count := RemoveDeadPhis(b);
      ghost var g1 := fg.G();
      CleanedGood(g, g1, {});
      ghost var more: set<nat>;
      var n: nat;
      n, removed := RemoveDeadBody(b);
      count := count + n;
      CleanedTrans(g, g1, fg.G(), {}, removed);
      assert {} + removed == removed;
      CleanedGood(g, fg.G(), removed);
      CleanedShrunk(g, g1, {});
      CleanedShrunk(g1, fg.G(), removed);
      SweptBlock(g, g1, fg.G(), b);
      assert visited - v0 == {b};
      TermOfListed(fg.G(), b);
      ghost var k := fg.blocks[b];
      var ts := Succs(fg.blocks[b].term.t);
      StartVisited(fg.G(), v0, b);
      for i := 0 to |ts|
        invariant Good(fg.G()) && Cleaned(g, fg.G(), removed) && b < |fg.blocks| && Targets(fg.blocks[b]) == ts
        invariant v0 + {b} <= visited && (forall x :: x in visited && x !in v0 ==> x in fg.list)
        invariant NewlyClosed(fg.G(), v0 + {b}, visited) && Within(fg.G(), v0, visited, b)
        invariant forall j :: 0 <= j < i ==> ts[j] in visited
        invariant AllSwept(g, fg.G(), visited - v0)
      {
        ghost var h, v1 := fg.G(), visited;
        assert ts[i] in Targets(h.blocks[b]);
        GoodTarget(h, b, ts[i]);
        n, more := Visit(ts[i]);
        count := count + n;
        CleanedShrunk(g, h, removed);
        CleanedTrans(g, h, fg.G(), removed, more);
        removed := removed + more;
        CleanedGood(g, fg.G(), removed);
        CleanedShrunk(h, fg.G(), more);
        SweptVisits(g, h, fg.G(), v0, v1, visited);
        SameTargets(h, fg.G());
        NewlyClosedShrunk(h, fg.G(), v0 + {b}, v1);
        WithinShrunk(h, fg.G(), v0, v1, b);
        VisitedMore(fg.G(), v0, v1, visited, b, ts[i]);
      }
      VisitedAll(fg.G(), v0, visited, b);
    }

    /** Empties the blocks that were not visited. */
    method EmptyUnvisited(ghost h: Graph) returns (ghost done: set<nat>)
      requires CfgEdges.Sound(h) && fg.G() == h && 0 in visited && forall x :: x in visited ==> x in fg.list
      modifies fg`blocks, fg`phis
      ensures Emptying(h, fg.G(), visited, done) && forall x :: x in visited + done <==> x in fg.list
    {
      hide EdgesOk, PhisOk, Emptying, Incoming, AllBelow, Unterminated;
      done := {};
      EmptyStart(h, visited);
      for i := 0 to |fg.list|
        invariant Emptying(h, fg.G(), visited, done) && |fg.blocks| == |h.blocks|
        invariant forall x :: x in done <==> x in fg.list[..i] && x !in visited
      {
        var b := fg.list[i];
        if b !in visited {
          ghost var e := fg.G();
          assert b in h.list;
          EmptyingEdges(h, e, visited, done);
          HollowOk(e, b);
          EmptyStep(h, e, visited, done, b);
          fg.blocks := fg.blocks[b := fg.blocks[b].(body := [])];
          fg.phis := WithoutPhis(fg.phis, b);
          fg.RemoveTerminator(b);
          done := done + {b};
        }
      }
    }

    /** Takes the emptied blocks off the list. */
    method FreeUnvisited() returns (count: nat)
      requires Distinct(fg.list) && |fg.list| > 0 && fg.list[0] == 0 && 0 in visited && forall x :: x in visited ==>
                 x in fg.list
      modifies fg`list
      ensures Distinct(fg.list) && |fg.list| > 0 && fg.list[0] == 0 && forall x :: x in fg.list <==> x in visited
      ensures count + |fg.list| == |old(fg.list)|
    {
      hide RemoveFirst;
      count := 0;
      var i := 1;
      while i < |fg.list|
        invariant Distinct(fg.list) && 0 < i <= |fg.list| && fg.list[0] == 0 && forall x :: x in visited ==>
                    x in fg.list
        invariant forall j :: 0 <= j < i ==> fg.list[j] in visited
        invariant count + |fg.list| == |old(fg.list)|
        decreases |fg.list| - i
      {
        var b := fg.list[i];
        if b !in visited {
          ghost var was := fg.list;
          RemoveFirstMember(was, b);
          RemoveAt(was, i);
          fg.Unlist(b);
          assert fg.list == was[..i] + was[i + 1..];
          count := count + 1;
        } else {
          i := i + 1;
        }
      }
    }

    /** Runs are kept and exactly the reachable blocks stay.  The blocks that stay are
        those of h: nothing that had no use is in them.  If definitions dominate uses, no
        use is left of a value whose definitions are gone. */
    method Eliminate() returns (count: nat, ghost removed: set<nat>, ghost h: Graph)
      requires Good(fg.G()) && visited == {}
      modifies this`visited, fg
      ensures CfgEdges.Sound(fg.G()) && EqualRuns(old(fg.G()), fg.G(), removed)
      ensures UsesDominated(old(fg.G())) ==> NothingLost(old(fg.G()), fg.G())
      ensures forall x: nat :: x in fg.list <==> Reachable(old(fg.G()), x)
      ensures Cleaned(old(fg.G()), h, removed) && |fg.blocks| == |h.blocks|
      ensures forall x :: x in fg.list ==> x < |h.blocks| && Swept(old(fg.G()), h, x)
      ensures forall x :: x in fg.list ==> x < |h.blocks| && fg.blocks[x] == h.blocks[x].(preds := fg.blocks[x].preds)
      // What is left has an effect or was used; stores and calls are left
      ensures forall x, i :: x in fg.list && i in fg.blocks[x].body ==>
                i.Store? || (i.Op? && i.code.Call?) || Needed(old(fg.blocks), old(fg.phis), Instr(i.id))
      ensures forall x, v :: x in fg.list && v in fg.phis && fg.phis[v].block == x ==>
                Needed(old(fg.blocks), old(fg.phis), v)
      ensures forall x, i :: x in fg.list && x < |old(fg.blocks)| && i in old(fg.blocks)[x].body ==>
                (i.Store? || (i.Op? && i.code.Call?) ==> i in fg.blocks[x].body)
    {
      hide Good, Needed, EffectsStay, Cleaned, EqualRuns, Emptying, Closed, NewlyClosed, Within, EdgesOk, PhisOk, Swept,
        UsesDominated, NothingLost;
      ghost var g := fg.G();
      count, removed := 0, {};
      CleanedSelf(g);
      EntryListed(g);
      StartNothing(g);
      var changed := true;
      while changed
        invariant Good(fg.G()) && Cleaned(g, fg.G(), removed) && fg.list == g.list && |fg.blocks| == |g.blocks|
        invariant NewlyClosed(fg.G(), {}, visited) && Within(fg.G(), {}, visited, 0) &&
                    (0 in visited || (changed && visited == {}))
        invariant forall x :: x in visited ==> x in fg.list
        invariant AllSwept(g, fg.G(), visited)
        decreases if 0 in visited then 0 else 1, changed
      {
        ghost var e, v1 := fg.G(), visited;
        CleanedShrunk(g, e, removed);
        assert v1 - {} == v1;
        var n: nat;
        ghost var more: set<nat>;
        n, more := Visit(0);
        CleanedTrans(g, e, fg.G(), removed, more);
        removed := removed + more;
        CleanedGood(g, fg.G(), removed);
        CleanedShrunk(e, fg.G(), more);
        SweptVisits(g, e, fg.G(), {}, v1, visited);
        assert visited - {} == visited;
        NewlyClosedShrunk(e, fg.G(), {}, v1);
        WithinShrunk(e, fg.G(), {}, v1, 0);
        VisitedAgain(fg.G(), v1, visited);
        count := count + n;
        changed := n != 0;
      }
      h := fg.G();
      CleanedShrunk(g, h, removed);
      CleanedKeeps(g, h, removed);
      VisitedReachable(g, h, visited);
      GoodSound(h);
      ghost var done := EmptyUnvisited(h);
      EmptiedRuns(h, fg.G(), visited, done);
      ghost var e := fg.G();
      EmptyingShape(h, e, visited, done);
      SweptMeans(g, h, e, visited, done);
      if UsesDominated(g) {
        FinalUses(g, h, e, visited, done, removed);
      }
      var n := FreeUnvisited();
      count := count + n;
      EmptiedSound(h, e, visited, done, fg.list);
      UnlistRuns(h, e, fg.list);
      if UsesDominated(g) {
        UnlistLost(g, e, fg.list);
      }
      CleanedRuns(g, h, removed);
      EqualRunsTrans(g, h, fg.G(), removed, {});
      assert removed + {} == removed;
    }
  }

  lemma CleanedGood(g: Graph, r: Graph, removed: set<nat>)
    requires Cleaned(g, r, removed)
    ensures Good(r) && |r.blocks| == |g.blocks| && r.list == g.list
  {
  }

  lemma SweptVisits(g: Graph, h: Graph, r: Graph, v0: set<nat>, v1: set<nat>, v2: set<nat>)
    requires Shrunk(g, h) && Shrunk(h, r) && AllSwept(g, h, v1 - v0) && AllSwept(h, r, v2 - v1) && v0 <= v1 <= v2
    ensures AllSwept(g, r, v2 - v0)
  {
    hide Shrunk, Swept, AllSwept;
    ShrunkSelf(g);
    ShrunkSelf(r);
    SweptMore(g, g, h, r, v1 - v0);
    SweptMore(g, h, r, r, v2 - v1);
    SweptUnion(g, r, v1 - v0, v2 - v1);
    assert v2 - v0 == (v1 - v0) + (v2 - v1);
  }

  lemma ShrunkSelf(g: Graph)
    ensures Shrunk(g, g)
  {
  }

  lemma NothingNewVisited(g: Graph, v: set<nat>, b: nat)
    requires b in v
    ensures NewlyClosed(g, v, v) && Within(g, v, v, b)
  {
  }

  lemma StartVisited(g: Graph, v: set<nat>, b: nat)
    ensures NewlyClosed(g, v + {b}, v + {b}) && Within(g, v, v + {b}, b)
  {
  }

  lemma StartNothing(g: Graph)
    ensures NewlyClosed(g, {}, {}) && Within(g, {}, {}, 0)
  {
  }

  lemma VisitedAgain(g: Graph, v1: set<nat>, v2: set<nat>)
    requires NewlyClosed(g, {}, v1) && Within(g, {}, v1, 0) && v1 <= v2
    requires NewlyClosed(g, v1, v2) && Within(g, v1, v2, 0)
    ensures NewlyClosed(g, {}, v2) && Within(g, {}, v2, 0)
  {
    hide Targets;
    forall x | x in v2
      ensures x < |g.blocks| && TargetsIn(g, x, v2)
    {
      assert x in v1 ==> TargetsIn(g, x, v1);
    }
    forall S: set<nat> | 0 in S && Closed(g, S)
      ensures v2 <= {} + S
    {
      assert v1 <= {} + S;
    }
  }

  lemma TermOfListed(g: Graph, b: nat)
    requires Good(g) && b in g.list
    ensures b < |g.blocks| && g.blocks[b].term.HasTerm? && Targets(g.blocks[b]) == Succs(g.blocks[b].term.t)
  {
    hide EdgesOk, PhisOk;
  }

  lemma GoodTarget(g: Graph, b: nat, t: nat)
    requires Good(g) && b < |g.blocks| && t in Targets(g.blocks[b])
    ensures t < |g.blocks| && t in g.list
  {
    hide EdgesOk, PhisOk;
    TargetListed(g, b, t);
  }

  lemma GoodSound(g: Graph)
    requires Good(g)
    ensures CfgEdges.Sound(g)
  {
  }

  lemma EntryListed(g: Graph)
    requires Good(g)
    ensures 0 in g.list && 0 < |g.blocks| && Distinct(g.list)
  {
    hide EdgesOk, PhisOk;
    assert g.list[0] in g.list;
  }

  lemma CleanedShrunk(g: Graph, r: Graph, removed: set<nat>)
    requires Cleaned(g, r, removed)
    ensures Shrunk(g, r)
  {
  }

  lemma CleanedRuns(g: Graph, r: Graph, removed: set<nat>)
    requires Cleaned(g, r, removed)
    ensures EqualRuns(g, r, removed)
  {
  }

  lemma EmptyStart(h: Graph, visited: set<nat>)
    requires CfgEdges.Sound(h)
    ensures Emptying(h, h, visited, {})
  {
    hide EdgesOk, PhisOk, ListOk, Incoming;
    forall x: nat | x < |h.blocks|
      ensures EmptiedSo(h, h, {}, x)
    {
    }
    assert forall v :: v in h.phis ==> NoNewPairs(h, h, v);
  }

  lemma EmptyingEdges(h: Graph, e: Graph, visited: set<nat>, done: set<nat>)
    requires Emptying(h, e, visited, done)
    ensures EdgesOk(e) && PhisOk(e) && |e.blocks| == |h.blocks|
  {
  }

  /** Some instruction, terminator or phi has v as an operand. */
  ghost predicate Needed(blocks: seq<BasicBlock>, phis: map<Value, Phi>, v: Value) {
    || (exists b, k :: 0 <= b < |blocks| && 0 <= k < |blocks[b].body| && SsaPaths.UsedBy(blocks[b].body[k], v))
    || (exists b :: 0 <= b < |blocks| && blocks[b].term.HasTerm? && SsaPaths.UsedByTerm(blocks[b].term.t, v))
    || (exists u, j :: u in phis && 0 <= j < |phis[u].ops| && phis[u].ops[j].0 == v)
  }

  lemma NeededIs(g: Graph, v: Value)
    ensures Needed(g.blocks, g.phis, v) <==> HasUses(g, v)
  {
    if b, k :| 0 <= b < |g.blocks| && 0 <= k < |g.blocks[b].body| && SsaPaths.UsedBy(g.blocks[b].body[k], v) {
      assert UsedInBlock(g.blocks[b], v);
    }
    if b :| 0 <= b < |g.blocks| && g.blocks[b].term.HasTerm? && SsaPaths.UsedByTerm(g.blocks[b].term.t, v) {
      assert UsedInBlock(g.blocks[b], v);
    }
    if u, j :| u in g.phis && 0 <= j < |g.phis[u].ops| && g.phis[u].ops[j].0 == v {
      assert UsedByPhi(g.phis[u], v);
    }
  }

  lemma NeededMeans(blocks: seq<BasicBlock>, phis: map<Value, Phi>, v: Value)
    requires Needed(blocks, phis, v)
    ensures
      || (exists b, k :: 0 <= b < |blocks| && 0 <= k < |blocks[b].body| && SsaPaths.UsedBy(blocks[b].body[k], v))
      || (exists b :: 0 <= b < |blocks| && blocks[b].term.HasTerm? && SsaPaths.UsedByTerm(blocks[b].term.t, v))
      || (exists u, j :: u in phis && 0 <= j < |phis[u].ops| && phis[u].ops[j].0 == v)
  {
  }

  lemma CleanedKeeps(g: Graph, r: Graph, removed: set<nat>)
    requires Cleaned(g, r, removed)
    ensures forall x, i :: 0 <= x < |g.blocks| && i in g.blocks[x].body && (i.Store? || (i.Op? && i.code.Call?)) ==>
              x < |r.blocks| && i in r.blocks[x].body
  {
    hide EqualRuns, Shrunk, NoDangling, Good, UnusedAllocas;
  }

  lemma SweptMeans(g: Graph, h: Graph, e: Graph, visited: set<nat>, done: set<nat>)
    requires AllSwept(g, h, visited) && Emptying(h, e, visited, done)
    ensures forall x, i :: x in visited && x < |h.blocks| && i in h.blocks[x].body ==>
              i.Store? || (i.Op? && i.code.Call?) || Needed(g.blocks, g.phis, Instr(i.id))
    ensures forall x, v :: x in visited && v in e.phis && e.phis[v].block == x ==> Needed(g.blocks, g.phis, v)
  {
    hide EdgesOk, PhisOk, HasUses, Needed, EmptiedSo, PairsKept;
    forall x, i | x in visited && x < |h.blocks| && i in h.blocks[x].body
      ensures i.Store? || (i.Op? && i.code.Call?) || Needed(g.blocks, g.phis, Instr(i.id))
    {
      assert Swept(g, h, x);
      NeededIs(g, Instr(i.id));
    }
    forall x, v | x in visited && v in e.phis && e.phis[v].block == x
      ensures Needed(g.blocks, g.phis, v)
    {
      assert Swept(g, h, x) && NoNewPairs(h, e, v);
      NeededIs(g, v);
    }
  }

  lemma EmptyingShape(h: Graph, e: Graph, visited: set<nat>, done: set<nat>)
    requires Emptying(h, e, visited, done)
    ensures |e.blocks| == |h.blocks| && done !! visited
    ensures forall x: nat :: x in visited && x < |h.blocks| ==> e.blocks[x] == h.blocks[x].(preds := e.blocks[x].preds)
  {
    hide EdgesOk, PhisOk, Incoming;
    forall x: nat | x in visited && x < |h.blocks|
      ensures e.blocks[x] == h.blocks[x].(preds := e.blocks[x].preds)
    {
      assert EmptiedSo(h, e, done, x);
    }
  }
}
