/** The dominator tree of a function, after "A Simple, Fast Dominance Algorithm"
    (Cooper, Harvey, Kennedy): a depth-first walk numbers the blocks, then links are
    recomputed in that order until a pass changes none. */
module DomTree {
  import opened IR
  import opened Cfg
  import opened Collections
  import opened Dominance

  // ---------------------------------------------------------------- numbering

  /** What the depth-first walk keeps.  `finished` lists the blocks that have a number,
      the latest last; `stack` is the path from the entry to the caller. */
  ghost predicate Listed(f: Func, rpo: seq<nat>, finished: seq<nat>) {
    && |rpo| == |f.blocks|
    && Distinct(finished)
    && (forall i :: 0 <= i < |finished| ==> finished[i] < |rpo|)
    && (forall i :: 0 <= i < |finished| ==> rpo[finished[i]] == |rpo| - i)
    && (forall b :: 0 <= b < |rpo| && b !in finished ==> rpo[b] == 0)
  }

  ghost predicate IsParent(f: Func, rpo: seq<nat>, finished: seq<nat>, stack: seq<nat>, b: nat, p: nat)
    requires |rpo| == |f.blocks| && b < |rpo|
  {
    Edge(f, p, b) && (p in stack || (p in finished && rpo[p] < rpo[b]))
  }

  ghost predicate HasParent(f: Func, rpo: seq<nat>, finished: seq<nat>, stack: seq<nat>, b: nat)
    requires |rpo| == |f.blocks| && b < |rpo|
  {
    exists p: nat :: IsParent(f, rpo, finished, stack, b, p)
  }

  ghost predicate Walk(f: Func, visited: set<nat>, rpo: seq<nat>, finished: seq<nat>, stack: seq<nat>) {
    && Listed(f, rpo, finished)
    && (stack == [] || IsPath(f, stack))
    && (forall b :: b in visited <==> b in finished || b in stack)
    && (forall b :: b in finished ==> b !in stack)
    && (forall b, t :: b in finished && t in Succs(f.blocks[b].term) ==> t in visited)
    && (forall b :: b in finished && b != 0 ==> HasParent(f, rpo, finished, stack, b))
  }

  lemma WalkSize(f: Func, visited: set<nat>, rpo: seq<nat>, finished: seq<nat>, stack: seq<nat>)
    requires Walk(f, visited, rpo, finished, stack)
    ensures |rpo| == |f.blocks|
    ensures forall b :: b in finished ==> b < |rpo|
  {
  }

  lemma ParentsEnter(f: Func, rpo: seq<nat>, finished: seq<nat>, stack: seq<nat>, b: nat, x: nat)
    requires |rpo| == |f.blocks| && x < |rpo| && HasParent(f, rpo, finished, stack, x)
    ensures HasParent(f, rpo, finished, stack + [b], x)
  {
    InAppend(stack, b);
    hide Edge;
    var p: nat :| IsParent(f, rpo, finished, stack, x, p);
    assert IsParent(f, rpo, finished, stack + [b], x, p);
  }

  lemma StackEnter(f: Func, stack: seq<nat>, b: nat)
    requires b < |f.blocks| && (stack == [] || IsPath(f, stack))
    requires if stack == [] then b == 0 else Edge(f, stack[|stack| - 1], b)
    ensures IsPath(f, stack + [b])
  {
    if stack == [] {
      assert stack + [b] == [0];
    } else {
      ExtendIsPath(f, stack, stack[|stack| - 1], b);
    }
  }

  lemma WalkEnter(f: Func, visited: set<nat>, rpo: seq<nat>, finished: seq<nat>, stack: seq<nat>, b: nat)
    requires Walk(f, visited, rpo, finished, stack) && b !in visited && b < |f.blocks|
    requires if stack == [] then b == 0 else Edge(f, stack[|stack| - 1], b)
    ensures Walk(f, visited + {b}, rpo, finished, stack + [b])
  {
    WalkSize(f, visited, rpo, finished, stack);
    hide Listed, IsPath, Edge, HasParent;
    InAppend(stack, b);
    StackEnter(f, stack, b);
    forall x | x in finished && x != 0
      ensures HasParent(f, rpo, finished, stack + [b], x)
    {
      ParentsEnter(f, rpo, finished, stack, b, x);
    }
  }

  lemma ListedNext(f: Func, rpo: seq<nat>, finished: seq<nat>, b: nat)
    requires Listed(f, rpo, finished) && b !in finished && b < |f.blocks|
    ensures |finished| < |rpo|
    ensures Listed(f, rpo[b := |rpo| - |finished|], finished + [b])
    ensures forall x :: x in finished ==> x < |rpo| && rpo[x] > |rpo| - |finished|
  {
    var finished' := finished + [b];
    assert Distinct(finished');
    DistinctBelow(finished', |rpo|);
    InAppend(finished, b);
  }

  /** The top of the stack gets its number: the blocks that it led to have larger ones. */
  lemma ParentStays(f: Func, rpo: seq<nat>, finished: seq<nat>, stack: seq<nat>, b: nat, v: nat, x: nat)
    requires |rpo| == |f.blocks| && x < |rpo| && b < |rpo| && x in finished && b !in finished
    requires HasParent(f, rpo, finished, stack + [b], x) && v < rpo[x]
    ensures HasParent(f, rpo[b := v], finished + [b], stack, x)
  {
    InAppend(finished, b);
    InAppend(stack, b);
    var p: nat :| IsParent(f, rpo, finished, stack + [b], x, p);
    hide Edge;
    if p in stack {
    } else if p == b {
      assert p in finished + [b];
    } else {
      assert p in finished + [b];
    }
    assert IsParent(f, rpo[b := v], finished + [b], stack, x, p);
  }

  lemma StackTop(f: Func, rpo: seq<nat>, finished: seq<nat>, stack: seq<nat>, b: nat)
    requires IsPath(f, stack + [b]) && |rpo| == |f.blocks|
    ensures stack == [] || IsPath(f, stack)
    ensures b < |rpo| && (b == 0 || HasParent(f, rpo, finished, stack, b))
  {
    var stack' := stack + [b];
    if stack != [] {
      PrefixIsPath(f, stack', |stack| - 1);
      assert stack'[..|stack| - 1 + 1] == stack;
      assert Step(f, stack', |stack| - 1);
      assert IsParent(f, rpo, finished, stack, b, stack[|stack| - 1]);
    } else {
      assert stack'[0] == b;
    }
  }

  lemma WalkLeave(f: Func, visited: set<nat>, rpo: seq<nat>, finished: seq<nat>, stack: seq<nat>, b: nat)
    requires Walk(f, visited, rpo, finished, stack + [b]) && b !in stack && b < |f.blocks|
    requires forall t :: t in Succs(f.blocks[b].term) ==> t in visited
    ensures |finished| < |rpo|
    ensures Walk(f, visited, rpo[b := |rpo| - |finished|], finished + [b], stack)
  {
    hide Listed, IsPath, HasParent, Edge;
    WalkSize(f, visited, rpo, finished, stack + [b]);
    InAppend(finished, b);
    InAppend(stack, b);
    assert b !in finished;
    ListedNext(f, rpo, finished, b);
    var v := |rpo| - |finished|;
    StackTop(f, rpo[b := v], finished + [b], stack, b);
    forall x | x in finished && x != 0
      ensures HasParent(f, rpo[b := v], finished + [b], stack, x)
    {
      ParentStays(f, rpo, finished, stack, b, v, x);
    }
  }

  lemma {:induction false} ClosedOnPath(f: Func, visited: set<nat>, path: seq<nat>, b: nat)
    requires 0 in visited && PathTo(f, path, b)
    requires forall x, t :: x in visited && x < |f.blocks| && t in Succs(f.blocks[x].term) ==> t in visited
    ensures b in visited
    decreases |path|
  {
    if |path| > 1 {
      var last := |path| - 1;
      assert Step(f, path, last - 1);
      PrefixIsPath(f, path, last - 1);
      ClosedOnPath(f, visited, path[..last - 1 + 1], path[last - 1]);
    }
  }

  lemma AllFinished(f: Func, preds: seq<seq<nat>>, visited: set<nat>, rpo: seq<nat>, finished: seq<nat>)
    requires GoodGraph(f, preds) && AllReachable(f) && Walk(f, visited, rpo, finished, []) && 0 in finished
    ensures forall b: nat :: b < |f.blocks| ==> b in finished
    ensures |finished| == |rpo| == |f.blocks|
  {
    forall b: nat | b < |f.blocks|
      ensures b in finished
    {
      assert Reachable(f, b);
      var path :| PathTo(f, path, b);
      ClosedOnPath(f, visited, path, b);
    }
    DistinctBelow(finished, |rpo|);
  }

  /** A block with a number can be reached: its parent has a smaller one. */
  lemma {:induction false} NumberedReachable(f: Func, visited: set<nat>, rpo: seq<nat>, finished: seq<nat>, b: nat)
    requires Walk(f, visited, rpo, finished, []) && |f.blocks| > 0 && b in finished
    ensures b < |f.blocks| && Reachable(f, b)
    decreases rpo[b]
  {
    WalkSize(f, visited, rpo, finished, []);
    if b == 0 {
      assert PathTo(f, [0], 0);
    } else {
      assert HasParent(f, rpo, finished, [], b);
      var p: nat :| IsParent(f, rpo, finished, [], b, p);
      NumberedReachable(f, visited, rpo, finished, p);
      var path :| PathTo(f, path, p);
      ExtendIsPath(f, path, p, b);
      assert PathTo(f, path + [b], b);
    }
  }

  /** Exactly the reachable blocks have a number. */
  lemma NumberedAre(f: Func, visited: set<nat>, rpo: seq<nat>, finished: seq<nat>)
    requires Walk(f, visited, rpo, finished, []) && |f.blocks| > 0 && 0 in finished
    ensures forall b: nat :: b < |f.blocks| ==> (b in finished <==> Reachable(f, b))
  {
    forall b: nat | b < |f.blocks|
      ensures b in finished <==> Reachable(f, b)
    {
      if b in finished {
        NumberedReachable(f, visited, rpo, finished, b);
      }
      if Reachable(f, b) {
        var path :| PathTo(f, path, b);
        ClosedOnPath(f, visited, path, b);
      }
    }
  }

  /** From the second place on the order has a block, and not the entry. */
  ghost predicate SweepReady(rpo: seq<nat>) {
    forall i :: 1 <= i < |rpo| ==> HasOther(rpo, i)
  }

  ghost predicate HasOther(rpo: seq<nat>, i: nat) {
    exists b :: 0 < b < |rpo| && rpo[b] == i + 1
  }

  lemma AllOrSome(f: Func, finished: seq<nat>)
    requires Distinct(finished) && forall i :: 0 <= i < |finished| ==> finished[i] < |f.blocks|
    requires forall b: nat :: b < |f.blocks| ==> (b in finished <==> Reachable(f, b))
    ensures |finished| <= |f.blocks|
    ensures AllReachable(f) <==> |finished| == |f.blocks|
  {
    hide Reachable;
    DistinctBelow(finished, |f.blocks|);
    if |finished| == |f.blocks| {
      forall b: nat | b < |f.blocks|
        ensures b in finished
      {
        if b !in finished {
          var more := finished + [b];
          assert Distinct(more);
          DistinctBelow(more, |f.blocks|);
        }
      }
    }
  }

  /** The sweep over the order finds what it needs exactly if every block is reachable;
      otherwise numbers start above 1, and the second place is empty or the entry's. */
  lemma SweepNeeds(f: Func, visited: set<nat>, rpo: seq<nat>, finished: seq<nat>)
    requires Walk(f, visited, rpo, finished, []) && |finished| > 0 && finished[|finished| - 1] == 0
    ensures SweepReady(rpo) <==> AllReachable(f)
    ensures rpo[0] == 1 + |f.blocks| - |finished|
  {
    var last := |finished| - 1;
    assert finished[last] < |rpo|;
    NumberedAre(f, visited, rpo, finished);
    AllOrSome(f, finished);
    hide AllReachable, HasParent, Reachable;
    if AllReachable(f) {
      forall i | 1 <= i < |rpo|
        ensures HasOther(rpo, i)
      {
        var j := |rpo| - i - 1;
        assert rpo[finished[j]] == i + 1;
        assert finished[j] != finished[last];
      }
    } else {
      var i := |rpo| - |finished|;
      forall b | 0 < b < |rpo|
        ensures rpo[b] != i + 1
      {
        if b in finished {
          var j :| 0 <= j < |finished| && finished[j] == b;
          assert rpo[finished[j]] == |rpo| - j;
        }
      }
      assert !HasOther(rpo, i);
    }
  }

  /** When the walk is over every block has its number. */
  lemma WalkDone(g: Numbered, visited: set<nat>, finished: seq<nat>)
    requires GoodGraph(g.f, g.preds) && AllReachable(g.f) && Walk(g.f, visited, g.rpo, finished, [])
    requires |finished| > 0 && finished[|finished| - 1] == 0
    ensures InPostorder(g)
  {
    AllFinished(g.f, g.preds, visited, g.rpo, finished);
    hide GoodGraph;
    forall b | 0 < b < |g.rpo|
      ensures HasEarlierPred(g, b)
    {
      assert HasParent(g.f, g.rpo, finished, [], b);
      var p: nat :| IsParent(g.f, g.rpo, finished, [], b, p);
      assert EarlierPred(g, b, p);
    }
    NumbersDistinct(g.f, g.rpo, finished);
    hide HasParent, Listed;
  }

  lemma NumbersDistinct(f: Func, rpo: seq<nat>, finished: seq<nat>)
    requires Listed(f, rpo, finished) && |finished| == |rpo|
    requires forall b: nat :: b < |rpo| ==> b in finished
    ensures forall b :: 0 <= b < |rpo| ==> 1 <= rpo[b] <= |rpo|
    ensures forall a, b :: 0 <= a < b < |rpo| ==> rpo[a] != rpo[b]
    ensures |finished| > 0 ==> rpo[finished[|finished| - 1]] == 1
  {
    forall b: nat | b < |rpo|
      ensures 1 <= rpo[b] <= |rpo|
    {
      assert b in finished;
    }
    forall a: nat, b: nat | a < b < |rpo|
      ensures rpo[a] != rpo[b]
    {
      assert a in finished && b in finished;
    }
  }

  /** The blocks in the order of their numbers. */
  ghost predicate IsOrder(g: Numbered, order: seq<nat>) {
    && |order| == |g.rpo|
    && (forall i :: 0 <= i < |order| ==> order[i] < |g.rpo| && g.rpo[order[i]] == i + 1)
    && (forall b :: 0 <= b < |g.rpo| ==> 1 <= g.rpo[b] <= |order| && order[g.rpo[b] - 1] == b)
  }

  // ---------------------------------------------------------------- a pass

  /** The links during pass k, before the block with number i + 1: earlier blocks are one
      pass ahead. */
  ghost predicate PassInv(g: Numbered, t: map<nat, nat>, k: nat, i: nat) {
    && InPostorder(g) && Tree(g, t) && Upper(g, t)
    && (forall b {:trigger InPass(g, t, k, i, b)} :: 0 <= b < |g.rpo| ==> InPass(g, t, k, i, b))
  }

  ghost predicate InPass(g: Numbered, t: map<nat, nat>, k: nat, i: nat, b: nat)
    requires Tree(g, t) && b < |g.rpo|
  {
    if g.rpo[b] <= i then b in t && Bound(g, t, b, k + 1)
    else if k > 0 then b in t && Bound(g, t, b, k)
    else b !in t
  }

  lemma PassReady(g: Numbered, t: map<nat, nat>, k: nat, i: nat, b: nat)
    requires PassInv(g, t, k, i) && 0 < i && b < |g.rpo| && g.rpo[b] == i + 1
    ensures |g.preds| == |g.rpo|
    ensures ReadyAt(g, t, b) && PredsBound(g, t, b, k) && exists p :: EarlierPred(g, b, p) && p in t && p in g.preds[b]
  {
    PredsAreEdges(g.f, g.preds, b);
    assert HasEarlierPred(g, b);
    hide GoodGraph, HasEarlierPred, Bound, Upper, Tree;
    forall p | EarlierPred(g, b, p)
      ensures p in t && Bound(g, t, p, k + 1)
    {
      assert InPass(g, t, k, i, p);
    }
    forall p: nat | LaterPred(g, b, p)
      ensures k > 0 ==> p in t && Bound(g, t, p, k)
    {
      assert InPass(g, t, k, i, p);
      if k > 0 && g.rpo[p] <= i {
        assert false;
      }
    }
  }

  lemma PassStep(g: Numbered, t: map<nat, nat>, k: nat, i: nat, b: nat, m: nat)
    requires PassInv(g, t, k, i) && 0 < i && b < |g.rpo| && g.rpo[b] == i + 1
    requires |g.preds| == |g.rpo| && IsMeet(g, t, b, m)
    ensures PassInv(g, t[b := m], k, i + 1)
    ensures m < |g.rpo| && g.rpo[m] < g.rpo[b]
  {
    PassReady(g, t, k, i, b);
    var _ := MeetEarlier(g, t, b, m);
    LinkTree(g, t, b, m);
    LinkBound(g, t, b, m, k);
    hide GoodGraph, HasEarlierPred, Bound, Upper, Tree, IsMeet, PredsBound;
    var t' := t[b := m];
    var i' := i + 1;
    BoundLess(g, t', b, k);
    forall y | 0 <= y < |g.rpo|
      ensures InPass(g, t', k, i', y)
    {
      assert InPass(g, t, k, i, y);
      if y != b && y in t {
        LinkBoundOther(g, t, b, m, y, if g.rpo[y] <= i then k + 1 else k);
        assert g.rpo[y] != g.rpo[b];
      }
    }
  }

  lemma BoundLess(g: Numbered, t: map<nat, nat>, b: nat, k: nat)
    requires Tree(g, t) && b in t && Bound(g, t, b, k + 1)
    ensures Bound(g, t, b, k)
  {
    var k' := k + 1;
    forall path | IsShort(g, path, b, k)
      ensures Within(g, t, b, path)
    {
      assert IsShort(g, path, b, k');
    }
  }

  /** The next pass starts where one ends. */
  lemma PassEnd(g: Numbered, t: map<nat, nat>, k: nat)
    requires PassInv(g, t, k, |g.rpo|)
    ensures PassInv(g, t, k + 1, 1) && AllIn(g, t)
  {
    var k' := k + 1;
    hide GoodGraph, HasEarlierPred, Bound, Upper, Tree;
    forall b | 0 <= b < |g.rpo|
      ensures InPass(g, t, k', 1, b) && b in t
    {
      assert InPass(g, t, k, |g.rpo|, b);
      if g.rpo[b] <= 1 {
        EntryBound(g, t, b, k' + 1);
      }
    }
  }

  lemma EntryBound(g: Numbered, t: map<nat, nat>, b: nat, k: nat)
    requires InPostorder(g) && Tree(g, t) && b < |g.rpo| && g.rpo[b] <= 1
    ensures b == 0 && Bound(g, t, b, k)
  {
    assert b == 0;
    forall path | IsShort(g, path, 0, k)
      ensures Within(g, t, 0, path)
    {
    }
  }

  lemma PassStart(g: Numbered)
    requires InPostorder(g)
    ensures PassInv(g, map[0 := 0], 0, 1)
  {
    var t: map<nat, nat> := map[0 := 0];
    assert LinkOk(g, t, 0);
    EntryBound(g, t, 0, 1);
    hide GoodGraph, HasEarlierPred, Bound;
    forall b | 0 <= b < |g.rpo|
      ensures InPass(g, t, 0, 1, b)
    {
    }
  }

  /** After as many passes as blocks nothing changes. */
  lemma PassIdle(g: Numbered, t: map<nat, nat>, k: nat, i: nat, b: nat, m: nat)
    requires PassInv(g, t, k, i) && 0 < i && b < |g.rpo| && g.rpo[b] == i + 1
    requires |g.preds| == |g.rpo| && IsMeet(g, t, b, m) && k >= |g.rpo|
    ensures b in t && t[b] == m
  {
    PassReady(g, t, k, i, b);
    hide GoodGraph, HasEarlierPred, Bound, Upper, IsMeet, PredsBound;
    forall y | 0 <= y < |g.rpo|
      ensures y in t && Bound(g, t, y, k)
    {
      assert InPass(g, t, k, i, y);
      if g.rpo[y] <= i {
        BoundLess(g, t, y, k);
      }
    }
    forall y | y in t
      ensures Bound(g, t, y, k)
    {
      assert LinkOk(g, t, y);
    }
    NoChange(g, t, b, m, k);
  }

  // ---------------------------------------------------------------- the algorithm

  class DomTree {
    const f: Func
    const preds: seq<seq<nat>>

    var visited: set<nat>
    var rpo: seq<nat>
    /** A block without an entry has no immediate dominator yet. */
    var immDom: map<nat, nat>
    var valid: bool

    ghost var finished: seq<nat>

    ghost predicate Walking(stack: seq<nat>)
      reads this
    {
      Walk(f, visited, rpo, finished, stack)
    }

    ghost predicate Correct()
      reads this
    {
      && InPostorder(Numbered(f, preds, rpo))
      && 0 in immDom && immDom[0] == 0
      && forall b :: 0 < b < |f.blocks| ==> b in immDom && IsImmDom(f, immDom[b], b)
    }

    constructor (f: Func, preds: seq<seq<nat>>)
      ensures this.f == f && this.preds == preds && !valid
    {
      this.f, this.preds := f, preds;
      visited, rpo, immDom, valid, finished := {}, [], map[], false, [];
    }

    /** Numbers bb and everything reachable from it that is not visited yet; returns the
        next number down. */
    method DepthFirstWalk(bb: nat, c: nat, ghost stack: seq<nat>) returns (c': nat)
      requires ValidTargets(f) && bb < |f.blocks| && bb !in visited
      requires Walking(stack) && c == |f.blocks| - |finished|
      requires if stack == [] then bb == 0 else Edge(f, stack[|stack| - 1], bb)
      modifies this`visited, this`rpo, this`finished
      ensures Walking(stack) && c' == |f.blocks| - |finished|
      ensures bb in visited && old(visited) <= visited
      ensures |finished| > 0 && finished[|finished| - 1] == bb
      decreases Below(|f.blocks|) - visited
    {
      hide Walk, Below;
      BelowCard(|f.blocks|);
      WalkEnter(f, visited, rpo, finished, stack, bb);
      visited := visited + {bb};
      c' := c;
      var succs := Succs(f.blocks[bb].term);
      var iSucc := |succs|;
      while iSucc > 0
        invariant 0 <= iSucc <= |succs|
        invariant Walking(stack + [bb]) && c' == |f.blocks| - |finished|
        invariant old(visited) + {bb} <= visited
        invariant forall j :: iSucc <= j < |succs| ==> succs[j] in visited
      {
        iSucc := iSucc - 1;
        if succs[iSucc] !in visited {
          assert succs[iSucc] in succs;
          assert Edge(f, bb, succs[iSucc]);
          c' := DepthFirstWalk(succs[iSucc], c', stack + [bb]);
        }
      }
      StackIsVisited(f, old(visited), old(rpo), old(finished), stack, bb);
      WalkLeave(f, visited, rpo, finished, stack, bb);
      WalkSize(f, visited, rpo, finished, stack + [bb]);
      rpo := rpo[bb := c'];
      finished := finished + [bb];
      c' := c' - 1;
    }

    /** Numbers what the entry reaches.  The order that follows is complete exactly if that
        is everything. */
    method NumberBlocks()
      requires ValidTargets(f) && |f.blocks| > 0
      modifies this`visited, this`rpo, this`finished
      ensures Walking([]) && |finished| > 0 && finished[|finished| - 1] == 0
      ensures SweepReady(rpo) <==> AllReachable(f)
    {
      visited, rpo := {}, seq(|f.blocks|, _ => 0);
      finished := [];
      var _ := DepthFirstWalk(0, |f.blocks|, []);
      SweepNeeds(f, visited, rpo, finished);
    }

    /** The blocks in the order of their numbers. */
    method CollectOrder() returns (bbRPO: seq<nat>)
      requires InPostorder(Numbered(f, preds, rpo))
      modifies this`visited
      ensures IsOrder(Numbered(f, preds, rpo), bbRPO)
    {
      hide GoodGraph, HasEarlierPred;
      visited := {};
      bbRPO := seq(|rpo|, _ => 0);
      for b := 0 to |rpo|
        invariant |bbRPO| == |rpo|
        invariant forall x :: 0 <= x < b ==> bbRPO[rpo[x] - 1] == x
      {
        if rpo[b] != 0 {
          bbRPO := bbRPO[rpo[b] - 1 := b];
        }
      }
      OrderOnto(Numbered(f, preds, rpo), bbRPO);
    }

    /** The last block common to both chains. */
    method Intersect(b1: nat, b2: nat) returns (r: nat)
      requires InPostorder(Numbered(f, preds, rpo)) && Tree(Numbered(f, preds, rpo), immDom)
      requires b1 in immDom && b2 in immDom
      ensures var g := Numbered(f, preds, rpo);
              r in immDom && r in Chain(g, immDom, b1) && r in Chain(g, immDom, b2) &&
              Chain(g, immDom, b1) * Chain(g, immDom, b2) <= Chain(g, immDom, r)
    {
      hide GoodGraph, HasEarlierPred, Tree;
      ghost var g := Numbered(f, preds, rpo);
      ghost var common := Chain(g, immDom, b1) * Chain(g, immDom, b2);
      var finger1, finger2 := b1, b2;
      FingerOk(g, immDom, b1, finger1);
      FingerOk(g, immDom, b2, finger2);
      while finger1 != finger2
        invariant Finger(g, immDom, b1, finger1, common) && Finger(g, immDom, b2, finger2, common)
        decreases rpo[finger1] + rpo[finger2]
      {
        assert rpo[finger1] != rpo[finger2];
        ghost var start := rpo[finger1] + rpo[finger2];
        while rpo[finger1] > rpo[finger2]
          invariant Finger(g, immDom, b1, finger1, common)
          invariant rpo[finger1] + rpo[finger2] <= start
          invariant rpo[finger1] + rpo[finger2] == start ==> rpo[finger1] != rpo[finger2]
          decreases rpo[finger1]
        {
          FingerUp(g, immDom, b1, finger1, b2, finger2, common);
          finger1 := immDom[finger1];
        }
        while rpo[finger2] > rpo[finger1]
          invariant Finger(g, immDom, b2, finger2, common)
          invariant rpo[finger1] + rpo[finger2] <= start
          invariant rpo[finger1] + rpo[finger2] == start ==> rpo[finger2] > rpo[finger1]
          decreases rpo[finger2]
        {
          FingerUp(g, immDom, b2, finger2, b1, finger1, common);
          finger2 := immDom[finger2];
        }
      }
      r := finger1;
    }

    /** The new link of a block: the meet of its processed predecessors. */
    method NewImmDom(bb: nat) returns (newIDom: nat)
      requires ReadyAt(Numbered(f, preds, rpo), immDom, bb) && bb < |preds|
      requires exists p :: p in immDom && p in preds[bb]
      ensures IsMeet(Numbered(f, preds, rpo), immDom, bb, newIDom)
    {
      hide GoodGraph, HasEarlierPred, Tree, Upper;
      ghost var g := Numbered(f, preds, rpo);
      // The first predecessor that has a link already starts the meet
      var i := 0;
      while preds[bb][i] !in immDom
        invariant i < |preds[bb]| && forall j :: 0 <= j < i ==> preds[bb][j] !in immDom
        decreases |preds[bb]| - i
      {
        i := i + 1;
      }
      var firstProcessedPred := preds[bb][i];
      newIDom := firstProcessedPred;
      ChainSelf(g, immDom, newIDom);
      for iPred := 0 to |preds[bb]|
        invariant newIDom in immDom
        invariant newIDom in Chain(g, immDom, firstProcessedPred)
        invariant forall j :: 0 <= j < iPred && preds[bb][j] in immDom ==> newIDom in Chain(g, immDom, preds[bb][j])
        invariant forall x: nat :: InAllChains(g, immDom, bb, x) ==> x in Chain(g, immDom, newIDom)
      {
        var pred := preds[bb][iPred];
        if pred != firstProcessedPred && pred in immDom {
          ghost var was := newIDom;
          newIDom := Intersect(pred, newIDom);
          ChainDown(g, immDom, newIDom, was);
          assert forall x: nat :: InAllChains(g, immDom, bb, x) ==> x in Chain(g, immDom, pred) * Chain(g, immDom, was);
        }
      }
      MeetFromAll(g, immDom, bb, newIDom);
    }

    /** One pass over all blocks but the entry.  Returns whether a link changed. */
    method BuildPass(bbRPO: seq<nat>, ghost k: nat) returns (changed: bool)
      requires IsOrder(Numbered(f, preds, rpo), bbRPO)
      requires PassInv(Numbered(f, preds, rpo), immDom, k, 1)
      modifies this`immDom
      ensures PassInv(Numbered(f, preds, rpo), immDom, k, |rpo|)
      ensures !changed ==> AtFixpoint(Numbered(f, preds, rpo), immDom)
      ensures k >= |rpo| ==> !changed
    {
      hide PassInv, AtFixpoint, IsMeet, ReadyAt, PredsBound, Fixed, Tree;
      ghost var g := Numbered(f, preds, rpo);
      changed := false;
      PassTree(g, immDom, k, 1);
      for iBB := 1 to |bbRPO|
        invariant PassInv(g, immDom, k, iBB) && Tree(g, immDom)
        invariant !changed ==> forall j :: 1 <= j < iBB ==> FixedAt(g, immDom, bbRPO[j])
        invariant k >= |rpo| ==> !changed
      {
        var bb := bbRPO[iBB];
        PassReady(g, immDom, k, iBB, bb);
        var newIDom := NewImmDom(bb);
        PassStep(g, immDom, k, iBB, bb, newIDom);
        if k >= |rpo| {
          PassIdle(g, immDom, k, iBB, bb, newIDom);
        }
        PassTree(g, immDom[bb := newIDom], k, iBB + 1);
        if bb !in immDom || immDom[bb] != newIDom {
          immDom := immDom[bb := newIDom];
          changed := true;
        } else {
          assert immDom[bb := newIDom] == immDom;
          MeetIsFixed(g, immDom, k, iBB, bb, newIDom);
        }
      }
      if !changed {
        AllFixed(g, immDom, k, bbRPO);
      }
    }

    /** Computes the immediate dominator of every block but the entry. */
    method Update()
      requires GoodGraph(f, preds) && AllReachable(f) && (valid ==> Correct())
      modifies this
      ensures valid && Correct()
    {
      if valid {
        return;
      }
      NumberBlocks();
      ghost var g := Numbered(f, preds, rpo);
      WalkDone(g, visited, finished);
      var bbRPO := CollectOrder();

      // Sweep until no link changes
      immDom := map[0 := 0];
      PassStart(g);
      hide PassInv, AtFixpoint, Walk, IsOrder, GoodGraph, InPostorder, IsImmDom;
      var changed := true;
      ghost var k := 0;
      while changed
        invariant rpo == g.rpo && PassInv(g, immDom, k, 1)
        invariant changed ==> k <= |rpo|
        invariant !changed ==> AtFixpoint(g, immDom)
        decreases if changed then |rpo| + 1 - k else 0
      {
        changed := BuildPass(bbRPO, k);
        PassEnd(g, immDom, k);
        k := k + 1;
      }
      FixpointIsCorrect(g, immDom);
      valid := true;
    }
  }

  // ---------------------------------------------------------------- about the loops

  lemma StackIsVisited(f: Func, visited: set<nat>, rpo: seq<nat>, finished: seq<nat>, stack: seq<nat>, b: nat)
    requires Walk(f, visited, rpo, finished, stack) && b !in visited
    ensures b !in stack
  {
  }

  lemma OrderOnto(g: Numbered, order: seq<nat>)
    requires InPostorder(g) && |order| == |g.rpo|
    requires forall x :: 0 <= x < |g.rpo| ==> order[g.rpo[x] - 1] == x
    ensures IsOrder(g, order)
  {
    hide GoodGraph, HasEarlierPred;
    forall i | 0 <= i < |order|
      ensures order[i] < |g.rpo| && g.rpo[order[i]] == i + 1
    {
      NumberTaken(g.rpo, i + 1);
      var x :| 0 <= x < |g.rpo| && g.rpo[x] == i + 1;
      assert order[g.rpo[x] - 1] == x;
    }
  }

  /** n distinct numbers from 1 to n are all of them. */
  lemma NumberTaken(rpo: seq<nat>, v: nat)
    requires forall b :: 0 <= b < |rpo| ==> 1 <= rpo[b] <= |rpo|
    requires Distinct(rpo) && 1 <= v <= |rpo|
    ensures v in rpo
  {
    if v !in rpo {
      var other := seq(|rpo|, i requires 0 <= i < |rpo| => if rpo[i] < v then rpo[i] - 1 else rpo[i] - 2);
      assert Distinct(other);
      DistinctBelow(other, |rpo| - 1);
    }
  }

  ghost predicate Finger(g: Numbered, t: map<nat, nat>, b: nat, finger: nat, common: set<nat>) {
    && Tree(g, t) && b in t && finger in t && finger < |g.rpo|
    && finger in Chain(g, t, b) && common <= Chain(g, t, finger)
  }

  lemma ChainSelf(g: Numbered, t: map<nat, nat>, b: nat)
    requires Tree(g, t) && b in t
    ensures b in Chain(g, t, b) && b < |g.rpo|
  {
    assert LinkOk(g, t, b);
  }

  lemma FingerOk(g: Numbered, t: map<nat, nat>, b: nat, finger: nat)
    requires Tree(g, t) && b in t && finger == b
    ensures forall common :: common <= Chain(g, t, b) ==> Finger(g, t, b, finger, common)
  {
    ChainSelf(g, t, b);
  }

  /** The finger with the larger number may move up: it is not common. */
  lemma FingerUp(g: Numbered, t: map<nat, nat>, b: nat, finger: nat, b': nat, finger': nat, common: set<nat>)
    requires InPostorder(g) && Finger(g, t, b, finger, common) && Finger(g, t, b', finger', common)
    requires g.rpo[finger] > g.rpo[finger']
    ensures Finger(g, t, b, t[finger], common) && g.rpo[t[finger]] < g.rpo[finger]
  {
    hide GoodGraph, HasEarlierPred;
    assert LinkOk(g, t, finger);
    ChainSelf(g, t, t[finger]);
    ChainTrans(g, t, b, finger);
    assert finger != 0;
    forall x | x in common
      ensures x in Chain(g, t, t[finger])
    {
      ChainMember(g, t, finger', x);
    }
  }

  lemma ChainDown(g: Numbered, t: map<nat, nat>, r: nat, was: nat)
    requires Tree(g, t) && was in t && r in Chain(g, t, was)
    ensures forall b :: b in t && was in Chain(g, t, b) ==> r in Chain(g, t, b)
  {
    forall b | b in t && was in Chain(g, t, b)
      ensures r in Chain(g, t, b)
    {
      ChainTrans(g, t, b, was);
    }
  }

  ghost predicate InAllChains(g: Numbered, t: map<nat, nat>, b: nat, x: nat)
    requires Tree(g, t) && b < |g.preds|
  {
    forall p :: p in g.preds[b] && p in t ==> x in Chain(g, t, p)
  }

  lemma MeetFromAll(g: Numbered, t: map<nat, nat>, b: nat, m: nat)
    requires Tree(g, t) && b < |g.preds| && m in t
    requires forall j :: 0 <= j < |g.preds[b]| && g.preds[b][j] in t ==> m in Chain(g, t, g.preds[b][j])
    requires forall x: nat :: InAllChains(g, t, b, x) ==> x in Chain(g, t, m)
    ensures IsMeet(g, t, b, m)
  {
    forall x: nat | (forall p :: p in g.preds[b] && p in t ==> x in Chain(g, t, p))
      ensures x in Chain(g, t, m)
    {
      assert InAllChains(g, t, b, x);
    }
  }

  lemma PassTree(g: Numbered, t: map<nat, nat>, k: nat, i: nat)
    requires PassInv(g, t, k, i)
    ensures Tree(g, t)
  {
  }

  ghost predicate FixedAt(g: Numbered, t: map<nat, nat>, b: nat) {
    Tree(g, t) && b in t && b < |g.preds| && Fixed(g, t, b) && forall p :: p in g.preds[b] ==> p in t
  }

  lemma MeetIsFixed(g: Numbered, t: map<nat, nat>, k: nat, i: nat, b: nat, m: nat)
    requires PassInv(g, t, k, i) && 0 < i && b < |g.rpo| && g.rpo[b] == i + 1
    requires |g.preds| == |g.rpo| && IsMeet(g, t, b, m) && b in t && t[b] == m
    ensures FixedAt(g, t, b)
  {
    PassReady(g, t, k, i, b);
    PredsAreEdges(g.f, g.preds, b);
    hide GoodGraph, HasEarlierPred, Bound, Upper, Tree;
    assert InPass(g, t, k, i, b);
    forall p | p in g.preds[b]
      ensures p in t
    {
      assert InPass(g, t, k, i, p);
    }
  }

  lemma AllFixed(g: Numbered, t: map<nat, nat>, k: nat, order: seq<nat>)
    requires PassInv(g, t, k, |g.rpo|) && IsOrder(g, order)
    requires forall j :: 1 <= j < |order| ==> FixedAt(g, t, order[j])
    ensures AtFixpoint(g, t)
  {
    PredsAreEdges(g.f, g.preds, 0);
    PassEnd(g, t, k);
    hide GoodGraph, HasEarlierPred, Bound, Upper, Tree, Fixed, InPass;
    forall b | 0 < b < |g.rpo|
      ensures b in t && Fixed(g, t, b)
    {
      assert FixedAt(g, t, order[g.rpo[b] - 1]);
    }
  }

  lemma FixpointIsCorrect(g: Numbered, t: map<nat, nat>)
    requires AtFixpoint(g, t)
    ensures InPostorder(g) && 0 in t && t[0] == 0
    ensures forall b :: 0 < b < |g.f.blocks| ==> b in t && IsImmDom(g.f, t[b], b)
  {
    hide Fixed, GoodGraph, HasEarlierPred, Upper, IsImmDom;
    forall b | 0 < b < |g.f.blocks|
      ensures b in t && IsImmDom(g.f, t[b], b)
    {
      FixpointIsImmDom(g, t, b);
    }
  }
}
