/** Dominance by its definition over all paths, and the bookkeeping of the dominator
    algorithm: reverse postorder numbers, chains of immediate-dominator links, and bounds
    on what those chains may hold after a number of passes. */
module Dominance {
  import opened IR
  import opened Cfg
  import opened Collections

  ghost predicate Dominates(f: Func, d: nat, b: nat) {
    forall path :: PathTo(f, path, b) ==> d in path
  }

  ghost predicate StrictlyDominates(f: Func, d: nat, b: nat) {
    d != b && Dominates(f, d, b)
  }

  /** The strict dominator that all other strict dominators dominate. */
  ghost predicate IsImmDom(f: Func, d: nat, b: nat) {
    StrictlyDominates(f, d, b) && forall e :: StrictlyDominates(f, e, b) ==> Dominates(f, e, d)
  }

  /** A function with its predecessor arrays and reverse postorder numbers. */
  datatype Numbered = Numbered(f: Func, preds: seq<seq<nat>>, rpo: seq<nat>)

  ghost predicate EarlierPred(g: Numbered, b: nat, p: nat)
    requires |g.rpo| == |g.f.blocks| && b < |g.rpo|
  {
    Edge(g.f, p, b) && g.rpo[p] < g.rpo[b]
  }

  ghost predicate HasEarlierPred(g: Numbered, b: nat)
    requires |g.rpo| == |g.f.blocks| && b < |g.rpo|
  {
    exists p :: EarlierPred(g, b, p)
  }

  /** The numbers are 1 to n, the entry has 1, and every other block has a predecessor
      with a smaller number. */
  ghost predicate InPostorder(g: Numbered) {
    && GoodGraph(g.f, g.preds) && AllReachable(g.f)
    && |g.rpo| == |g.f.blocks|
    && g.rpo[0] == 1
    && (forall b :: 0 <= b < |g.rpo| ==> 1 <= g.rpo[b] <= |g.rpo|)
    && (forall a, b :: 0 <= a < b < |g.rpo| ==> g.rpo[a] != g.rpo[b])
    && (forall b :: 0 < b < |g.rpo| ==> HasEarlierPred(g, b))
  }

  // ---------------------------------------------------------------- dominance

  lemma DomPred(f: Func, d: nat, b: nat, p: nat)
    requires StrictlyDominates(f, d, b) && Edge(f, p, b)
    ensures Dominates(f, d, p)
  {
    forall path | PathTo(f, path, p)
      ensures d in path
    {
      ExtendIsPath(f, path, p, b);
      assert d in path + [b];
    }
  }

  /** A dominator comes first in reverse postorder. */
  lemma {:induction false} DomEarlier(g: Numbered, d: nat, b: nat)
    requires InPostorder(g) && b < |g.rpo| && Dominates(g.f, d, b)
    ensures d < |g.rpo| && g.rpo[d] <= g.rpo[b]
    decreases g.rpo[b]
  {
    if b == 0 {
      assert PathTo(g.f, [0], 0);
      assert d in [0];
    } else if d != b {
      assert HasEarlierPred(g, b);
      var p :| EarlierPred(g, b, p);
      DomPred(g.f, d, b, p);
      DomEarlier(g, d, p);
    }
  }

  // ---------------------------------------------------------------- chains

  ghost predicate LinkOk(g: Numbered, t: map<nat, nat>, b: nat)
    requires b in t
  {
    b < |g.rpo| && t[b] in t && t[b] < |g.rpo| && (b != 0 ==> g.rpo[t[b]] < g.rpo[b])
  }

  /** Links lead to smaller numbers and end at the entry. */
  ghost predicate Tree(g: Numbered, t: map<nat, nat>) {
    && |g.rpo| == |g.f.blocks| > 0
    && 0 in t && t[0] == 0
    && forall b {:trigger LinkOk(g, t, b)} :: b in t ==> LinkOk(g, t, b)
  }

  /** A block and everything its links lead to. */
  ghost function Chain(g: Numbered, t: map<nat, nat>, b: nat): set<nat>
    requires Tree(g, t) && b in t
    decreases if b < |g.rpo| then g.rpo[b] else 0
  {
    assert LinkOk(g, t, b);
    if b == 0 then {0} else {b} + Chain(g, t, t[b])
  }

  lemma {:induction false} ChainMember(g: Numbered, t: map<nat, nat>, b: nat, x: nat)
    requires Tree(g, t) && b in t && x in Chain(g, t, b)
    ensures b < |g.rpo| && x in t && x < |g.rpo| && (x == b || g.rpo[x] < g.rpo[b])
    decreases if b < |g.rpo| then g.rpo[b] else 0
  {
    assert LinkOk(g, t, b);
    if x != b {
      ChainMember(g, t, t[b], x);
    }
  }

  lemma {:induction false} ChainTrans(g: Numbered, t: map<nat, nat>, b: nat, y: nat)
    requires Tree(g, t) && b in t && y in Chain(g, t, b)
    ensures y in t && Chain(g, t, y) <= Chain(g, t, b)
    decreases if b < |g.rpo| then g.rpo[b] else 0
  {
    assert LinkOk(g, t, b);
    if y != b {
      ChainTrans(g, t, t[b], y);
    }
  }

  /** Of two members of a chain, one is in the chain of the other. */
  lemma {:induction false} ChainOrder(g: Numbered, t: map<nat, nat>, b: nat, x: nat, y: nat)
    requires Tree(g, t) && b in t && x in Chain(g, t, b) && y in Chain(g, t, b)
    requires y < |g.rpo| && x < |g.rpo| && g.rpo[x] <= g.rpo[y]
    ensures y in t && x in Chain(g, t, y)
    decreases if b < |g.rpo| then g.rpo[b] else 0
  {
    assert LinkOk(g, t, b);
    if y != b {
      ChainMember(g, t, b, y);
      if x == b {
        assert false;
      }
      ChainOrder(g, t, t[b], x, y);
    }
  }

  /** Links do not skip a dominator. */
  ghost predicate KeepsDominators(g: Numbered, t: map<nat, nat>, b: nat)
    requires b in t
  {
    forall d :: StrictlyDominates(g.f, d, b) ==> Dominates(g.f, d, t[b])
  }

  ghost predicate Upper(g: Numbered, t: map<nat, nat>) {
    forall b :: b in t && b != 0 ==> KeepsDominators(g, t, b)
  }

  lemma {:induction false} DomInChain(g: Numbered, t: map<nat, nat>, d: nat, b: nat)
    requires InPostorder(g) && Tree(g, t) && Upper(g, t) && b in t && Dominates(g.f, d, b)
    ensures d in Chain(g, t, b)
    decreases if b < |g.rpo| then g.rpo[b] else 0
  {
    hide GoodGraph, Dominates, HasEarlierPred;
    assert LinkOk(g, t, b);
    if b == 0 {
      DomEarlier(g, d, 0);
    } else if d != b {
      assert KeepsDominators(g, t, b);
      DomInChain(g, t, d, t[b]);
    }
  }

  lemma {:induction false} DomOfMember(g: Numbered, t: map<nat, nat>, d: nat, w: nat, b: nat)
    requires InPostorder(g) && Tree(g, t) && Upper(g, t) && b in t && w in Chain(g, t, b)
    requires Dominates(g.f, d, b) && d < |g.rpo| && w < |g.rpo| && g.rpo[d] <= g.rpo[w]
    ensures Dominates(g.f, d, w)
    decreases if b < |g.rpo| then g.rpo[b] else 0
  {
    hide GoodGraph, Dominates, HasEarlierPred;
    assert LinkOk(g, t, b);
    if w != b {
      ChainMember(g, t, b, w);
      assert KeepsDominators(g, t, b);
      DomOfMember(g, t, d, w, t[b]);
    }
  }

  // ---------------------------------------------------------------- meets

  /** m is the last block common to the chains of all processed predecessors of b. */
  ghost predicate IsMeet(g: Numbered, t: map<nat, nat>, b: nat, m: nat)
    requires Tree(g, t) && b < |g.preds|
  {
    && m in t
    && (forall p :: p in g.preds[b] && p in t ==> m in Chain(g, t, p))
    && (forall x: nat :: (forall p :: p in g.preds[b] && p in t ==> x in Chain(g, t, p)) ==> x in Chain(g, t, m))
  }

  ghost predicate ReadyAt(g: Numbered, t: map<nat, nat>, b: nat) {
    && InPostorder(g) && Tree(g, t) && Upper(g, t)
    && 0 < b < |g.rpo|
    && (forall p :: EarlierPred(g, b, p) ==> p in t)
  }

  lemma MeetEarlier(g: Numbered, t: map<nat, nat>, b: nat, m: nat) returns (p: nat)
    requires ReadyAt(g, t, b) && IsMeet(g, t, b, m)
    ensures EarlierPred(g, b, p) && p in t && p in g.preds[b] && m in Chain(g, t, p)
    ensures m < |g.rpo| && g.rpo[m] < g.rpo[b]
  {
    PredsAreEdges(g.f, g.preds, b);
    assert HasEarlierPred(g, b);
    p :| EarlierPred(g, b, p);
    ChainMember(g, t, p, m);
  }

  lemma MeetKeepsDominators(g: Numbered, t: map<nat, nat>, b: nat, m: nat, d: nat)
    requires ReadyAt(g, t, b) && IsMeet(g, t, b, m) && StrictlyDominates(g.f, d, b)
    ensures Dominates(g.f, d, m)
  {
    PredsAreEdges(g.f, g.preds, b);
    hide GoodGraph, Dominates, HasEarlierPred;
    var p0 := MeetEarlier(g, t, b, m);
    forall p | p in g.preds[b] && p in t
      ensures Dominates(g.f, d, p) && d in Chain(g, t, p)
    {
      DomPred(g.f, d, b, p);
      DomInChain(g, t, d, p);
    }
    ChainMember(g, t, m, d);
    DomOfMember(g, t, d, m, p0);
  }

  // ---------------------------------------------------------------- one more link

  lemma LinkTree(g: Numbered, t: map<nat, nat>, b: nat, m: nat)
    requires ReadyAt(g, t, b) && IsMeet(g, t, b, m)
    ensures Tree(g, t[b := m]) && Upper(g, t[b := m])
  {
    hide GoodGraph, Dominates, HasEarlierPred;
    var p := MeetEarlier(g, t, b, m);
    var t' := t[b := m];
    forall y | y in t'
      ensures LinkOk(g, t', y)
    {
      if y != b {
        assert LinkOk(g, t, y);
      }
    }
    forall y | y in t' && y != 0
      ensures KeepsDominators(g, t', y)
    {
      if y == b {
        forall d | StrictlyDominates(g.f, d, b)
          ensures Dominates(g.f, d, m)
        {
          MeetKeepsDominators(g, t, b, m, d);
        }
      } else {
        assert KeepsDominators(g, t, y);
      }
    }
  }

  lemma {:induction false} LinkChainAbove(g: Numbered, t: map<nat, nat>, b: nat, m: nat, y: nat)
    requires Tree(g, t) && Tree(g, t[b := m]) && b != 0 && y in t
    requires b < |g.rpo| && y < |g.rpo| && g.rpo[y] < g.rpo[b]
    ensures Chain(g, t[b := m], y) == Chain(g, t, y)
    decreases if y < |g.rpo| then g.rpo[y] else 0
  {
    assert LinkOk(g, t, y);
    if y != 0 {
      LinkChainAbove(g, t, b, m, t[y]);
    }
  }

  lemma {:induction false} LinkChain(g: Numbered, t: map<nat, nat>, b: nat, m: nat, y: nat)
    requires Tree(g, t) && Tree(g, t[b := m]) && b != 0 && y in t
    ensures forall x :: x in Chain(g, t[b := m], y) ==>
      x in Chain(g, t, y) || (b in Chain(g, t, y) && x in Chain(g, t[b := m], b))
    decreases if y < |g.rpo| then g.rpo[y] else 0
  {
    assert LinkOk(g, t, y);
    if y != 0 && y != b {
      LinkChain(g, t, b, m, t[y]);
    }
  }

  // ---------------------------------------------------------------- bounds

  /** The number of edges on a path that do not lead to a larger number. */
  ghost function Back(rpo: seq<nat>, path: seq<nat>): nat
    requires forall i :: 0 <= i < |path| ==> path[i] < |rpo|
  {
    if |path| <= 1 then 0
    else Back(rpo, path[..|path| - 1]) + if rpo[path[|path| - 2]] >= rpo[path[|path| - 1]] then 1 else 0
  }

  lemma {:induction false} BackPrefix(rpo: seq<nat>, path: seq<nat>, i: nat)
    requires (forall i :: 0 <= i < |path| ==> path[i] < |rpo|) && i < |path|
    ensures Back(rpo, path[..i + 1]) <= Back(rpo, path)
  {
    if i + 1 < |path| {
      BackPrefix(rpo, path[..|path| - 1], i);
      assert path[..|path| - 1][..i + 1] == path[..i + 1];
    } else {
      assert path[..i + 1] == path;
    }
  }

  lemma {:induction false} BackLength(rpo: seq<nat>, path: seq<nat>)
    requires |path| > 0 && forall i :: 0 <= i < |path| ==> path[i] < |rpo|
    ensures Back(rpo, path) < |path|
  {
    if |path| > 1 {
      BackLength(rpo, path[..|path| - 1]);
    }
  }

  ghost predicate Within(g: Numbered, t: map<nat, nat>, b: nat, path: seq<nat>)
    requires Tree(g, t) && b in t
  {
    forall x :: x in Chain(g, t, b) ==> x in path
  }

  ghost predicate IsShort(g: Numbered, path: seq<nat>, b: nat, k: nat)
    requires |g.rpo| == |g.f.blocks|
  {
    PathTo(g.f, path, b) && Back(g.rpo, path) < k
  }

  /** The chain of b is on every path to b with fewer than k edges backwards. */
  ghost predicate Bound(g: Numbered, t: map<nat, nat>, b: nat, k: nat)
    requires Tree(g, t) && b in t
  {
    forall path :: IsShort(g, path, b, k) ==> Within(g, t, b, path)
  }

  /** Giving b a new link does not hurt the bounds of other blocks. */
  lemma LinkBoundOther(g: Numbered, t: map<nat, nat>, b: nat, m: nat, y: nat, k: nat)
    requires Tree(g, t) && Tree(g, t[b := m]) && b != 0 && y in t
    requires Bound(g, t, y, k) && Bound(g, t[b := m], b, k)
    ensures Bound(g, t[b := m], y, k)
  {
    var t' := t[b := m];
    LinkChain(g, t, b, m, y);
    forall path | IsShort(g, path, y, k)
      ensures Within(g, t', y, path)
    {
      assert Within(g, t, y, path);
      if b in path {
        var i :| 0 <= i < |path| && path[i] == b;
        PrefixIsPath(g.f, path, i);
        BackPrefix(g.rpo, path, i);
        assert IsShort(g, path[..i + 1], b, k);
        assert Within(g, t', b, path[..i + 1]);
      }
    }
  }

  ghost predicate LaterPred(g: Numbered, b: nat, p: nat)
    requires |g.rpo| == |g.f.blocks| && b < |g.rpo|
  {
    Edge(g.f, p, b) && g.rpo[p] >= g.rpo[b]
  }

  ghost predicate PredsBound(g: Numbered, t: map<nat, nat>, b: nat, k: nat)
    requires Tree(g, t) && b < |g.rpo|
  {
    && (forall p :: EarlierPred(g, b, p) ==> p in t && Bound(g, t, p, k + 1))
    && (k > 0 ==> forall p :: LaterPred(g, b, p) ==> p in t && Bound(g, t, p, k))
  }

  lemma LinkBoundOn(g: Numbered, t: map<nat, nat>, b: nat, m: nat, k: nat, path: seq<nat>)
    requires ReadyAt(g, t, b) && IsMeet(g, t, b, m) && PredsBound(g, t, b, k)
    requires Tree(g, t[b := m]) && IsShort(g, path, b, k + 1)
    ensures Within(g, t[b := m], b, path)
  {
    PredsAreEdges(g.f, g.preds, b);
    hide HasEarlierPred, Upper;
    assert path[0] == 0 != b;
    var last := |path| - 1;
    var p, front := path[last - 1], path[..last];
    assert Step(g.f, path, last - 1);
    PrefixIsPath(g.f, path, last - 1);
    assert front == path[..(last - 1) + 1];
    assert p in g.preds[b] && p in t && Within(g, t, p, front) by {
      if g.rpo[p] < g.rpo[b] {
        assert EarlierPred(g, b, p);
        assert IsShort(g, front, p, k + 1);
      } else {
        assert LaterPred(g, b, p);
        assert IsShort(g, front, p, k);
      }
    }
    ChainTrans(g, t, p, m);
    var _ := MeetEarlier(g, t, b, m);
    LinkChainAbove(g, t, b, m, m);
  }

  lemma LinkBound(g: Numbered, t: map<nat, nat>, b: nat, m: nat, k: nat)
    requires ReadyAt(g, t, b) && IsMeet(g, t, b, m) && PredsBound(g, t, b, k)
    requires Tree(g, t[b := m])
    ensures Bound(g, t[b := m], b, k + 1)
  {
    var k' := k + 1;
    forall path | IsShort(g, path, b, k')
      ensures Within(g, t[b := m], b, path)
    {
      LinkBoundOn(g, t, b, m, k, path);
    }
  }

  // ---------------------------------------------------------------- enough passes

  /** Every path has a shorter one inside it that visits no block twice. */
  lemma {:induction false} Shorten(f: Func, path: seq<nat>, b: nat) returns (q: seq<nat>)
    requires PathTo(f, path, b)
    ensures PathTo(f, q, b) && |q| <= |f.blocks| && forall x :: x in q ==> x in path
    decreases |path|
  {
    if |path| <= |f.blocks| {
      q := path;
    } else {
      var i, j := Repeats(path, |f.blocks|);
      CutIsPath(f, path, i, j);
      q := Shorten(f, path[..i + 1] + path[j + 1..], b);
    }
  }

  /** With as many passes as blocks, chains hold dominators only. */
  lemma BoundIsExact(g: Numbered, t: map<nat, nat>, b: nat, k: nat, x: nat)
    requires InPostorder(g) && Tree(g, t) && b in t && Bound(g, t, b, k) && k >= |g.rpo|
    requires x in Chain(g, t, b)
    ensures Dominates(g.f, x, b)
  {
    forall path | PathTo(g.f, path, b)
      ensures x in path
    {
      var q := Shorten(g.f, path, b);
      BackLength(g.rpo, q);
      assert IsShort(g, q, b, k);
      assert Within(g, t, b, q);
    }
  }

  lemma DomFromPreds(g: Numbered, d: nat, b: nat)
    requires GoodGraph(g.f, g.preds) && 0 < b < |g.preds|
    requires forall p :: p in g.preds[b] ==> Dominates(g.f, d, p)
    ensures Dominates(g.f, d, b)
  {
    forall path | PathTo(g.f, path, b)
      ensures d in path
    {
      var last := |path| - 1;
      assert Step(g.f, path, last - 1);
      PrefixIsPath(g.f, path, last - 1);
      assert path[..last] == path[..(last - 1) + 1];
      assert d in path[..last];
    }
  }

  ghost predicate AllIn(g: Numbered, t: map<nat, nat>) {
    forall b :: 0 <= b < |g.rpo| ==> b in t
  }

  ghost predicate AllBound(g: Numbered, t: map<nat, nat>, k: nat)
    requires Tree(g, t)
  {
    forall b :: b in t ==> Bound(g, t, b, k)
  }

  /** Then a meet is the link that is already there. */
  lemma NoChange(g: Numbered, t: map<nat, nat>, b: nat, m: nat, k: nat)
    requires ReadyAt(g, t, b) && IsMeet(g, t, b, m) && AllIn(g, t) && AllBound(g, t, k) && k >= |g.rpo|
    ensures t[b] == m
  {
    PredsAreEdges(g.f, g.preds, b);
    hide GoodGraph, Dominates, HasEarlierPred, Bound;
    assert LinkOk(g, t, b);
    var p0 := MeetEarlier(g, t, b, m);
    var former := t[b];
    // m is a strict dominator of b, so it is in the chain of the old link.
    forall p | p in g.preds[b]
      ensures Dominates(g.f, m, p)
    {
      BoundIsExact(g, t, p, k, m);
    }
    DomFromPreds(g, m, b);
    DomInChain(g, t, m, b);
    ChainMember(g, t, former, m);
    // The old link is a strict dominator of b, so it is in the chain of m.
    BoundIsExact(g, t, b, k, former);
    forall p | p in g.preds[b]
      ensures former in Chain(g, t, p)
    {
      DomPred(g.f, former, b, p);
      DomInChain(g, t, former, p);
    }
    ChainMember(g, t, m, former);
  }

  // ---------------------------------------------------------------- the fixpoint

  ghost predicate Fixed(g: Numbered, t: map<nat, nat>, b: nat)
    requires Tree(g, t) && b in t && b < |g.preds|
  {
    forall p :: p in g.preds[b] ==> p in t && t[b] in Chain(g, t, p)
  }

  ghost predicate AtFixpoint(g: Numbered, t: map<nat, nat>) {
    && InPostorder(g) && Tree(g, t) && Upper(g, t) && AllIn(g, t)
    && |g.preds| == |g.rpo| && forall b :: 0 < b < |g.rpo| ==> Fixed(g, t, b)
  }

  lemma {:induction false} FixpointOnPath(g: Numbered, t: map<nat, nat>, path: seq<nat>, b: nat, x: nat)
    requires AtFixpoint(g, t) && PathTo(g.f, path, b) && x in Chain(g, t, b)
    ensures x in path
    decreases |path|
  {
    PredsAreEdges(g.f, g.preds, b);
    hide GoodGraph, HasEarlierPred, Upper;
    assert LinkOk(g, t, b);
    if b != 0 && x != b {
      var last := |path| - 1;
      var p := path[last - 1];
      assert Step(g.f, path, last - 1);
      PrefixIsPath(g.f, path, last - 1);
      assert path[..last] == path[..(last - 1) + 1];
      assert Fixed(g, t, b);
      ChainTrans(g, t, p, t[b]);
      FixpointOnPath(g, t, path[..last], p, x);
    }
  }

  /** At a fixpoint every link is the immediate dominator. */
  lemma FixpointIsImmDom(g: Numbered, t: map<nat, nat>, b: nat)
    requires AtFixpoint(g, t) && 0 < b < |g.rpo|
    ensures b in t && IsImmDom(g.f, t[b], b)
  {
    hide GoodGraph, HasEarlierPred;
    assert LinkOk(g, t, b);
    forall path | PathTo(g.f, path, b)
      ensures t[b] in path
    {
      FixpointOnPath(g, t, path, b, t[b]);
    }
    assert KeepsDominators(g, t, b);
  }

  /** ... and the chain of a block is exactly the set of its dominators. */
  lemma FixpointChain(g: Numbered, t: map<nat, nat>, b: nat, d: nat)
    requires AtFixpoint(g, t) && b < |g.rpo|
    ensures b in t && (d in Chain(g, t, b) <==> Dominates(g.f, d, b))
  {
    if d in Chain(g, t, b) {
      forall path | PathTo(g.f, path, b)
        ensures d in path
      {
        FixpointOnPath(g, t, path, b, d);
      }
    }
    if Dominates(g.f, d, b) {
      DomInChain(g, t, d, b);
    }
  }

  /** Two blocks that dominate each other are the same. */
  lemma {:induction false} DomAntisymmetric(f: Func, d: nat, e: nat, path: seq<nat>)
    requires Dominates(f, d, e) && Dominates(f, e, d) && PathTo(f, path, d)
    ensures d == e
    decreases |path|
  {
    var i :| 0 <= i < |path| && path[i] == e;
    PrefixIsPath(f, path, i);
    var j :| 0 <= j <= i && path[..i + 1][j] == d;
    PrefixIsPath(f, path, j);
    if d != e {
      DomAntisymmetric(f, d, e, path[..j + 1]);
    }
  }

  lemma ImmDomUnique(f: Func, d: nat, e: nat, b: nat)
    requires IsImmDom(f, d, b) && IsImmDom(f, e, b) && Reachable(f, b)
    ensures d == e
  {
    var path :| PathTo(f, path, b);
    var i :| 0 <= i < |path| && path[i] == d;
    PrefixIsPath(f, path, i);
    DomAntisymmetric(f, d, e, path[..i + 1]);
  }

  /** The immediate dominator, said of paths: it is on every path to b, and so is on every
      path to it whatever else is on every path to b. */
  lemma ImmDomMeans(f: Func, d: nat, b: nat)
    requires IsImmDom(f, d, b)
    ensures d != b && forall path :: PathTo(f, path, b) ==> d in path
    ensures forall e: nat, path: seq<nat> ::
              PathTo(f, path, d) && e != b && (forall p :: PathTo(f, p, b) ==> e in p) ==> e in path
  {
    forall e: nat, path: seq<nat> | PathTo(f, path, d) && e != b && (forall p :: PathTo(f, p, b) ==> e in p)
      ensures e in path
    {
      assert StrictlyDominates(f, e, b);
      assert Dominates(f, e, d);
    }
  }
}
