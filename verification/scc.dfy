/** Reachability, strongly connected components and what Tarjan's walk keeps about its
    stack and the components found so far. */
module Components {
  import opened Collections

  /** For each node the nodes it has an edge to. */
  type Graph = seq<seq<nat>>

  ghost predicate Closed(g: Graph) {
    forall u, v :: 0 <= u < |g| && v in g[u] ==> v < |g|
  }

  ghost predicate WalkStep(g: Graph, walk: seq<nat>, i: nat) {
    i + 1 < |walk| && walk[i] < |g| && walk[i + 1] in g[walk[i]]
  }

  ghost predicate IsWalk(g: Graph, walk: seq<nat>) {
    && |walk| > 0
    && walk[|walk| - 1] < |g|
    && forall i :: 0 <= i < |walk| - 1 ==> WalkStep(g, walk, i)
  }

  ghost predicate WalkFrom(g: Graph, walk: seq<nat>, u: nat, v: nat) {
    IsWalk(g, walk) && walk[0] == u && walk[|walk| - 1] == v
  }

  ghost predicate Reach(g: Graph, u: nat, v: nat) {
    exists walk :: WalkFrom(g, walk, u, v)
  }

  ghost predicate Mutual(g: Graph, u: nat, v: nat) {
    Reach(g, u, v) && Reach(g, v, u)
  }

  /** Exactly the nodes that are mutually reachable with one of them. */
  ghost predicate IsScc(g: Graph, c: seq<nat>) {
    |c| > 0 && Distinct(c) && forall u, v: nat :: u in c ==> (v in c <==> Mutual(g, u, v))
  }

  lemma ReachSelf(g: Graph, u: nat)
    requires u < |g|
    ensures Reach(g, u, u)
  {
    assert WalkFrom(g, [u], u, u);
  }

  lemma ReachEdge(g: Graph, u: nat, v: nat)
    requires u < |g| && v < |g| && v in g[u]
    ensures Reach(g, u, v)
  {
    var walk := [u, v];
    assert WalkStep(g, walk, 0);
    assert WalkFrom(g, walk, u, v);
  }

  lemma JoinWalks(g: Graph, a: seq<nat>, b: seq<nat>)
    requires IsWalk(g, a) && IsWalk(g, b) && a[|a| - 1] == b[0]
    ensures WalkFrom(g, a + b[1..], a[0], b[|b| - 1])
  {
    var walk := a + b[1..];
    forall i | 0 <= i < |walk| - 1
      ensures WalkStep(g, walk, i)
    {
      if i < |a| - 1 {
        assert WalkStep(g, a, i);
      } else {
        assert WalkStep(g, b, i - |a| + 1);
      }
    }
  }

  lemma ReachTrans(g: Graph, u: nat, v: nat, w: nat)
    requires Reach(g, u, v) && Reach(g, v, w)
    ensures Reach(g, u, w)
  {
    var a :| WalkFrom(g, a, u, v);
    var b :| WalkFrom(g, b, v, w);
    JoinWalks(g, a, b);
  }

  lemma WalkPart(g: Graph, walk: seq<nat>, i: nat, j: nat)
    requires IsWalk(g, walk) && i <= j < |walk|
    ensures Reach(g, walk[i], walk[j])
  {
    var part := walk[i..j + 1];
    forall k | 0 <= k < |part| - 1
      ensures WalkStep(g, part, k)
    {
      assert WalkStep(g, walk, i + k);
    }
    assert j < |walk| - 1 ==> WalkStep(g, walk, j);
    assert WalkFrom(g, part, walk[i], walk[j]);
  }

  /** A walk that leaves a set of nodes does so along an edge. */
  lemma LeavingEdge(g: Graph, s: seq<nat>, a: nat, z: nat) returns (u: nat, v: nat)
    requires a in s && z !in s && Reach(g, a, z)
    ensures u in s && v !in s && u < |g| && v in g[u] && Reach(g, v, z)
  {
    var walk :| WalkFrom(g, walk, a, z);
    var i := 0;
    while walk[i + 1] in s
      invariant i < |walk| - 1 && walk[i] in s
      decreases |walk| - i
    {
      i := i + 1;
    }
    assert WalkStep(g, walk, i);
    WalkPart(g, walk, i + 1, |walk| - 1);
    return walk[i], walk[i + 1];
  }

  lemma MutualTrans(g: Graph, u: nat, v: nat, w: nat)
    requires Mutual(g, u, v) && Mutual(g, v, w)
    ensures Mutual(g, u, w)
  {
    ReachTrans(g, u, v, w);
    ReachTrans(g, w, v, u);
  }

  // ---------------------------------------------------------------- the walk's state

  const UNVISITED: nat := 0xFFFFFFFF

  /** `order` lists the visited nodes; the id of a node is its place there. */
  ghost predicate Numbers(n: nat, id: seq<nat>, order: seq<nat>) {
    && |id| == n <= UNVISITED
    && Distinct(order)
    && (forall i :: 0 <= i < |order| ==> order[i] < n && id[order[i]] == i)
    && (forall v :: 0 <= v < n && v !in order ==> id[v] == UNVISITED)
  }

  ghost predicate StackSorted(id: seq<nat>, order: seq<nat>, stack: seq<nat>) {
    && (forall i :: 0 <= i < |stack| ==> stack[i] in order && stack[i] < |id|)
    && (forall i, j :: 0 <= i < j < |stack| ==> id[stack[i]] < id[stack[j]])
  }

  /** An active node at or below the i-th of the stack can be reached from it. */
  ghost predicate Back(g: Graph, stack: seq<nat>, active: set<nat>, i: nat, j: nat) {
    j <= i < |stack| && stack[j] in active && Reach(g, stack[i], stack[j])
  }

  ghost predicate HasBack(g: Graph, stack: seq<nat>, active: set<nat>, i: nat) {
    exists j: nat :: Back(g, stack, active, i, j)
  }

  ghost predicate Upward(g: Graph, stack: seq<nat>) {
    forall i, j :: 0 <= i <= j < |stack| ==> Reach(g, stack[i], stack[j])
  }

  ghost predicate Linked(g: Graph, stack: seq<nat>, active: set<nat>) {
    && Upward(g, stack)
    && (forall i: nat :: i < |stack| ==> HasBack(g, stack, active, i))
  }

  ghost predicate In(sccs: seq<seq<nat>>, v: nat, i: nat) {
    i < |sccs| && v in sccs[i]
  }

  ghost predicate Found(sccs: seq<seq<nat>>, v: nat) {
    exists i: nat :: In(sccs, v, i)
  }

  /** Edges of a component lead into it or into an earlier one. */
  ghost predicate CalleesFirst(g: Graph, sccs: seq<seq<nat>>) {
    forall i: nat, u: nat, v: nat :: In(sccs, u, i) && u < |g| && v in g[u] ==> Found(sccs[..i + 1], v)
  }

  ghost predicate Emitted(g: Graph, order: seq<nat>, stack: seq<nat>, sccs: seq<seq<nat>>) {
    && (forall v: nat :: Found(sccs, v) <==> v in order && v !in stack)
    && (forall v: nat, i: nat, j: nat :: In(sccs, v, i) && In(sccs, v, j) ==> i == j)
    && (forall i :: 0 <= i < |sccs| ==> IsScc(g, sccs[i]))
    && CalleesFirst(g, sccs)
  }

  /** Nodes that are done have visited callees. */
  ghost predicate NoWhite(g: Graph, order: seq<nat>, active: set<nat>) {
    forall u, v :: u in order && u !in active && u < |g| && v in g[u] ==> v in order
  }

  /** `active` are the nodes whose call is under way. */
  ghost predicate TarjanInv(g: Graph, id: seq<nat>, order: seq<nat>, stack: seq<nat>, sccs: seq<seq<nat>>,
                            active: set<nat>) {
    && Closed(g)
    && Numbers(|g|, id, order)
    && StackSorted(id, order, stack)
    && Linked(g, stack, active)
    && Emitted(g, order, stack, sccs)
    && NoWhite(g, order, active)
    && (forall v :: v in active ==> v in stack)
  }

  lemma NumbersNext(n: nat, id: seq<nat>, order: seq<nat>, x: nat)
    requires Numbers(n, id, order) && x < n && x !in order
    ensures |order| < n && Numbers(n, id[x := |order|], order + [x])
  {
    InAppend(order, x);
    assert Distinct(order + [x]);
    DistinctBelow(order + [x], n);
  }

  lemma VisitedId(n: nat, id: seq<nat>, order: seq<nat>, v: nat)
    requires Numbers(n, id, order) && v < n
    ensures v in order <==> id[v] != UNVISITED
    ensures |order| <= n
    ensures v in order ==> id[v] < |order|
  {
    DistinctBelow(order, n);
    if v in order {
      var i :| 0 <= i < |order| && order[i] == v;
    }
  }

  lemma LinkedPush(g: Graph, stack: seq<nat>, active: set<nat>, x: nat)
    requires Linked(g, stack, active) && x < |g|
    requires forall y :: y in stack ==> Reach(g, y, x)
    ensures Linked(g, stack + [x], active + {x})
  {
    var stack', active' := stack + [x], active + {x};
    ReachSelf(g, x);
    hide Reach;
    forall i: nat | i < |stack'|
      ensures HasBack(g, stack', active', i)
    {
      if i < |stack| {
        assert HasBack(g, stack, active, i);
        var j: nat :| Back(g, stack, active, i, j);
        assert Back(g, stack', active', i, j);
      } else {
        assert Back(g, stack', active', i, i);
      }
    }
  }

  lemma Enter(g: Graph, id: seq<nat>, order: seq<nat>, stack: seq<nat>, sccs: seq<seq<nat>>, active: set<nat>, x: nat)
    requires TarjanInv(g, id, order, stack, sccs, active) && x < |g| && x !in order
    requires forall y :: y in stack ==> Reach(g, y, x)
    ensures |order| < |g|
    ensures TarjanInv(g, id[x := |order|], order + [x], stack + [x], sccs, active + {x})
  {
    NumbersNext(|g|, id, order, x);
    LinkedPush(g, stack, active, x);
    InAppend(order, x);
    InAppend(stack, x);
    hide Linked, Reach, IsScc, CalleesFirst, Found, Closed, Numbers;
    SortedPush(|g|, id, order, stack, x);
    hide StackSorted;
  }

  lemma SortedPush(n: nat, id: seq<nat>, order: seq<nat>, stack: seq<nat>, x: nat)
    requires Numbers(n, id, order) && StackSorted(id, order, stack) && x < n && x !in order
    ensures StackSorted(id[x := |order|], order + [x], stack + [x])
  {
    InAppend(order, x);
    forall i | 0 <= i < |stack|
      ensures id[stack[i]] < |order|
    {
      VisitedId(n, id, order, stack[i]);
    }
  }

  // ---------------------------------------------------------------- a component is found

  ghost predicate NoEdgesDown(g: Graph, stack: seq<nat>, p: nat)
    requires p <= |stack|
  {
    forall u, v :: u in stack[p..] && u < |g| && v in g[u] ==> v !in stack[..p]
  }

  /** Members of the top part of the stack reach its first node, and are reached by it. */
  lemma TopIsMutual(g: Graph, stack: seq<nat>, active: set<nat>, p: nat, i: nat)
    requires Linked(g, stack, active) && p <= i < |stack|
    requires forall j :: p < j < |stack| ==> stack[j] !in active
    ensures Mutual(g, stack[p], stack[i])
  {
    assert HasBack(g, stack, active, i);
    var j: nat :| Back(g, stack, active, i, j);
    hide Reach;
    assert Upward(g, stack);
    assert j <= p;
    ReachTrans(g, stack[i], stack[j], stack[p]);
  }

  /** What is mutually reachable with a listed node is listed as well. */
  lemma ListedWhole(g: Graph, order: seq<nat>, stack: seq<nat>, sccs: seq<seq<nat>>, u: nat, v: nat)
    requires Emitted(g, order, stack, sccs) && u in order && u !in stack && Mutual(g, u, v)
    ensures v !in stack
  {
    assert Found(sccs, u);
    var i: nat :| In(sccs, u, i);
    assert IsScc(g, sccs[i]);
    hide Mutual;
    assert In(sccs, v, i);
    assert Found(sccs, v);
  }

  /** Nothing outside is mutually reachable with a member. */
  lemma TopIsMaximal(g: Graph, order: seq<nat>, stack: seq<nat>, sccs: seq<seq<nat>>, p: nat, a: nat, z: nat)
    requires Closed(g) && Emitted(g, order, stack, sccs) && p < |stack|
    requires NoEdgesDown(g, stack, p)
    requires forall u, v :: u in stack[p..] && u < |g| && v in g[u] ==> v in order
    requires forall u :: u in stack[p..] ==> Mutual(g, stack[p], u)
    requires a in stack[p..] && Mutual(g, a, z)
    ensures z in stack[p..]
  {
    hide Emitted;
    var top := stack[p..];
    if z !in top {
      var u, v := LeavingEdge(g, top, a, z);
      assert stack == stack[..p] + top;
      assert v in order && v !in stack;
      ReachEdge(g, u, v);
      assert Mutual(g, stack[p], a) && Mutual(g, stack[p], u);
      hide Reach;
      ReachTrans(g, v, z, a);
      ReachTrans(g, v, a, stack[p]);
      ReachTrans(g, v, stack[p], u);
      assert Mutual(g, v, u) && u in stack;
      ListedWhole(g, order, stack, sccs, v, u);
    }
  }

  lemma TopIsScc(g: Graph, id: seq<nat>, order: seq<nat>, stack: seq<nat>, sccs: seq<seq<nat>>, active: set<nat>,
                 p: nat)
    requires Closed(g) && StackSorted(id, order, stack) && Linked(g, stack, active) && Emitted(g, order, stack, sccs)
    requires p < |stack| && NoEdgesDown(g, stack, p)
    requires forall j :: p < j < |stack| ==> stack[j] !in active
    requires forall u, v :: u in stack[p..] && u < |g| && v in g[u] ==> v in order
    ensures IsScc(g, stack[p..])
  {
    var top := stack[p..];
    forall u | u in top
      ensures Mutual(g, stack[p], u)
    {
      var i :| 0 <= i < |top| && top[i] == u;
      TopIsMutual(g, stack, active, p, p + i);
    }
    hide Linked, Reach, Emitted, Closed;
    forall u, v: nat | u in top
      ensures v in top <==> Mutual(g, u, v)
    {
      if v in top {
        MutualTrans(g, u, stack[p], v);
      }
      if Mutual(g, u, v) {
        TopIsMaximal(g, order, stack, sccs, p, u, v);
      }
    }
  }

  ghost predicate SameNodes(a: seq<nat>, b: seq<nat>) {
    |a| == |b| && Distinct(a) && forall v :: v in a <==> v in b
  }

  lemma FoundAppend(sccs: seq<seq<nat>>, c: seq<nat>)
    ensures forall v: nat :: Found(sccs + [c], v) <==> Found(sccs, v) || v in c
    ensures forall v: nat, i: nat :: In(sccs + [c], v, i) <==> In(sccs, v, i) || (i == |sccs| && v in c)
  {
    var sccs' := sccs + [c];
    forall v: nat
      ensures Found(sccs', v) <==> Found(sccs, v) || v in c
    {
      if i: nat :| In(sccs, v, i) {
        assert In(sccs', v, i);
      }
      if v in c {
        assert In(sccs', v, |sccs|);
      }
      if i: nat :| In(sccs', v, i) {
        assert i < |sccs| ==> In(sccs, v, i);
      }
    }
  }

  lemma CalleesFirstAppend(g: Graph, sccs: seq<seq<nat>>, c: seq<nat>)
    requires CalleesFirst(g, sccs)
    requires forall u, v :: u in c && u < |g| && v in g[u] ==> v in c || Found(sccs, v)
    ensures CalleesFirst(g, sccs + [c])
  {
    var sccs' := sccs + [c];
    FoundAppend(sccs, c);
    assert sccs'[..|sccs| + 1] == sccs';
    forall i: nat, u: nat, v: nat | In(sccs', u, i) && u < |g| && v in g[u]
      ensures Found(sccs'[..i + 1], v)
    {
      if i < |sccs| {
        assert In(sccs, u, i);
        assert sccs'[..i + 1] == sccs[..i + 1];
      }
    }
  }

  lemma EmittedAppend(g: Graph, order: seq<nat>, stack: seq<nat>, sccs: seq<seq<nat>>, p: nat, c: seq<nat>)
    requires Emitted(g, order, stack, sccs) && p < |stack| && NoEdgesDown(g, stack, p)
    requires forall u, v :: u in stack[p..] && u < |g| && v in g[u] ==> v in order
    requires forall v :: v in stack ==> v in order
    requires Distinct(stack) && SameNodes(c, stack[p..]) && IsScc(g, c)
    ensures Emitted(g, order, stack[..p], sccs + [c])
  {
    hide IsScc;
    FoundAppend(sccs, c);
    assert forall v :: v in stack <==> v in stack[..p] || v in stack[p..] by {
      assert stack == stack[..p] + stack[p..];
    }
    assert forall v :: v in stack[..p] ==> v !in stack[p..];
    forall u, v | u in c && u < |g| && v in g[u]
      ensures v in c || Found(sccs, v)
    {
    }
    hide Found;
    CalleesFirstAppend(g, sccs, c);
    hide CalleesFirst;
    forall v: nat, i: nat, j: nat | In(sccs + [c], v, i) && In(sccs + [c], v, j)
      ensures i == j
    {
      InFound(sccs, v);
    }
  }

  lemma InFound(sccs: seq<seq<nat>>, v: nat)
    ensures forall i: nat :: In(sccs, v, i) ==> Found(sccs, v)
  {
  }

  lemma SameScc(g: Graph, a: seq<nat>, b: seq<nat>)
    requires IsScc(g, b) && SameNodes(a, b)
    ensures IsScc(g, a)
  {
  }

  lemma LinkedPrefix(g: Graph, stack: seq<nat>, active: set<nat>, p: nat, x: nat)
    requires Linked(g, stack, active) && p < |stack| && stack[p] == x
    requires Distinct(stack)
    ensures Linked(g, stack[..p], active - {x})
  {
    var stack' := stack[..p];
    hide Reach;
    forall i: nat | i < p
      ensures HasBack(g, stack', active - {x}, i)
    {
      assert HasBack(g, stack, active, i);
      var j: nat :| Back(g, stack, active, i, j);
      assert Back(g, stack', active - {x}, i, j);
    }
  }

  lemma TopEdges(g: Graph, id: seq<nat>, order: seq<nat>, stack: seq<nat>, active: set<nat>, p: nat)
    requires StackSorted(id, order, stack) && NoWhite(g, order, active) && p < |stack|
    requires forall j :: p < j < |stack| ==> stack[j] !in active
    requires stack[p] < |g| && forall v :: v in g[stack[p]] ==> v in order
    ensures forall u, v :: u in stack[p..] && u < |g| && v in g[u] ==> v in order
    ensures forall v :: v in stack ==> v in order
    ensures Distinct(stack)
  {
    forall u, v | u in stack[p..] && u < |g| && v in g[u]
      ensures v in order
    {
      var i :| p <= i < |stack| && stack[i] == u;
      assert u != stack[p] ==> u in order && u !in active;
    }
  }

  lemma ActiveBelow(stack: seq<nat>, active: set<nat>, p: nat)
    requires p < |stack| && (forall v :: v in active ==> v in stack)
    requires forall j :: p < j < |stack| ==> stack[j] !in active
    ensures forall v :: v in active - {stack[p]} ==> v in stack[..p]
  {
    forall v | v in active && v != stack[p]
      ensures v in stack[..p]
    {
      var i :| 0 <= i < |stack| && stack[i] == v;
    }
  }

  /** The component on top of the stack is taken off and listed. */
  lemma Pop(g: Graph, id: seq<nat>, order: seq<nat>, stack: seq<nat>, sccs: seq<seq<nat>>, active: set<nat>, p: nat,
            c: seq<nat>)
    requires TarjanInv(g, id, order, stack, sccs, active)
    requires p < |stack| && stack[p] in active && NoEdgesDown(g, stack, p)
    requires forall j :: p < j < |stack| ==> stack[j] !in active
    requires stack[p] < |g| && forall v :: v in g[stack[p]] ==> v in order
    requires SameNodes(c, stack[p..])
    ensures TarjanInv(g, id, order, stack[..p], sccs + [c], active - {stack[p]})
  {
    hide IsScc, Reach, Emitted, Linked, Closed, Numbers, NoEdgesDown;
    TopEdges(g, id, order, stack, active, p);
    TopIsScc(g, id, order, stack, sccs, active, p);
    SameScc(g, c, stack[p..]);
    EmittedAppend(g, order, stack, sccs, p, c);
    LinkedPrefix(g, stack, active, p, stack[p]);
    ActiveBelow(stack, active, p);
  }

  // ---------------------------------------------------------------- no component yet

  lemma LinkedLeave(g: Graph, stack: seq<nat>, active: set<nat>, p: nat, z: nat)
    requires Linked(g, stack, active) && z < p < |stack| && stack[p] in active
    requires Distinct(stack) && Reach(g, stack[p], stack[z])
    requires forall j :: p < j < |stack| ==> stack[j] !in active
    ensures Linked(g, stack, active - {stack[p]})
  {
    var x := stack[p];
    var active' := active - {x};
    hide Reach;
    assert HasBack(g, stack, active, z);
    var y: nat :| Back(g, stack, active, z, y);
    forall i: nat | i < |stack|
      ensures HasBack(g, stack, active', i)
    {
      assert HasBack(g, stack, active, i);
      var j: nat :| Back(g, stack, active, i, j);
      if j == p {
        ReachTrans(g, stack[i], x, stack[z]);
        ReachTrans(g, stack[i], stack[z], stack[y]);
        assert Back(g, stack, active', i, y);
      } else {
        assert Back(g, stack, active', i, j);
      }
    }
  }

  /** The call for the node at p ends, and the node waits on the stack: it reaches a
      lower one. */
  lemma Leave(g: Graph, id: seq<nat>, order: seq<nat>, stack: seq<nat>, sccs: seq<seq<nat>>, active: set<nat>,
              p: nat, z: nat)
    requires TarjanInv(g, id, order, stack, sccs, active)
    requires z < p < |stack| && stack[p] in active && Reach(g, stack[p], stack[z])
    requires forall j :: p < j < |stack| ==> stack[j] !in active
    requires stack[p] < |g| && forall v :: v in g[stack[p]] ==> v in order
    ensures TarjanInv(g, id, order, stack, sccs, active - {stack[p]})
  {
    assert Distinct(stack);
    LinkedLeave(g, stack, active, p, z);
    hide Emitted, Linked, Closed, Numbers, StackSorted, Reach;
  }

  /** Everything on the stack reaches the topmost active node. */
  lemma StackReaches(g: Graph, stack: seq<nat>, active: set<nat>, p: nat, y: nat)
    requires Linked(g, stack, active) && p < |stack| && y in stack
    requires forall j :: p < j < |stack| ==> stack[j] !in active
    ensures Reach(g, y, stack[p])
  {
    var i: nat :| i < |stack| && stack[i] == y;
    assert HasBack(g, stack, active, i);
    var j: nat :| Back(g, stack, active, i, j);
    hide Reach;
    assert Upward(g, stack);
    ReachTrans(g, y, stack[j], stack[p]);
  }

  // ---------------------------------------------------------------- low links

  /** Edges from above place p of the stack to below it lead to numbers from low on. */
  ghost predicate EdgesBound(g: Graph, id: seq<nat>, stack: seq<nat>, p: nat, low: nat) {
    p <= |stack| && forall u, v :: u in stack[p..] && v in stack[..p] && u < |g| && v in g[u] && v < |id| ==>
      low <= id[v]
  }

  ghost predicate Lower(g: Graph, id: seq<nat>, stack: seq<nat>, p: nat, x: nat, low: nat, z: nat) {
    z < p <= |stack| && stack[z] < |id| && low == id[stack[z]] && Reach(g, x, stack[z])
  }

  ghost predicate HasLower(g: Graph, id: seq<nat>, stack: seq<nat>, p: nat, x: nat, low: nat) {
    exists z: nat :: Lower(g, id, stack, p, x, low, z)
  }

  /** At the end of a walk from x, which put x at place p: its component is listed, or it
      waits and `low` is the number of a lower node that it reaches. */
  ghost predicate LowOk(g: Graph, id: seq<nat>, stack: seq<nat>, p: nat, x: nat, low: nat)
    requires x < |id|
  {
    if x in stack then HasLower(g, id, stack, p, x, low) && low < id[x]
    else low == id[x] && |stack| == p
  }

  /** During the walk, after i of the edges of x. */
  ghost predicate LowSoFar(g: Graph, id: seq<nat>, stack: seq<nat>, p: nat, low: nat, i: nat) {
    && p < |stack| && stack[p] < |g| && |id| == |g| && i <= |g[stack[p]]|
    && low <= id[stack[p]]
    && (low < id[stack[p]] ==> HasLower(g, id, stack, p, stack[p], low))
    && EdgesBound(g, id, stack[..p] + stack[p + 1..], p, low)
    && (forall j :: 0 <= j < i && g[stack[p]][j] in stack[..p] && g[stack[p]][j] < |id| ==> low <= id[g[stack[p]][j]])
  }

  function Min(a: nat, b: nat): nat {
    if a < b then a else b
  }

  lemma SortedPlaces(id: seq<nat>, order: seq<nat>, stack: seq<nat>, z: nat, p: nat)
    requires StackSorted(id, order, stack) && z < |stack| && p < |stack| && id[stack[z]] < id[stack[p]]
    ensures z < p
  {
  }

  lemma LowStart(g: Graph, id: seq<nat>, stack: seq<nat>, p: nat)
    requires |stack| == p + 1 && stack[p] < |g| == |id|
    ensures LowSoFar(g, id, stack, p, id[stack[p]], 0)
  {
    assert stack[..p] + stack[p + 1..] == stack[..p];
  }

  /** An edge to a node that is on the stack. */
  lemma LowOnStack(g: Graph, id: seq<nat>, order: seq<nat>, stack: seq<nat>, p: nat, low: nat, i: nat)
    requires LowSoFar(g, id, stack, p, low, i) && i < |g[stack[p]]| && g[stack[p]][i] in stack &&
               StackSorted(id, order, stack)
    ensures g[stack[p]][i] < |id| && LowSoFar(g, id, stack, p, Min(low, id[g[stack[p]][i]]), i + 1)
  {
    var w := g[stack[p]][i];
    var z :| 0 <= z < |stack| && stack[z] == w;
    if id[w] < low {
      ReachEdge(g, stack[p], w);
      SortedPlaces(id, order, stack, z, p);
      assert Lower(g, id, stack, p, stack[p], id[w], z);
    }
  }

  /** An edge to a node whose component has been listed. */
  lemma LowListed(g: Graph, id: seq<nat>, stack: seq<nat>, p: nat, low: nat, i: nat)
    requires LowSoFar(g, id, stack, p, low, i) && i < |g[stack[p]]| && g[stack[p]][i] !in stack
    ensures LowSoFar(g, id, stack, p, low, i + 1)
  {
    assert stack[..p] <= stack;
    assert g[stack[p]][i] !in stack[..p];
  }

  /** Numbers of visited nodes and the lower part of the stack stay as they were. */
  ghost predicate Extends(id0: seq<nat>, order0: seq<nat>, stack0: seq<nat>, id: seq<nat>, order: seq<nat>,
                          stack: seq<nat>) {
    && |id0| == |id|
    && |stack0| <= |stack| && stack[..|stack0|] == stack0
    && |order0| <= |order| && order[..|order0|] == order0
    && (forall v :: v in order0 && v < |id| ==> id[v] == id0[v])
  }

  lemma ChildEdges(g: Graph, id0: seq<nat>, order0: seq<nat>, stack0: seq<nat>, id: seq<nat>, order: seq<nat>,
                   stack: seq<nat>,
                   p: nat, low: nat, lowW: nat)
    requires StackSorted(id0, order0, stack0) && Extends(id0, order0, stack0, id, order, stack) && p < |stack0|
    requires EdgesBound(g, id0, stack0[..p] + stack0[p + 1..], p, low)
    requires EdgesBound(g, id, stack, |stack0|, lowW)
    ensures EdgesBound(g, id, stack[..p] + stack[p + 1..], p, Min(low, lowW))
  {
    var s0, s := stack0[..p] + stack0[p + 1..], stack[..p] + stack[p + 1..];
    assert s0[..p] == stack0[..p] == stack[..p] == s[..p];
    assert s[p..] == stack0[p + 1..] + stack[|stack0|..];
    assert s0[p..] == stack0[p + 1..];
    forall u, v | u in s[p..] && v in s[..p] && u < |g| && v in g[u] && v < |id|
      ensures Min(low, lowW) <= id[v]
    {
      assert v in order0;
      assert v in stack[..|stack0|];
      if u in stack[|stack0|..] {
      } else {
        assert u in s0[p..];
      }
    }
  }

  lemma ChildKeeps(id0: seq<nat>, order0: seq<nat>, stack0: seq<nat>, id: seq<nat>, order: seq<nat>, stack: seq<nat>,
                   p: nat)
    requires StackSorted(id0, order0, stack0) && Extends(id0, order0, stack0, id, order, stack) && p < |stack0|
    ensures stack[p] == stack0[p] && stack[..p] == stack0[..p]
    ensures forall v :: v in stack0 ==> v in order0 && v < |id| && id[v] == id0[v]
    ensures forall v :: v in stack0[..p] ==> v in stack0
  {
    assert stack[..|stack0|][p] == stack0[p];
    assert stack[..|stack0|][..p] == stack[..p];
  }

  lemma LowerKept(g: Graph, id0: seq<nat>, order0: seq<nat>, stack0: seq<nat>, id: seq<nat>, order: seq<nat>,
                  stack: seq<nat>,
                  p: nat, x: nat, low: nat)
    requires StackSorted(id0, order0, stack0) && Extends(id0, order0, stack0, id, order, stack) && p < |stack0|
    requires HasLower(g, id0, stack0, p, x, low)
    ensures HasLower(g, id, stack, p, x, low)
  {
    ChildKeeps(id0, order0, stack0, id, order, stack, p);
    hide Reach;
    var z: nat :| Lower(g, id0, stack0, p, x, low, z);
    assert stack[z] == stack0[..p][z] && stack0[z] in stack0;
    assert Lower(g, id, stack, p, x, low, z);
  }

  lemma LowerFromChild(g: Graph, id: seq<nat>, order: seq<nat>, stack: seq<nat>, p: nat, q: nat, w: nat, low: nat)
    requires StackSorted(id, order, stack) && p < q && p < |stack| && stack[p] < |g| && w < |g| && w in g[stack[p]]
    requires HasLower(g, id, stack, q, w, low) && stack[p] < |id| && low < id[stack[p]]
    ensures HasLower(g, id, stack, p, stack[p], low)
  {
    ReachEdge(g, stack[p], w);
    var z: nat :| Lower(g, id, stack, q, w, low, z);
    hide Reach;
    SortedPlaces(id, order, stack, z, p);
    ReachTrans(g, stack[p], w, stack[z]);
    assert Lower(g, id, stack, p, stack[p], low, z);
  }

  /** An edge to a node that has just been walked. */
  lemma LowChild(g: Graph, id0: seq<nat>, order0: seq<nat>, stack0: seq<nat>, id: seq<nat>, order: seq<nat>,
                 stack: seq<nat>,
                 p: nat, low: nat, lowW: nat, i: nat)
    requires LowSoFar(g, id0, stack0, p, low, i) && i < |g[stack0[p]]|
    requires StackSorted(id0, order0, stack0) && StackSorted(id, order, stack) &&
               Extends(id0, order0, stack0, id, order, stack)
    requires g[stack0[p]][i] < |g| && g[stack0[p]][i] !in order0 && id[stack0[p]] < id[g[stack0[p]][i]]
    requires EdgesBound(g, id, stack, |stack0|, lowW)
    requires LowOk(g, id, stack, |stack0|, g[stack0[p]][i], lowW)
    ensures LowSoFar(g, id, stack, p, Min(low, lowW), i + 1)
  {
    var x, w := stack0[p], g[stack0[p]][i];
    ChildKeeps(id0, order0, stack0, id, order, stack, p);
    ChildEdges(g, id0, order0, stack0, id, order, stack, p, low, lowW);
    assert w !in stack[..p];
    hide EdgesBound, HasLower, StackSorted;
    if lowW < low {
      LowerFromChild(g, id, order, stack, p, |stack0|, w, lowW);
    } else if low < id[x] {
      LowerKept(g, id0, order0, stack0, id, order, stack, p, x, low);
    }
    hide Extends;
  }

  /** All edges are done and no lower node is reached: nothing leads down. */
  lemma LowIsRoot(g: Graph, id: seq<nat>, order: seq<nat>, stack: seq<nat>, p: nat)
    requires StackSorted(id, order, stack) && p < |stack| && stack[p] < |g| == |id|
    requires LowSoFar(g, id, stack, p, id[stack[p]], |g[stack[p]]|)
    ensures NoEdgesDown(g, stack, p)
  {
    LowEnd(g, id, stack, p, id[stack[p]]);
    assert forall v :: v in stack[..p] ==> v < |id| && id[v] < id[stack[p]];
  }

  lemma LowEnd(g: Graph, id: seq<nat>, stack: seq<nat>, p: nat, low: nat)
    requires p < |stack| && stack[p] < |g| == |id| && LowSoFar(g, id, stack, p, low, |g[stack[p]]|)
    ensures EdgesBound(g, id, stack, p, low)
  {
    var s := stack[..p] + stack[p + 1..];
    assert s[..p] == stack[..p] && s[p..] == stack[p + 1..];
    assert stack[p..] == [stack[p]] + stack[p + 1..];
  }

  // ---------------------------------------------------------------- the result

  /** The lists partition the nodes, each is one component, and a component comes after
      the others that it has edges to. */
  ghost predicate IsSccList(g: Graph, sccs: seq<seq<nat>>) {
    && (forall v: nat :: v < |g| <==> Found(sccs, v))
    && (forall v: nat, i: nat, j: nat :: In(sccs, v, i) && In(sccs, v, j) ==> i == j)
    && (forall i :: 0 <= i < |sccs| ==> IsScc(g, sccs[i]))
    && CalleesFirst(g, sccs)
  }

  lemma WalkOver(g: Graph, id: seq<nat>, order: seq<nat>, sccs: seq<seq<nat>>)
    requires TarjanInv(g, id, order, [], sccs, {})
    requires forall v: nat :: v < |g| ==> v in order
    ensures IsSccList(g, sccs)
  {
    hide Found, IsScc, CalleesFirst;
  }

  /** What the list says of any two nodes: they are in one component exactly if each can
      be reached from the other, and an edge leads into the same component or an earlier one. */
  lemma SccListMeans(g: Graph, sccs: seq<seq<nat>>, u: nat, v: nat)
    requires IsSccList(g, sccs) && u < |g| && v < |g|
    ensures exists i :: 0 <= i < |sccs| && u in sccs[i]
    ensures (exists i :: 0 <= i < |sccs| && u in sccs[i] && v in sccs[i]) <==>
              (exists w :: WalkFrom(g, w, u, v)) && (exists w :: WalkFrom(g, w, v, u))
    ensures forall i, j :: 0 <= i < |sccs| && 0 <= j < |sccs| && u in sccs[i] && v in sccs[j] && v in g[u] ==> j <= i
  {
    assert Found(sccs, u) && Found(sccs, v);
    var i: nat :| In(sccs, u, i);
    var j: nat :| In(sccs, v, j);
    assert IsScc(g, sccs[i]);
    assert v in sccs[i] <==> Mutual(g, u, v);
    assert Mutual(g, u, v) <==> Reach(g, u, v) && Reach(g, v, u);
    assert v in sccs[i] ==> In(sccs, v, i);
    forall a, b | 0 <= a < |sccs| && 0 <= b < |sccs| && u in sccs[a] && v in sccs[b]
      ensures a == i && b == j
    {
      assert In(sccs, u, a) && In(sccs, v, b);
    }
    if v in g[u] {
      assert Found(sccs[..i + 1], v);
      var k: nat :| In(sccs[..i + 1], v, k);
      assert In(sccs, v, k);
    }
  }
}
