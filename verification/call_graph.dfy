/** The call graph of a module and its strongly connected components, by Tarjan's
    algorithm. */
module CallGraphs {
  import opened Collections
  import opened Components

  /** The callees of a function's direct calls, each once, in order of first call. */
  function Callees(calls: seq<nat>): seq<nat> {
    if calls == [] then []
    else
      var front := Callees(calls[..|calls| - 1]);
      if calls[|calls| - 1] in front then front else front + [calls[|calls| - 1]]
  }

  lemma {:induction false} CalleesOnce(calls: seq<nat>)
    ensures Distinct(Callees(calls))
    ensures forall v :: v in Callees(calls) <==> v in calls
  {
    if calls != [] {
      CalleesOnce(calls[..|calls| - 1]);
      assert calls == calls[..|calls| - 1] + [calls[|calls| - 1]];
    }
  }

  class CallGraph {
    /** For each function the functions called by its direct calls to functions with a
        body, in program order. */
    const calls: seq<seq<nat>>

    var calledFuncs: seq<seq<nat>>
    var id: seq<nat>
    var lowLink: seq<nat>
    var isOnStack: set<nat>
    var stack: seq<nat>
    var nextIndex: nat
    var sccs: seq<seq<nat>>

    ghost var order: seq<nat>

    ghost predicate Valid(active: set<nat>)
      reads this
    {
      && TarjanInv(calledFuncs, id, order, stack, sccs, active)
      && |lowLink| == |id| && nextIndex == |order|
      && (forall v :: v in isOnStack <==> v in stack)
    }

    ghost predicate Fresh()
      reads this
    {
      calledFuncs == [] && sccs == [] && order == [] && stack == [] && isOnStack == {} && nextIndex == 0
    }

    constructor (calls: seq<seq<nat>>)
      requires |calls| <= UNVISITED && Closed(calls)
      ensures this.calls == calls && Fresh()
    {
      this.calls := calls;
      calledFuncs, id, lowLink, isOnStack, stack, nextIndex, sccs, order := [], [], [], {}, [], 0, [], [];
    }

    /** Collects the called functions of every node. */
    method BuildEdges()
      requires calledFuncs == []
      modifies this`calledFuncs
      ensures |calledFuncs| == |calls| && forall u :: 0 <= u < |calls| ==> calledFuncs[u] == Callees(calls[u])
    {
      for iNode := 0 to |calls|
        invariant |calledFuncs| == iNode && forall u :: 0 <= u < iNode ==> calledFuncs[u] == Callees(calls[u])
      {
        var called: seq<nat> := [];
        assert calls[iNode][..0] == [];
        for iCall := 0 to |calls[iNode]|
          invariant called == Callees(calls[iNode][..iCall])
        {
          assert calls[iNode][..iCall + 1][..iCall] == calls[iNode][..iCall];
          if calls[iNode][iCall] !in called {
            called := called + [calls[iNode][iCall]];
          }
        }
        assert calls[iNode][..|calls[iNode]|] == calls[iNode];
        calledFuncs := calledFuncs + [called];
      }
    }

    /** What a walk from x leaves alone, and what it says about x. */
    ghost predicate Connected(x: nat, id0: seq<nat>, order0: seq<nat>, low0: seq<nat>, stack0: seq<nat>)
      reads this
    {
      && |low0| == |lowLink| == |id|
      && Extends(id0, order0, stack0, id, order, stack)
      && (forall v :: v in order0 && v < |id| ==> lowLink[v] == low0[v])
      && x < |id| && x in order && id[x] == |order0|
      && EdgesBound(calledFuncs, id, stack, |stack0|, lowLink[x])
      && LowOk(calledFuncs, id, stack, |stack0|, x, lowLink[x])
    }

    /** The walk from node, which is at place p of the stack, after i of its edges. */
    ghost predicate Midway(node: nat, i: nat, active: set<nat>, id0: seq<nat>, order0: seq<nat>, low0: seq<nat>,
                           stack0: seq<nat>)
      reads this
    {
      var p := |stack0|;
      && Valid(active + {node})
      && |low0| == |lowLink| == |id| == |calledFuncs|
      && Extends(id0, order0, stack0, id, order, stack)
      && (forall v :: v in order0 && v < |id| ==> lowLink[v] == low0[v])
      && p < |stack| && stack[p] == node && node < |id| && node in order && node !in order0 &&
        id[node] == |order0| < |order|
      && (forall j :: p < j < |stack| ==> stack[j] !in active + {node})
      && LowSoFar(calledFuncs, id, stack, p, lowLink[node], i)
      && (forall j :: 0 <= j < i ==> calledFuncs[node][j] in order)
    }

    /** Takes the nodes down to `node` off the stack. */
    method PopComponent(node: nat, ghost p: nat) returns (scc: seq<nat>)
      requires p < |stack| && stack[p] == node && Distinct(stack)
      requires forall v :: v in isOnStack <==> v in stack
      modifies this`stack, this`isOnStack
      ensures stack == old(stack)[..p] && SameNodes(scc, old(stack)[p..])
      ensures forall v :: v in isOnStack <==> v in stack
    {
      ghost var S := stack;
      var stackNode := stack[|stack| - 1];
      stack := stack[..|stack| - 1];
      isOnStack := isOnStack - {stackNode};
      scc := [stackNode];
      while stackNode != node
        invariant p <= |stack| < |S| && stack == S[..|stack|] && stackNode == S[|stack|]
        invariant |scc| == |S| - |stack| && forall k :: 0 <= k < |scc| ==> scc[k] == S[|S| - 1 - k]
        invariant forall v :: v in isOnStack <==> v in stack
        decreases |stack|
      {
        stackNode := stack[|stack| - 1];
        stack := stack[..|stack| - 1];
        isOnStack := isOnStack - {stackNode};
        scc := scc + [stackNode];
      }
      ReversedNodes(scc, S[p..]);
    }

    method StrongConnect(node: nat, ghost active: set<nat>)
      requires Valid(active) && node < |id| && node !in order
      requires forall y :: y in stack ==> Reach(calledFuncs, y, node)
      modifies this`id, this`lowLink, this`isOnStack, this`stack, this`nextIndex, this`sccs, this`order
      ensures Valid(active)
      ensures Connected(node, old(id), old(order), old(lowLink), old(stack))
      decreases |id| - |order|, 0
    {
      hide TarjanInv, Reach, LowSoFar, LowOk, EdgesBound, Extends, NoEdgesDown;
      ghost var order0, id0, low0, stack0 := order, id, lowLink, stack;
      Sizes(calledFuncs, id, order, stack, sccs, active);
      Enter(calledFuncs, id, order, stack, sccs, active, node);
      var index := nextIndex;
      nextIndex := nextIndex + 1;
      id := id[node := index];
      lowLink := lowLink[node := index];
      order := order + [node];
      stack := stack + [node];
      isOnStack := isOnStack + {node};
      ExtendsSelf(id0, order0, stack0, node, index);
      LowStart(calledFuncs, id, stack, |stack0|);

      var iEdge := 0;
      while iEdge < |calledFuncs[node]|
        invariant 0 <= iEdge <= |calledFuncs[node]|
        invariant Midway(node, iEdge, active, id0, order0, low0, stack0)
      {
        FollowEdge(node, iEdge, active, id0, order0, low0, stack0);
        iEdge := iEdge + 1;
      }

      // A root takes its component off the stack
      if lowLink[node] == id[node] {
        ghost var S := stack;
        RootReady(calledFuncs, id, order, stack, sccs, active + {node}, |stack0|);
        var scc := PopComponent(node, |stack0|);
        Pop(calledFuncs, id, order, S, sccs, active + {node}, |stack0|, scc);
        sccs := sccs + [scc];
        RootDone(calledFuncs, id0, order0, stack0, id, order, S, node, lowLink[node]);
      } else {
        WaitReady(calledFuncs, id, order, stack, sccs, active + {node}, |stack0|, lowLink[node]);
      }
      assert active + {node} - {node} == active;
    }

    /** One edge of the walk from node. */
    method FollowEdge(node: nat, iEdge: nat, ghost active: set<nat>,
                      ghost id0: seq<nat>, ghost order0: seq<nat>, ghost low0: seq<nat>, ghost stack0: seq<nat>)
      requires node !in active && node < |calledFuncs| && iEdge < |calledFuncs[node]|
      requires Midway(node, iEdge, active, id0, order0, low0, stack0)
      modifies this`id, this`lowLink, this`isOnStack, this`stack, this`nextIndex, this`sccs, this`order
      ensures Midway(node, iEdge + 1, active, id0, order0, low0, stack0)
      decreases |id| - |order|, 1
    {
      hide TarjanInv, Reach, LowSoFar, LowOk, EdgesBound, Extends, Linked;
      var calledNode := calledFuncs[node][iEdge];
      ghost var p := |stack0|;
      assert calledNode in calledFuncs[node];
      Sizes(calledFuncs, id, order, stack, sccs, active + {node});
      if id[calledNode] == UNVISITED {
        // A callee that was not visited is walked first
        ghost var id1, order1, low1, stack1, low := id, order, lowLink, stack, lowLink[node];
        ReachNext(calledFuncs, stack, active + {node}, p, calledNode);
        StrongConnect(calledNode, active + {node});
        Sizes(calledFuncs, id, order, stack, sccs, active + {node});
        ExtendsTrans(id0, order0, stack0, id1, order1, stack1, id, order, stack);
        StillInactive(id, order, stack1, stack, active + {node}, p);
        LowChild(calledFuncs, id1, order1, stack1, id, order, stack, p, low, lowLink[calledNode], iEdge);
        lowLink := lowLink[node := Min(lowLink[node], lowLink[calledNode])];
      } else if calledNode in isOnStack {
        // A callee on the stack belongs to the open component
        LowOnStack(calledFuncs, id, order, stack, p, lowLink[node], iEdge);
        lowLink := lowLink[node := Min(lowLink[node], id[calledNode])];
      } else {
        // The edge leads to a component already found
        LowListed(calledFuncs, id, stack, p, lowLink[node], iEdge);
      }
    }

    /** Starts a walk at every node that no earlier walk has visited. */
    method FindComponents()
      requires Valid({}) && stack == []
      modifies this`id, this`lowLink, this`isOnStack, this`stack, this`nextIndex, this`sccs, this`order
      ensures IsSccList(calledFuncs, sccs)
    {
      hide TarjanInv, LowOk, EdgesBound, Extends, IsSccList, Closed, Reach, StackSorted, Linked;
      Sizes(calledFuncs, id, order, stack, sccs, {});
      for iNode := 0 to |calledFuncs|
        invariant Valid({}) && stack == [] && |id| == |calledFuncs|
        invariant forall v: nat :: v < iNode ==> v in order
      {
        Sizes(calledFuncs, id, order, stack, sccs, {});
        if id[iNode] == UNVISITED {
          ghost var id0, order0, low0 := id, order, lowLink;
          StrongConnect(iNode, {});
          RootLeavesNothing(calledFuncs, id0, order0, id, order, stack, iNode, lowLink[iNode]);
        }
      }
      WalkOver(calledFuncs, id, order, sccs);
    }

    /** Finds the components of the call graph. */
    method Build()
      requires Fresh()
      requires |calls| <= UNVISITED && Closed(calls)
      modifies this
      ensures |calledFuncs| == |calls| && forall u :: 0 <= u < |calls| ==> calledFuncs[u] == Callees(calls[u])
      ensures IsSccList(calledFuncs, sccs)
    {
      hide TarjanInv, IsSccList, Closed, Callees;
      BuildEdges();
      CalleesClosed(calls, calledFuncs);
      id := seq(|calls|, _ => UNVISITED);
      lowLink := seq(|calls|, _ => UNVISITED);
      Initially(calledFuncs, id);
      FindComponents();
    }
  }

  lemma Sizes(g: Graph, id: seq<nat>, order: seq<nat>, stack: seq<nat>, sccs: seq<seq<nat>>, active: set<nat>)
    requires TarjanInv(g, id, order, stack, sccs, active)
    ensures |id| == |g| <= UNVISITED && |order| <= |g|
    ensures Closed(g) && StackSorted(id, order, stack) && Linked(g, stack, active) && Distinct(stack)
    ensures forall v :: v in active ==> v in stack
    ensures forall v :: v in stack ==> v in order
    ensures forall v: nat :: v < |id| ==> (v in order <==> id[v] != UNVISITED)
    ensures forall v: nat :: v < |id| && v in order ==> id[v] < |order|
  {
    forall v: nat | v < |id|
      ensures (v in order <==> id[v] != UNVISITED) && |order| <= |g| && (v in order ==> id[v] < |order|)
    {
      VisitedId(|g|, id, order, v);
    }
    DistinctBelow(order, |g|);
  }

  lemma ExtendsSelf(id: seq<nat>, order: seq<nat>, stack: seq<nat>, x: nat, v: nat)
    requires x < |id| && x !in order
    ensures Extends(id, order, stack, id[x := v], order + [x], stack + [x])
    ensures forall y :: y in order + [x] <==> y in order || y == x
  {
  }

  lemma ExtendsTrans(id0: seq<nat>, order0: seq<nat>, stack0: seq<nat>, id1: seq<nat>, order1: seq<nat>,
                     stack1: seq<nat>,
                     id2: seq<nat>, order2: seq<nat>, stack2: seq<nat>)
    requires Extends(id0, order0, stack0, id1, order1, stack1) && Extends(id1, order1, stack1, id2, order2, stack2)
    ensures Extends(id0, order0, stack0, id2, order2, stack2)
    ensures forall v :: v in order0 ==> v in order1
    ensures forall v :: v in order1 ==> v in order2
    ensures |order1| <= |order2| && |stack1| <= |stack2| && stack2[..|stack1|] == stack1
    ensures forall v :: v in order1 && v < |id1| ==> id2[v] == id1[v]
  {
    assert stack2[..|stack0|] == stack2[..|stack1|][..|stack0|];
    assert order2[..|order0|] == order2[..|order1|][..|order0|];
    assert forall v :: v in order1[..|order0|] ==> v in order1;
    assert forall v :: v in order2[..|order1|] ==> v in order2;
  }

  /** Nodes that come onto the stack later are not active. */
  lemma StillInactive(id: seq<nat>, order: seq<nat>, stack1: seq<nat>, stack: seq<nat>, active: set<nat>, p: nat)
    requires Distinct(stack) && p < |stack1| <= |stack| && stack[..|stack1|] == stack1
    requires forall v :: v in active ==> v in stack1
    requires forall j :: p < j < |stack1| ==> stack1[j] !in active
    ensures forall j :: p < j < |stack| ==> stack[j] !in active
  {
    forall j | p < j < |stack|
      ensures stack[j] !in active
    {
      if j < |stack1| {
        assert stack[..|stack1|][j] == stack1[j];
      } else {
        assert stack[j] !in stack[..|stack1|];
      }
    }
  }

  lemma ReachNext(g: Graph, stack: seq<nat>, active: set<nat>, p: nat, w: nat)
    requires Closed(g) && Linked(g, stack, active) && p < |stack| && stack[p] < |g| && w in g[stack[p]]
    requires forall j :: p < j < |stack| ==> stack[j] !in active
    ensures w < |g| && forall y :: y in stack ==> Reach(g, y, w)
  {
    ReachEdge(g, stack[p], w);
    forall y | y in stack
      ensures Reach(g, y, w)
    {
      StackReaches(g, stack, active, p, y);
      ReachTrans(g, y, stack[p], w);
    }
  }

  lemma RootReady(g: Graph, id: seq<nat>, order: seq<nat>, stack: seq<nat>, sccs: seq<seq<nat>>, active: set<nat>,
                  p: nat)
    requires TarjanInv(g, id, order, stack, sccs, active) && p < |stack| && stack[p] < |g| && |id| == |g|
    requires LowSoFar(g, id, stack, p, id[stack[p]], |g[stack[p]]|)
    ensures NoEdgesDown(g, stack, p) && Distinct(stack)
  {
    Sizes(g, id, order, stack, sccs, active);
    LowIsRoot(g, id, order, stack, p);
  }

  lemma RootDone(g: Graph, id0: seq<nat>, order0: seq<nat>, stack0: seq<nat>, id: seq<nat>, order: seq<nat>,
                 stack: seq<nat>,
                 x: nat, low: nat)
    requires Extends(id0, order0, stack0, id, order, stack) && Distinct(stack)
    requires |stack0| < |stack| && stack[|stack0|] == x < |id| && low == id[x]
    ensures Extends(id0, order0, stack0, id, order, stack[..|stack0|])
    ensures EdgesBound(g, id, stack[..|stack0|], |stack0|, low)
    ensures LowOk(g, id, stack[..|stack0|], |stack0|, x, low)
  {
  }

  lemma WaitReady(g: Graph, id: seq<nat>, order: seq<nat>, stack: seq<nat>, sccs: seq<seq<nat>>, active: set<nat>,
                  p: nat, low: nat)
    requires TarjanInv(g, id, order, stack, sccs, active) && p < |stack| && stack[p] < |g| && |id| == |g|
    requires LowSoFar(g, id, stack, p, low, |g[stack[p]]|) && low != id[stack[p]] && stack[p] in active
    requires forall j :: p < j < |stack| ==> stack[j] !in active
    requires forall v :: v in g[stack[p]] ==> v in order
    ensures TarjanInv(g, id, order, stack, sccs, active - {stack[p]})
    ensures EdgesBound(g, id, stack, p, low) && LowOk(g, id, stack, p, stack[p], low)
  {
    LowEnd(g, id, stack, p, low);
    assert HasLower(g, id, stack, p, stack[p], low);
    var z: nat :| Lower(g, id, stack, p, stack[p], low, z);
    Leave(g, id, order, stack, sccs, active, p, z);
  }

  lemma CalleesClosed(calls: seq<seq<nat>>, called: Graph)
    requires Closed(calls) && |called| == |calls|
    requires forall u :: 0 <= u < |calls| ==> called[u] == Callees(calls[u])
    ensures Closed(called)
  {
    forall u, v | 0 <= u < |called| && v in called[u]
      ensures v < |called|
    {
      CalleesOnce(calls[u]);
    }
  }

  lemma Initially(g: Graph, id: seq<nat>)
    requires Closed(g) && |g| <= UNVISITED && id == seq(|g|, _ => UNVISITED)
    ensures TarjanInv(g, id, [], [], [], {})
  {
  }

  lemma RootLeavesNothing(g: Graph, id0: seq<nat>, order0: seq<nat>, id: seq<nat>, order: seq<nat>, stack: seq<nat>,
                          x: nat, low: nat)
    requires Extends(id0, order0, [], id, order, stack) && x < |id| && LowOk(g, id, stack, 0, x, low)
    ensures stack == [] && forall v :: v in order0 ==> v in order
  {
    assert forall v :: v in order[..|order0|] ==> v in order;
  }

  lemma ReversedNodes(a: seq<nat>, b: seq<nat>)
    requires |a| == |b| && Distinct(b) && forall k :: 0 <= k < |a| ==> a[k] == b[|b| - 1 - k]
    ensures SameNodes(a, b)
  {
    forall v | v in b
      ensures v in a
    {
      var i :| 0 <= i < |b| && b[i] == v;
      assert a[|b| - 1 - i] == v;
    }
  }
}
