/** Merging a block into its single predecessor, and splitting a block. */
module CfgMerge {
  import opened IR
  import opened CfgEdges

  // ---------------------------------------------------------------- renaming a predecessor

  function RenamePairs(ops: seq<(Value, nat)>, p: nat, q: nat): (r: seq<(Value, nat)>)
    ensures |r| == |ops|
  {
    seq(|ops|, i requires 0 <= i < |ops| => if ops[i].1 == p then (ops[i].0, q) else ops[i])
  }

  /** All uses of block p as a phi's predecessor become uses of q. */
  function RenamePreds(phis: map<Value, Phi>, p: nat, q: nat): (r: map<Value, Phi>)
    ensures r.Keys == phis.Keys
  {
    map v | v in phis :: phis[v].(ops := RenamePairs(phis[v].ops, p, q))
  }

  lemma {:induction false} RenameCount(ops: seq<(Value, nat)>, p: nat, q: nat, x: nat)
    requires p != q
    ensures multiset(Preds(RenamePairs(ops, p, q)))[x] ==
            if x == p then 0 else multiset(Preds(ops))[x] + (if x == q then multiset(Preds(ops))[p] else 0)
  {
    if ops != [] {
      var last := |ops| - 1;
      RenameCount(ops[..last], p, q, x);
      var r := RenamePairs(ops, p, q);
      assert Preds(ops) == Preds(ops[..last]) + [ops[last].1];
      assert Preds(r) == Preds(RenamePairs(ops[..last], p, q)) + [r[last].1];
    }
  }

  lemma RenameAgree(ops: seq<(Value, nat)>, p: nat, q: nat)
    requires Agree(ops) && q !in Preds(ops)
    ensures Agree(RenamePairs(ops, p, q)) && (p != q ==> p !in Preds(RenamePairs(ops, p, q)))
  {
    var r := RenamePairs(ops, p, q);
    forall i, j | 0 <= i < |r| && 0 <= j < |r| && r[i].1 == r[j].1
      ensures r[i].0 == r[j].0
    {
      assert Preds(ops)[i] != q && Preds(ops)[j] != q;
    }
  }

  lemma {:induction false} RenameIncoming(ops: seq<(Value, nat)>, p: nat, q: nat, x: nat)
    requires q !in Preds(ops) && x != q
    ensures Incoming(RenamePairs(ops, p, q), if x == p then q else x) == Incoming(ops, x)
  {
    if ops != [] {
      assert Preds(ops)[0] != q;
      assert Preds(ops)[1..] == Preds(ops[1..]);
      RenameIncoming(ops[1..], p, q, x);
      assert RenamePairs(ops, p, q)[1..] == RenamePairs(ops[1..], p, q);
    }
  }

  // ---------------------------------------------------------------- merging

  /** One predecessor, which has one successor, and no phi at the top. */
  ghost predicate CanMerge(g: Graph, b: nat)
    requires b < |g.blocks|
  {
    && |g.blocks[b].preds| == 1
    && (forall v :: v in g.phis ==> g.phis[v].block != b)
    && g.blocks[b].preds[0] < |g.blocks|
    && |g.blocks[g.blocks[b].preds[0]].succs| == 1
  }

  /** The branch to b is gone, b has left the list, its uses in phis name the
      predecessor, and its instructions but the terminator follow the predecessor's. */
  function Moved(g: Graph, b: nat, p: nat): (r: Graph)
    requires p < |g.blocks| && b < |g.blocks| && AllBelow(Targets(g.blocks[p]), |g.blocks|)
    ensures |r.blocks| == |g.blocks|
  {
    var h := Unterminated(g, p);
    Graph(h.blocks[p := h.blocks[p].(body := h.blocks[p].body + h.blocks[b].body)][b := h.blocks[b].(body := [])],
          RenamePreds(h.phis, b, p), RemoveFirst(h.list, b))
  }

  /** Then b's own terminator is detached. */
  function Detached(g: Graph, b: nat, p: nat): (r: Graph)
    requires p < |g.blocks| && b < |g.blocks| && p != b
    requires AllBelow(Targets(g.blocks[p]), |g.blocks|) && AllBelow(Targets(g.blocks[b]), |g.blocks|)
    ensures |r.blocks| == |g.blocks|
  {
    MovedShape(g, b, p);
    Unterminated(Moved(g, b, p), b)
  }

  lemma MovedShape(g: Graph, b: nat, p: nat)
    requires p < |g.blocks| && b < |g.blocks| && p != b
    requires AllBelow(Targets(g.blocks[p]), |g.blocks|) && AllBelow(Targets(g.blocks[b]), |g.blocks|)
    ensures var r := Moved(g, b, p);
            && r.list == RemoveFirst(g.list, b)
            && r.blocks[p] == BasicBlock(g.blocks[p].body + g.blocks[b].body, NoTerm, r.blocks[p].preds, [])
            && r.blocks[b] == g.blocks[b].(body := [], preds := r.blocks[b].preds)
            && Targets(r.blocks[b]) == Targets(g.blocks[b]) && AllBelow(Targets(r.blocks[b]), |g.blocks|)
            && forall x :: 0 <= x < |g.blocks| && x != p && x != b ==>
              r.blocks[x] == g.blocks[x].(preds := r.blocks[x].preds)
  {
    hide Unterminated, RemoveFirst;
    UnterminatedShape(g, p);
  }

  function Merged(g: Graph, b: nat): (r: Graph)
    requires b < |g.blocks| && g.blocks[b].term.HasTerm? && |g.blocks[b].preds| == 1
    requires g.blocks[b].preds[0] < |g.blocks| && g.blocks[b].preds[0] != b
    requires AllBelow(Targets(g.blocks[g.blocks[b].preds[0]]), |g.blocks|) && AllBelow(Targets(g.blocks[b]), |g.blocks|)
  {
    var p := g.blocks[b].preds[0];
    BelowOfTerm(g.blocks[b], |g.blocks|);
    var h := Terminated(Detached(g, b, p), p, g.blocks[b].term.t);
    h.(blocks := h.blocks[b := BasicBlock([], NoTerm, [], [])])
  }

  ghost predicate Merges(g: Graph, b: nat) {
    && Sound(g) && b in g.list && b != 0 && b < |g.blocks| && CanMerge(g, b) && g.blocks[b].preds[0] != b
  }

  lemma MergeReady(g: Graph, b: nat)
    requires Merges(g, b)
    ensures var p := g.blocks[b].preds[0];
            && |g.blocks[b].preds| == 1 && p < |g.blocks| && p != b
            && p in g.list && g.blocks[p].term == HasTerm(Branch(b)) && g.blocks[b].term.HasTerm?
            && AllBelow(Targets(g.blocks[p]), |g.blocks|) && AllBelow(Targets(g.blocks[b]), |g.blocks|)
            && Targets(g.blocks[p]) == [b] && b !in Targets(g.blocks[b])
            && forall q: nat :: q < |g.blocks| && q != p ==> b !in Targets(g.blocks[q])
  {
    hide PhisOk, AllBelow;
    var p := g.blocks[b].preds[0];
    assert g.blocks[b].preds == [p];
    assert p in g.blocks[b].preds;
    InPreds(g, p, b);
    assert BlockOk(g, p) && BlockOk(g, b);
    if p !in g.list {
      FreedHasNoTarget(g, p);
    }
    forall q: nat | q < |g.blocks| && q != p
      ensures b !in Targets(g.blocks[q])
    {
      InPreds(g, q, b);
    }
  }

  lemma FreedHasNoTarget(g: Graph, p: nat)
    requires ListOk(g) && p < |g.blocks| && p !in g.list
    ensures Targets(g.blocks[p]) == []
  {
    assert Freed(g, p);
  }

  /** Phis only have their pairs renamed. */
  lemma DetachedPhis(g: Graph, b: nat, p: nat)
    requires Merges(g, b) && p == g.blocks[b].preds[0]
    requires AllBelow(Targets(g.blocks[p]), |g.blocks|) && AllBelow(Targets(g.blocks[b]), |g.blocks|)
    ensures Detached(g, b, p).phis == RenamePreds(g.phis, b, p)
  {
    hide EdgesOk, PhisOk, ListOk, RenamePairs, WithoutPreds, AllBelow, RemoveFirst;
    MergeReady(g, b);
    var g1 := Unterminated(g, p);
    forall v | v in g.phis
      ensures g1.phis[v] == g.phis[v]
    {
      WithoutPredsOther(g, [b], p, v);
    }
    assert g1.phis == g.phis;
    MovedShape(g, b, p);
    var g2 := Moved(g, b, p);
    var r := Unterminated(g2, b);
    forall v | v in g2.phis
      ensures r.phis[v] == g2.phis[v]
    {
      PairsOfPred(g, b, p, v);
      RenameAgree(g.phis[v].ops, b, p);
      WithoutPredsOther(g2, Targets(g2.blocks[b]), b, v);
    }
  }

  /** No phi has a pair for the predecessor before the merge. */
  lemma PairsOfPred(g: Graph, b: nat, p: nat, v: Value)
    requires Merges(g, b) && p == g.blocks[b].preds[0] && v in g.phis
    ensures p !in Preds(g.phis[v].ops) && Agree(g.phis[v].ops) && g.phis[v].block < |g.blocks| && g.phis[v].block != b
  {
    hide ListOk, Agree;
    MergeReady(g, b);
    assert PhiOk(g, v);
    var ops := g.phis[v].ops;
    InPreds(g, p, g.phis[v].block);
    assert p in Preds(ops) <==> multiset(Preds(ops))[p] > 0;
  }

  lemma DetachedShape(g: Graph, b: nat, p: nat)
    requires p < |g.blocks| && b < |g.blocks| && p != b
    requires AllBelow(Targets(g.blocks[p]), |g.blocks|) && AllBelow(Targets(g.blocks[b]), |g.blocks|)
    ensures var r := Detached(g, b, p);
            && r.list == RemoveFirst(g.list, b)
            && r.blocks[p] == BasicBlock(g.blocks[p].body + g.blocks[b].body, NoTerm, r.blocks[p].preds, [])
            && r.blocks[b] == BasicBlock([], NoTerm, r.blocks[b].preds, [])
            && forall x :: 0 <= x < |g.blocks| && x != p && x != b ==>
              r.blocks[x] == g.blocks[x].(preds := r.blocks[x].preds)
  {
    hide Unterminated, Moved, RemoveFirst, AllBelow, Targets;
    MovedShape(g, b, p);
    UnterminatedShape(Moved(g, b, p), b);
  }

  lemma TerminatedShape(g: Graph, p: nat, t: Terminator)
    requires p < |g.blocks| && AllBelow(Succs(t), |g.blocks|)
    ensures var r := Terminated(g, p, t);
            && r.blocks[p] == g.blocks[p].(term := HasTerm(t), succs := g.blocks[p].succs + Succs(t),
              preds := r.blocks[p].preds)
            && forall x :: 0 <= x < |g.blocks| && x != p ==> r.blocks[x] == g.blocks[x].(preds := r.blocks[x].preds)
  {
    hide WithPreds;
    WithPredsCount(g, Succs(t), p, p, p);
  }

  /** The code after a merge. */
  lemma MergedShape(g: Graph, b: nat)
    requires Merges(g, b)
    ensures var p := g.blocks[b].preds[0];
            && |g.blocks[b].preds| == 1 && p < |g.blocks| && p != b
            && p in g.list && g.blocks[p].term == HasTerm(Branch(b)) && g.blocks[b].term.HasTerm?
            && AllBelow(Targets(g.blocks[p]), |g.blocks|) && AllBelow(Targets(g.blocks[b]), |g.blocks|)
            && var r := Merged(g, b);
            && |r.blocks| == |g.blocks| && r.list == RemoveFirst(g.list, b) && r.phis == RenamePreds(g.phis, b, p)
            && r.blocks[p].body == g.blocks[p].body + g.blocks[b].body && r.blocks[p].term == g.blocks[b].term
            && r.blocks[b] == BasicBlock([], NoTerm, [], [])
            && forall x :: 0 <= x < |g.blocks| && x != p && x != b ==>
              r.blocks[x] == g.blocks[x].(preds := r.blocks[x].preds)
  {
    hide Sound, CanMerge, Detached, Terminated, RenamePreds, AllBelow, RemoveFirst;
    MergeReady(g, b);
    var p := g.blocks[b].preds[0];
    DetachedShape(g, b, p);
    DetachedPhis(g, b, p);
    BelowOfTerm(g.blocks[b], |g.blocks|);
    TerminatedShape(Detached(g, b, p), p, g.blocks[b].term.t);
  }

  lemma MergedIs(g: Graph, b: nat)
    requires Merges(g, b)
    ensures var p, n := g.blocks[b].preds[0], |g.blocks|;
            && g.blocks[b].term.HasTerm? && AllBelow(Targets(g.blocks[p]), n) && AllBelow(Targets(g.blocks[b]), n) &&
              AllBelow(Succs(g.blocks[b].term.t), n)
            && AllBelow(Targets(Moved(g, b, p).blocks[b]), |Moved(g, b, p).blocks|) &&
              Detached(g, b, p) == Unterminated(Moved(g, b, p), b)
            && var h := Terminated(Detached(g, b, p), p, g.blocks[b].term.t);
            Merged(g, b) == h.(blocks := h.blocks[b := BasicBlock([], NoTerm, [], [])])
  {
    hide Sound, CanMerge, Moved, Terminated, Unterminated;
    MergeReady(g, b);
    BelowOfTerm(g.blocks[b], |g.blocks|);
    MovedShape(g, b, g.blocks[b].preds[0]);
  }

  lemma BelowOfTerm(k: BasicBlock, n: nat)
    requires k.term.HasTerm? && AllBelow(Targets(k), n)
    ensures AllBelow(Succs(k.term.t), n)
  {
  }

  lemma DetachedEdges(g: Graph, b: nat, p: nat)
    requires EdgesOk(g) && p < |g.blocks| && b < |g.blocks| && p != b
    requires AllBelow(Targets(g.blocks[p]), |g.blocks|) && AllBelow(Targets(g.blocks[b]), |g.blocks|)
    ensures EdgesOk(Detached(g, b, p))
  {
    hide Unterminated, RenamePreds, EdgesOk, PhisOk, RemoveFirst;
    UnterminatedShape(g, p);
    UnterminatedOk(g, p);
    EdgesIgnoreCode(Unterminated(g, p), Moved(g, b, p));
    UnterminatedOk(Moved(g, b, p), b);
  }

  lemma MergedEdges(g: Graph, b: nat)
    requires Merges(g, b)
    ensures var p := g.blocks[b].preds[0];
            && g.blocks[b].term.HasTerm? && AllBelow(Targets(g.blocks[p]), |g.blocks|) &&
              AllBelow(Targets(g.blocks[b]), |g.blocks|)
            && EdgesOk(Merged(g, b))
  {
    hide EdgesOk, PhisOk, ListOk, CanMerge, Detached, Terminated, RenamePreds, AllBelow, EdgeOk, BlockOk, RemoveFirst;
    MergeReady(g, b);
    var p, t := g.blocks[b].preds[0], g.blocks[b].term.t;
    DetachedShape(g, b, p);
    DetachedEdges(g, b, p);
    BelowOfTerm(g.blocks[b], |g.blocks|);
    TerminatedShape(Detached(g, b, p), p, t);
    TerminatedOk(Detached(g, b, p), p, t);
    var h := Terminated(Detached(g, b, p), p, t);
    forall q: nat | q < |h.blocks|
      ensures b !in Targets(h.blocks[q])
    {
    }
    ClearBlock(h, b);
  }

  /** Counting the edges into one block before and after. */
  lemma MergedCounts(g: Graph, r: Graph, b: nat, p: nat, c: nat, x: nat)
    requires EdgesOk(g) && EdgesOk(r) && |r.blocks| == |g.blocks| && b < |g.blocks| && p < |g.blocks| && c < |g.blocks|
    requires c !in Targets(g.blocks[p]) && b != p
    requires Targets(r.blocks[p]) == Targets(g.blocks[b]) && Targets(r.blocks[b]) == []
    requires forall q :: 0 <= q < |g.blocks| && q != p && q != b ==> Targets(r.blocks[q]) == Targets(g.blocks[q])
    ensures multiset(r.blocks[c].preds)[x] ==
            if x == b then 0
            else multiset(g.blocks[c].preds)[x] + (if x == p then multiset(g.blocks[c].preds)[b] else 0)
  {
    hide Targets, AllBelow, EdgesOk;
    EdgesOkElim(g, b, c);
    EdgesOkElim(g, p, c);
    EdgesOkElim(r, c, c);
    if x < |g.blocks| {
      EdgesOkElim(g, x, c);
      EdgesOkElim(r, x, c);
    } else {
      BelowCount(g.blocks[c].preds, |g.blocks|);
      BelowCount(r.blocks[c].preds, |g.blocks|);
    }
  }

  lemma MergedPhi(g: Graph, b: nat, v: Value, x: nat)
    requires Merges(g, b) && v in g.phis
    ensures var p := g.blocks[b].preds[0];
            && g.blocks[b].term.HasTerm? && AllBelow(Targets(g.blocks[p]), |g.blocks|) &&
              AllBelow(Targets(g.blocks[b]), |g.blocks|)
            && g.phis[v].block < |g.blocks|
            && multiset(Preds(RenamePairs(g.phis[v].ops, b, p)))[x] ==
              multiset(Merged(g, b).blocks[g.phis[v].block].preds)[x]
  {
    hide ListOk, EdgesOk, CanMerge, AllBelow, Agree, Merged, RenamePreds, RenamePairs, Preds;
    MergeReady(g, b);
    MergedShape(g, b);
    MergedEdges(g, b);
    var p, c := g.blocks[b].preds[0], g.phis[v].block;
    PairsOfPred(g, b, p, v);
    assert PhiOk(g, v);
    RenameCount(g.phis[v].ops, b, p, x);
    MergedCounts(g, Merged(g, b), b, p, c, x);
  }

  lemma MergedPhis(g: Graph, b: nat)
    requires Merges(g, b)
    ensures var p := g.blocks[b].preds[0];
            && g.blocks[b].term.HasTerm? && AllBelow(Targets(g.blocks[p]), |g.blocks|) &&
              AllBelow(Targets(g.blocks[b]), |g.blocks|)
            && PhisOk(Merged(g, b))
  {
    hide EdgesOk, ListOk, CanMerge, AllBelow, Agree, Merged, RenamePairs, Preds;
    MergeReady(g, b);
    MergedShape(g, b);
    var p, r := g.blocks[b].preds[0], Merged(g, b);
    forall v | v in r.phis
      ensures PhiOk(r, v)
    {
      PairsOfPred(g, b, p, v);
      RenameAgree(g.phis[v].ops, b, p);
      forall x: nat
        ensures multiset(Preds(r.phis[v].ops))[x] == multiset(r.blocks[r.phis[v].block].preds)[x]
      {
        MergedPhi(g, b, v, x);
      }
    }
  }

  lemma MergedList(g: Graph, b: nat)
    requires Merges(g, b)
    ensures var p := g.blocks[b].preds[0];
            && g.blocks[b].term.HasTerm? && AllBelow(Targets(g.blocks[p]), |g.blocks|) &&
              AllBelow(Targets(g.blocks[b]), |g.blocks|)
            && ListOk(Merged(g, b)) && |Merged(g, b).list| == |g.list| - 1
  {
    hide PhisOk, AllBelow, Merged, RenamePairs, RemoveFirst;
    MergeReady(g, b);
    MergedShape(g, b);
    MergedEdges(g, b);
    RemoveFirstMember(g.list, b);
    var r := Merged(g, b);
    forall x: nat | x < |r.blocks| && x !in r.list
      ensures Freed(r, x)
    {
      if x != b {
        assert Freed(g, x);
        StillNoPreds(g, r, b, x);
      }
    }
  }

  /** A freed block gets no predecessors. */
  lemma StillNoPreds(g: Graph, r: Graph, b: nat, x: nat)
    requires Merges(g, b) && EdgesOk(r) && |r.blocks| == |g.blocks|
    requires x < |g.blocks| && x !in g.list
    requires forall q: nat :: q < |g.blocks| ==>
               Targets(r.blocks[q]) == [] ||
               exists q': nat :: q' < |g.blocks| && Targets(r.blocks[q]) == Targets(g.blocks[q'])
    ensures r.blocks[x].preds == []
  {
    hide Targets, AllBelow, PhisOk, EdgesOk, ListOk, CanMerge;
    FreedHasNoEdges(g, x);
    NoPreds(r, x);
  }

  /** Merging keeps edges, phis and the block list in agreement; the list gets shorter. */
  lemma MergedOk(g: Graph, b: nat)
    requires Merges(g, b)
    ensures var p := g.blocks[b].preds[0];
            && g.blocks[b].term.HasTerm? && AllBelow(Targets(g.blocks[p]), |g.blocks|) &&
              AllBelow(Targets(g.blocks[b]), |g.blocks|)
            && Sound(Merged(g, b)) && |Merged(g, b).list| == |g.list| - 1
  {
    hide Merged, EdgesOk, PhisOk, ListOk, CanMerge, AllBelow;
    MergedEdges(g, b);
    MergedPhis(g, b);
    MergedList(g, b);
  }
}
