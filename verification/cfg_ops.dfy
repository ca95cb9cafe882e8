/** The operations on a function's blocks that keep its edges up to date. */
module CfgOps {
  import opened IR
  import opened CfgEdges
  import opened CfgMerge
  import opened CfgSplit

  /** How many entries of the list are for phi v. */
  function Entries(vals: seq<(Value, Value)>, v: Value): nat {
    if vals == [] then 0 else Entries(vals[..|vals| - 1], v) + if vals[|vals| - 1].0 == v then 1 else 0
  }

  lemma EntriesNone()
    ensures forall v :: Entries([], v) == 0
  {
  }

  lemma EntriesStep(vals: seq<(Value, Value)>, e: (Value, Value))
    ensures forall v :: Entries(vals + [e], v) == Entries(vals, v) + if e.0 == v then 1 else 0
  {
    assert (vals + [e])[..|vals|] == vals;
  }

  lemma CountNone(ops: seq<(Value, nat)>, b: nat)
    ensures multiset(Preds(ops[..0]))[b] == 0
  {
    assert Preds(ops[..0]) == [];
  }

  lemma CountStep(ops: seq<(Value, nat)>, i: nat, b: nat)
    requires i < |ops|
    ensures multiset(Preds(ops[..i + 1]))[b] == multiset(Preds(ops[..i]))[b] + if ops[i].1 == b then 1 else 0
  {
    assert Preds(ops[..i + 1]) == Preds(ops[..i]) + [ops[i].1];
  }

  class FuncGraph {
    var blocks: seq<BasicBlock>
    var phis: map<Value, Phi>
    var list: seq<nat>

    function G(): Graph
      reads this
    {
      Graph(blocks, phis, list)
    }

    method RemovePair(v: Value, p: nat)
      requires v in phis
      modifies this`phis
      ensures phis == old(phis)[v := old(phis)[v].(ops := DropPair(old(phis)[v].ops, p))]
    {
      var ops := phis[v].ops;
      var i := 0;
      while i < |ops| && ops[i].1 != p
        invariant i <= |ops| && forall j :: 0 <= j < i ==> ops[j].1 != p
      {
        i := i + 1;
      }
      if i < |ops| {
        DropAt(ops, i);
        phis := phis[v := phis[v].(ops := ops[..i] + ops[i + 1..])];
      } else {
        assert forall j :: 0 <= j < |ops| ==> Preds(ops)[j] != p;
        DropNone(ops, p);
      }
    }

    /** One entry leaves the predecessor array and one pair leaves each phi. */
    method RemovePred(b: nat, p: nat)
      requires b < |blocks|
      modifies this`blocks, this`phis
      ensures G() == WithoutPred(old(G()), b, p)
    {
      hide DropPair, RemoveFirst;
      var preds := blocks[b].preds;
      var i := 0;
      while i < |preds| && preds[i] != p
        invariant i <= |preds| && forall j :: 0 <= j < i ==> preds[j] != p
      {
        i := i + 1;
      }
      if i == |preds| {
        assert p !in preds;
        return;
      }
      assert p in preds;
      RemoveAt(preds, i);
      blocks := blocks[b := blocks[b].(preds := preds[..i] + preds[i + 1..])];
      DropFromPhis(b, p);
    }

    method DropFromPhis(b: nat, p: nat)
      modifies this`phis
      ensures phis == DropPhis(old(phis), b, p)
    {
      hide DropPair;
      var todo := set v | v in phis && phis[v].block == b;
      ghost var phis0 := phis;
      while todo != {}
        invariant phis.Keys == phis0.Keys && todo <= phis0.Keys && forall v :: v in todo ==> phis0[v].block == b
        invariant forall v :: v in phis0 ==>
                                phis[v] == if phis0[v].block == b &&
                                  v !in todo then phis0[v].(ops := DropPair(phis0[v].ops, p)) else phis0[v]
        decreases |todo|
      {
        var v :| v in todo;
        RemovePair(v, p);
        todo := todo - {v};
      }
      assert phis == DropPhis(phis0, b, p);
    }

    method RemoveSucc(b: nat, t: nat)
      requires b < |blocks|
      modifies this`blocks
      ensures blocks == old(blocks)[b := old(blocks)[b].(succs := RemoveFirst(old(blocks)[b].succs, t))]
    {
      hide RemoveFirst;
      var succs := blocks[b].succs;
      var i := 0;
      while i < |succs| && succs[i] != t
        invariant i <= |succs| && forall j :: 0 <= j < i ==> succs[j] != t
      {
        i := i + 1;
      }
      if i < |succs| {
        RemoveAt(succs, i);
        blocks := blocks[b := blocks[b].(succs := succs[..i] + succs[i + 1..])];
      } else {
        RemoveNone(succs, t);
      }
    }

    method RemovePreds(ts: seq<nat>, p: nat)
      requires AllBelow(ts, |blocks|)
      modifies this`blocks, this`phis
      ensures G() == WithoutPreds(old(G()), ts, p)
    {
      hide WithoutPred;
      ghost var g := G();
      for i := 0 to |ts|
        invariant |blocks| == |g.blocks| && WithoutPreds(G(), ts[i..], p) == WithoutPreds(g, ts, p)
      {
        RemovePred(ts[i], p);
        assert ts[i..][1..] == ts[i + 1..];
      }
      assert ts[|ts|..] == [];
    }

    method RemoveSuccs(p: nat)
      requires p < |blocks|
      modifies this`blocks
      ensures blocks == old(blocks)[p := old(blocks)[p].(succs := [])]
    {
      var ts := blocks[p].succs;
      ghost var bs := blocks;
      for i := 0 to |ts|
        invariant blocks == bs[p := bs[p].(succs := ts[i..])]
      {
        RemoveSucc(p, ts[i]);
        assert RemoveFirst(ts[i..], ts[i]) == ts[i + 1..];
      }
      assert blocks[p].succs == [];
    }

    /** The terminator leaves the block, with its edges. */
    method RemoveTerminator(p: nat)
      requires p < |blocks| && AllBelow(Targets(blocks[p]), |blocks|) && blocks[p].succs == Targets(blocks[p])
      modifies this`blocks, this`phis
      ensures G() == Unterminated(old(G()), p)
    {
      hide WithoutPreds;
      ghost var g := G();
      RemovePreds(Targets(blocks[p]), p);
      WithoutPredsKeeps(g, Targets(g.blocks[p]), p);
      RemoveSuccs(p);
      blocks := blocks[p := blocks[p].(term := NoTerm)];
    }

    /** The terminator is put at the end of the block, with its edges. */
    method AppendTerminator(p: nat, t: Terminator)
      requires p < |blocks| && AllBelow(Succs(t), |blocks|) && blocks[p].term.NoTerm?
      modifies this`blocks
      ensures G() == Terminated(old(G()), p, t)
    {
      ghost var g := G();
      var ts := Succs(t);
      for i := 0 to |ts|
        invariant |blocks| == |g.blocks| && WithPreds(G(), ts[i..], p) == WithPreds(g, ts, p)
      {
        var k := blocks[ts[i]];
        blocks := blocks[ts[i] := k.(preds := k.preds + [p])];
        assert ts[i..][1..] == ts[i + 1..];
      }
      blocks := blocks[p := blocks[p].(term := HasTerm(t), succs := blocks[p].succs + ts)];
    }

    /** A branch whose condition is known becomes unconditional. */
    method ConvertCondBranch(p: nat, c: bool)
      requires Sound(G()) && p in list && p < |blocks| && blocks[p].term.HasTerm? && blocks[p].term.t.BranchIf?
      modifies this`blocks, this`phis
      ensures Sound(G()) && AllBelow(Targets(old(blocks)[p]), |old(blocks)|) && G() == Converted(old(G()), p, c)
    {
      hide EdgesOk, PhisOk, ListOk, WithoutPred, RemoveFirst;
      ghost var g := G();
      ConvertedOk(g, p, c);
      SuccsAre(g, p);
      assert Targets(blocks[p])[0] == blocks[p].term.t.thn && Targets(blocks[p])[1] == blocks[p].term.t.els;
      ghost var ts := [if c then blocks[p].term.t.els else blocks[p].term.t.thn];
      assert WithoutPreds(g, ts, p) == WithoutPred(g, ts[0], p);
      WithoutPredsKeeps(g, ts, p);
      var gone := blocks[p].succs[if c then 1 else 0];
      RemovePred(gone, p);
      RemoveSucc(p, gone);
      var t := blocks[p].term.t;
      blocks := blocks[p := blocks[p].(term := HasTerm(Branch(if c then t.thn else t.els)))];
      ghost var h := WithoutPred(g, gone, p);
      assert blocks == h.blocks[p :=
        h.blocks[p].(term := blocks[p].term, succs := RemoveFirst(h.blocks[p].succs, gone))];
    }

    /** Takes a block that nothing else leads to out of the function. */
    method FreeBlock(b: nat)
      requires Sound(G()) && b in list && b != 0 && b < |blocks| && Isolated(G(), b)
      modifies this
      ensures Sound(G()) && AllBelow(Targets(old(blocks)[b]), |old(blocks)|) && G() == BlockFreed(old(G()), b)
      ensures |list| == |old(list)| - 1
    {
      hide Sound, Unterminated, RemoveFirst;
      ghost var g := G();
      BlockFreedOk(g, b);
      SuccsAre(g, b);
      Unlist(b);
      phis := WithoutPhis(phis, b);
      blocks := blocks[b := blocks[b].(body := [])];
      EmptiedTargets(g, b);
      assert G() == Emptied(g, b);
      RemoveTerminator(b);
      blocks := blocks[b := BasicBlock([], NoTerm, [], [])];
    }

    method Unlist(b: nat)
      modifies this`list
      ensures list == RemoveFirst(old(list), b)
    {
      hide RemoveFirst;
      var i := 0;
      while i < |list| && list[i] != b
        invariant i <= |list| && forall j :: 0 <= j < i ==> list[j] != b
      {
        i := i + 1;
      }
      if i < |list| {
        RemoveAt(list, i);
        list := list[..i] + list[i + 1..];
      } else {
        RemoveNone(list, b);
      }
    }

    /** The instructions of b, one by one, to the end of p. */
    method MoveBody(b: nat, p: nat)
      requires b < |blocks| && p < |blocks| && b != p
      modifies this`blocks
      ensures blocks == old(blocks)[p := old(blocks)[p].(body := old(blocks)[p].body + old(blocks)[b].body)][b :=
                old(blocks)[b].(body := [])]
    {
      ghost var h := blocks;
      while blocks[b].body != []
        invariant |blocks| == |h|
        invariant blocks[p] == h[p].(body := blocks[p].body) && blocks[b] == h[b].(body := blocks[b].body)
        invariant blocks[p].body + blocks[b].body == h[p].body + h[b].body
        invariant forall x :: 0 <= x < |blocks| && x != p && x != b ==> blocks[x] == h[x]
        decreases |blocks[b].body|
      {
        var i := blocks[b].body[0];
        assert blocks[b].body == [i] + blocks[b].body[1..];
        blocks := blocks[b := blocks[b].(body := blocks[b].body[1..])];
        blocks := blocks[p := blocks[p].(body := blocks[p].body + [i])];
      }
      assert blocks[p].body == h[p].body + h[b].body;
    }

    /** The instructions of b from position k on, one by one, to the end of n. */
    method MoveTail(b: nat, k: nat, n: nat)
      requires b < |blocks| && n < |blocks| && b != n && k <= |blocks[b].body| && blocks[n].body == []
      modifies this`blocks
      ensures blocks == old(blocks)[b := old(blocks)[b].(body := old(blocks)[b].body[..k])][n :=
                old(blocks)[n].(body := old(blocks)[b].body[k..])]
    {
      ghost var h := blocks;
      ghost var body := h[b].body;
      while |blocks[b].body| > k
        invariant |blocks| == |h| && k + |blocks[n].body| <= |body|
        invariant blocks[b] == h[b].(body := body[..k] + body[k + |blocks[n].body|..])
        invariant blocks[n] == h[n].(body := body[k..k + |blocks[n].body|])
        invariant forall x :: 0 <= x < |blocks| && x != n && x != b ==> blocks[x] == h[x]
        decreases |blocks[b].body|
      {
        var i := blocks[b].body[k];
        blocks := blocks[b := blocks[b].(body := blocks[b].body[..k] + blocks[b].body[k + 1..])];
        blocks := blocks[n := blocks[n].(body := blocks[n].body + [i])];
      }
      assert blocks[b].body == body[..k] && blocks[n].body == body[k..];
    }

    /** Appends a block to its single predecessor. */
    method MergeIntoPredecessor(b: nat)
      requires Merges(G(), b)
      modifies this
      ensures |list| == |old(list)| - 1 && Sound(G())
      ensures old(blocks)[b].term.HasTerm? && AllBelow(Targets(old(blocks)[old(blocks)[b].preds[0]]), |old(blocks)|)
      ensures AllBelow(Targets(old(blocks)[b]), |old(blocks)|) && G() == Merged(old(G()), b)
    {
      hide Sound, CanMerge, Unterminated, Terminated, RemoveFirst, RenamePreds, AllBelow, Merged;
      ghost var g := G();
      MergeReady(g, b);
      MergedOk(g, b);
      var p := blocks[b].preds[0];
      SuccsAre(g, p);
      SuccsAre(g, b);
      RemoveTerminator(p);
      ghost var h := G();
      UnterminatedShape(g, p);
      Unlist(b);
      phis := RenamePreds(phis, b, p);
      MoveBody(b, p);
      assert G() == Moved(g, b, p);
      MovedShape(g, b, p);
      MergedIs(g, b);
      var t := blocks[b].term.t;
      RemoveTerminator(b);
      DetachedShape(g, b, p);
      AppendTerminator(p, t);
      blocks := blocks[b := BasicBlock([], NoTerm, [], [])];
    }

    /** A new block takes what follows the first k instructions of b. */
    method SplitAt(b: nat, k: nat) returns (n: nat)
      requires Sound(G()) && b in list && b < |blocks| && k <= |blocks[b].body| && blocks[b].term.HasTerm?
      modifies this
      ensures n == |old(blocks)| && Sound(G()) && AllBelow(Targets(old(blocks)[b]), |old(blocks)|) &&
                G() == Split(old(G()), b, k)
      ensures |blocks| == n + 1 && blocks[b].body == old(blocks)[b].body[..k] && blocks[b].term == HasTerm(Branch(n))
      ensures blocks[n].body == old(blocks)[b].body[k..] && blocks[n].term == old(blocks)[b].term
      ensures forall x :: 0 <= x < n && x != b ==>
                blocks[x].body == old(blocks)[x].body && blocks[x].term == old(blocks)[x].term
      ensures forall i :: 0 <= i < |old(list)| && old(list)[i] == b ==>
                list == old(list)[..i + 1] + [n] + old(list)[i + 1..]
    {
      hide Sound, Unterminated, Terminated, InsertAfter, MovedPairs, Incoming, Entries, AllBelow, Opened;
      ghost var g := G();
      SplitOk(g, b, k);
      SuccsAre(g, b);
      var vals := UsesInPhis(b);
      n := |blocks|;
      blocks := blocks + [BasicBlock([], NoTerm, [], [])];
      MoveTail(b, k, n);
      assert G() == Roomed(g, b, k);
      var t := blocks[b].term.t;
      OpenedIs(g, b, k);
      SplitIs(g, b, k);
      RemoveTerminator(b);
      OpenedShape(g, b, k);
      AppendTerminator(n, t);
      TerminatedShape(Opened(g, b, k), n, t);
      AppendTerminator(b, Branch(n));
      InsertInList(b, n);
      AddPairs(vals, n, b, g.phis);
      SplitShape(g, b, k);
      ListSplit(g, b, n);
    }

    /** The value each phi has for predecessor b, once per use of b by the phi. */
    method UsesInPhis(b: nat) returns (vals: seq<(Value, Value)>)
      ensures forall v :: v in phis ==> Entries(vals, v) == multiset(Preds(phis[v].ops))[b]
      ensures forall i :: 0 <= i < |vals| ==> vals[i].0 in phis && vals[i].1 == Incoming(phis[vals[i].0].ops, b)
    {
      hide Incoming, Entries, Preds;
      vals := [];
      assert forall v :: Entries([], v) == 0 by { EntriesNone(); }
      var todo := phis.Keys;
      while todo != {}
        invariant todo <= phis.Keys
        invariant forall v :: v in phis ==> Entries(vals, v) == if v in todo then 0 else multiset(Preds(phis[v].ops))[b]
        invariant forall i :: 0 <= i < |vals| ==> vals[i].0 in phis && vals[i].1 == Incoming(phis[vals[i].0].ops, b)
        decreases |todo|
      {
        var v :| v in todo;
        var ops := phis[v].ops;
        ghost var vals0 := vals;
        CountNone(ops, b);
        for i := 0 to |ops|
          invariant forall u :: u in phis ==>
                      Entries(vals, u) == Entries(vals0, u) + if u == v then multiset(Preds(ops[..i]))[b] else 0
          invariant forall j :: 0 <= j < |vals| ==> vals[j].0 in phis && vals[j].1 == Incoming(phis[vals[j].0].ops, b)
        {
          CountStep(ops, i, b);
          if ops[i].1 == b {
            EntriesStep(vals, (v, Incoming(ops, b)));
            vals := vals + [(v, Incoming(ops, b))];
          }
        }
        assert ops[..|ops|] == ops;
        todo := todo - {v};
      }
    }

    method InsertInList(b: nat, n: nat)
      modifies this`list
      ensures list == InsertAfter(old(list), b, n)
    {
      var i := 0;
      while i < |list| && list[i] != b
        invariant i <= |list| && forall j :: 0 <= j < i ==> list[j] != b
      {
        i := i + 1;
      }
      if i < |list| {
        InsertAt(list, i, n);
        list := list[..i + 1] + [n] + list[i + 1..];
      } else {
        InsertNone(list, b, n);
      }
    }

    method AddPairs(vals: seq<(Value, Value)>, n: nat, b: nat, ghost before: map<Value, Phi>)
      requires before.Keys == phis.Keys
      requires forall v :: v in before ==> Entries(vals, v) == multiset(Preds(before[v].ops))[b]
      requires forall i :: 0 <= i < |vals| ==> vals[i].0 in before && vals[i].1 == Incoming(before[vals[i].0].ops, b)
      modifies this`phis
      ensures phis == MovePhis(before, old(phis), b, n)
    {
      hide Incoming, Preds, Entries;
      ghost var phis0 := phis;
      EntriesNone();
      for j := 0 to |vals|
        invariant phis.Keys == phis0.Keys
        invariant forall v :: v in phis0 ==>
                                phis[v] == phis0[v].(ops :=
                                  phis0[v].ops + seq(Entries(vals[..j], v), _ => (Incoming(before[v].ops, b), n)))
      {
        var (v, val) := vals[j];
        EntriesStep(vals[..j], vals[j]);
        assert vals[..j + 1] == vals[..j] + [vals[j]];
        phis := phis[v := phis[v].(ops := phis[v].ops + [(val, n)])];
      }
      assert vals[..|vals|] == vals;
    }
  }

  lemma ListSplit(g: Graph, b: nat, n: nat)
    requires Sound(g)
    ensures forall i :: 0 <= i < |g.list| && g.list[i] == b ==>
              InsertAfter(g.list, b, n) == g.list[..i + 1] + [n] + g.list[i + 1..]
  {
    hide EdgesOk, PhisOk, InsertAfter;
    forall i | 0 <= i < |g.list| && g.list[i] == b
      ensures InsertAfter(g.list, b, n) == g.list[..i + 1] + [n] + g.list[i + 1..]
    {
      InsertAt(g.list, i, n);
    }
  }

  lemma SuccsAre(g: Graph, p: nat)
    requires Sound(g) && p < |g.blocks|
    ensures g.blocks[p].succs == Targets(g.blocks[p]) && AllBelow(Targets(g.blocks[p]), |g.blocks|)
    ensures g.blocks[p].term.HasTerm? && g.blocks[p].term.t.BranchIf? ==>
              Targets(g.blocks[p]) == [g.blocks[p].term.t.thn, g.blocks[p].term.t.els]
  {
    assert BlockOk(g, p);
  }
}
