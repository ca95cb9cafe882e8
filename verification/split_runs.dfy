/** Splitting a block changes no run: each phi of a target has for the new block the value
    it had for the old one, and the two halves do what the block did. */
module SplitRuns {
  import opened IR
  import opened CfgEdges
  import opened CfgSplit
  import opened SimplifyCfg

  ghost predicate Splits(g: Graph, b: nat, k: nat) {
    Sound(g) && b in g.list && b < |g.blocks| && k <= |g.blocks[b].body| && g.blocks[b].term.HasTerm?
  }

  // ---------------------------------------------------------------- phis

  lemma {:induction false} IncomingJoin(a: seq<(Value, nat)>, b: seq<(Value, nat)>, p: nat)
    ensures Incoming(a + b, p) == if p in Preds(a) then Incoming(a, p) else Incoming(b, p)
  {
    if a == [] {
      assert a + b == b;
    } else {
      assert (a + b)[1..] == a[1..] + b;
      assert Preds(a) == [a[0].1] + Preds(a[1..]);
      IncomingJoin(a[1..], b, p);
    }
  }

  lemma IncomingNone(ops: seq<(Value, nat)>, p: nat)
    requires p !in Preds(ops)
    ensures Incoming(ops, p) == Const(0)
  {
    forall i | 0 <= i < |ops|
      ensures ops[i].1 != p
    {
      assert Preds(ops)[i] in Preds(ops);
    }
  }

  lemma IncomingCopies(m: nat, o: (Value, nat), p: nat)
    ensures Incoming(seq(m, _ => o), p) == if m > 0 && p == o.1 then o.0 else Const(0)
  {
    var s := seq(m, _ => o);
    if m > 0 && p == o.1 {
      assert s[0] == o;
    } else {
      forall i | 0 <= i < |s|
        ensures Preds(s)[i] != p
      {
      }
      IncomingNone(s, p);
    }
  }

  /** The new block takes over the value of the old one; other predecessors keep theirs. */
  lemma MovedIncoming(before: seq<(Value, nat)>, after: seq<(Value, nat)>, b: nat, n: nat, x: nat)
    requires n !in Preds(after) && (x != n ==> Incoming(after, x) == Incoming(before, x))
    ensures Incoming(MovedPairs(before, after, b, n), x) == Incoming(before, if x == n then b else x)
  {
    hide Incoming;
    var m := multiset(Preds(before))[b];
    var o := (Incoming(before, b), n);
    IncomingJoin(after, seq(m, _ => o), x);
    IncomingCopies(m, o, x);
    if x == n && m == 0 {
      IncomingNone(before, b);
    } else if x != n && x !in Preds(after) {
      IncomingNone(after, x);
    }
  }

  lemma OpenedIncoming(g: Graph, b: nat, k: nat, v: Value, x: nat)
    requires Splits(g, b, k) && AllBelow(Targets(g.blocks[b]), |g.blocks|) && v in g.phis
    ensures x != b ==> Incoming(Opened(g, b, k).phis[v].ops, x) == Incoming(g.phis[v].ops, x)
    ensures |g.blocks| !in Preds(Opened(g, b, k).phis[v].ops)
  {
    hide Incoming, Preds, EdgesOk, PhisOk, ListOk, WithoutPreds;
    SoundParts(g);
    OpenedOk(g, b, k);
    OpenedShape(g, b, k);
    var n, h := |g.blocks|, Opened(g, b, k);
    if x != b {
      var g0 := Roomed(g, b, k);
      assert AllBelow(Targets(g0.blocks[b]), |g0.blocks|);
      WithoutPredsIncoming(g0, Targets(g0.blocks[b]), b, v, x);
    }
    assert PhiOk(h, v) by { PhisOkAt(h, v); }
    var c := h.phis[v].block;
    PhisOkAt(g, v);
    EdgesOkElim(h, n, c);
    assert multiset(h.blocks[c].preds)[n] == 0;
    assert multiset(Preds(h.phis[v].ops))[n] == 0;
  }

  lemma SoundParts(g: Graph)
    requires Sound(g)
    ensures EdgesOk(g) && PhisOk(g) && ListOk(g)
  {
  }

  lemma PhisOkAt(g: Graph, v: Value)
    requires PhisOk(g) && v in g.phis
    ensures PhiOk(g, v)
  {
  }

  /** What a phi gets over each edge of the split graph. */
  lemma SplitIncoming(g: Graph, b: nat, k: nat, v: Value, x: nat)
    requires Splits(g, b, k) && AllBelow(Targets(g.blocks[b]), |g.blocks|) && v in g.phis && x != b
    ensures Incoming(Split(g, b, k).phis[v].ops, x) == Incoming(g.phis[v].ops, if x == |g.blocks| then b else x)
    ensures Split(g, b, k).phis[v].block == g.phis[v].block < |g.blocks|
  {
    hide Incoming, Preds, Sound, Opened, MovedPairs, Split;
    OpenedIncoming(g, b, k, v, x);
    OpenedShape(g, b, k);
    SplitShape(g, b, k);
    MovedIncoming(g.phis[v].ops, Opened(g, b, k).phis[v].ops, b, |g.blocks|, x);
    SoundParts(g);
    PhisOkAt(g, v);
  }

  // ---------------------------------------------------------------- steps

  lemma SplitReady(g: Graph, b: nat, k: nat)
    requires Splits(g, b, k)
    ensures AllBelow(Targets(g.blocks[b]), |g.blocks|) && EdgesOk(g) && EdgesOk(Split(g, b, k))
    ensures |Split(g, b, k).blocks| == |g.blocks| + 1 && Split(g, b, k).phis.Keys == g.phis.Keys
  {
    hide Split, EdgesOk, PhisOk, ListOk;
    SplitOk(g, b, k);
  }

  lemma EnteredSplit(g: Graph, b: nat, k: nat, c: Context, x: nat, t: nat, s: State)
    requires Splits(g, b, k) && AllBelow(Targets(g.blocks[b]), |g.blocks|) && x != b
    ensures Entered(Split(g, b, k), c, x, t, s) == Entered(g, c, if x == |g.blocks| then b else x, t, s)
  {
    hide Incoming, Sound, Split, Eval;
    SplitReady(g, b, k);
    forall v | v in g.phis
      ensures Split(g, b, k).phis[v].block == g.phis[v].block
      ensures Incoming(Split(g, b, k).phis[v].ops, x) == Incoming(g.phis[v].ops, if x == |g.blocks| then b else x)
    {
      SplitIncoming(g, b, k, v, x);
    }
    EnteredSame(g, Split(g, b, k), c, if x == |g.blocks| then b else x, x, t, s);
  }

  /** Away from the split block nothing changes. */
  lemma SplitStep(g: Graph, b: nat, k: nat, c: Context, x: nat, s: State)
    requires Splits(g, b, k) && x < |g.blocks| && x != b
    ensures AllBelow(Targets(g.blocks[b]), |g.blocks|) && EdgesOk(g) && EdgesOk(Split(g, b, k))
    ensures |Split(g, b, k).blocks| == |g.blocks| + 1
    ensures var r := Split(g, b, k);
            && BlockEnd(r, c, x, s) == BlockEnd(g, c, x, s) && TermOf(r.blocks[x]) == TermOf(g.blocks[x])
            && (!TermOf(g.blocks[x]).Ret? ==>
                  var t, e := NextBlock(g, c, x, s), BlockEnd(g, c, x, s);
                  NextBlock(r, c, x, s) == t && Entered(r, c, x, t, e) == Entered(g, c, x, t, e))
  {
    hide EdgesOk, Sound, Split, Targets, ExecBody, Entered;
    SplitReady(g, b, k);
    SplitShape(g, b, k);
    if !TermOf(g.blocks[x]).Ret? {
      EnteredSplit(g, b, k, c, x, NextBlock(g, c, x, s), BlockEnd(g, c, x, s));
    }
  }

  /** The first half goes on to the second, and together they do what the block did. */
  lemma SplitAtStep(g: Graph, b: nat, k: nat, c: Context, s: State)
    requires Splits(g, b, k)
    ensures AllBelow(Targets(g.blocks[b]), |g.blocks|) && EdgesOk(g) && EdgesOk(Split(g, b, k))
    ensures |Split(g, b, k).blocks| == |g.blocks| + 1
    ensures var r, n := Split(g, b, k), |g.blocks|;
            var e := BlockEnd(r, c, b, s);
            && !TermOf(r.blocks[b]).Ret? && NextBlock(r, c, b, s) == n && Entered(r, c, b, n, e) == e
            && BlockEnd(r, c, n, e) == BlockEnd(g, c, b, s) && TermOf(r.blocks[n]) == TermOf(g.blocks[b])
            && (!TermOf(g.blocks[b]).Ret? ==>
                  var t, e' := NextBlock(g, c, b, s), BlockEnd(g, c, b, s);
                  NextBlock(r, c, n, e) == t && Entered(r, c, n, t, e') == Entered(g, c, b, t, e'))
  {
    hide EdgesOk, Sound, Split, Targets, ExecBody, Entered;
    SplitReady(g, b, k);
    SplitShape(g, b, k);
    var r, n := Split(g, b, k), |g.blocks|;
    var body := g.blocks[b].body;
    ExecConcat(c.m, c.args, c.slots, body[..k], body[k..], s);
    assert body[..k] + body[k..] == body;
    NothingEntered(g, b, k, c, BlockEnd(r, c, b, s));
    if !TermOf(g.blocks[b]).Ret? {
      EnteredSplit(g, b, k, c, n, NextBlock(g, c, b, s), BlockEnd(g, c, b, s));
    }
  }

  lemma NothingEntered(g: Graph, b: nat, k: nat, c: Context, e: State)
    requires Splits(g, b, k) && AllBelow(Targets(g.blocks[b]), |g.blocks|)
    ensures Entered(Split(g, b, k), c, b, |g.blocks|, e) == e
  {
    hide Split, Sound, Incoming, Eval, Targets;
    NoNewPhis(g, b, k);
    var r, n := Split(g, b, k), |g.blocks|;
    assert (map v | v in r.phis && r.phis[v].block == n :: Eval(Incoming(r.phis[v].ops, b), e.env, c.args)) == map[];
    assert e.env + map[] == e.env;
  }

  lemma NoNewPhis(g: Graph, b: nat, k: nat)
    requires Splits(g, b, k) && AllBelow(Targets(g.blocks[b]), |g.blocks|)
    ensures forall v :: v in Split(g, b, k).phis ==> Split(g, b, k).phis[v].block != |g.blocks|
  {
    hide Split, Sound, Incoming;
    SplitReady(g, b, k);
    forall v | v in g.phis
      ensures Split(g, b, k).phis[v].block != |g.blocks|
    {
      SplitIncoming(g, b, k, v, |g.blocks|);
    }
  }

  // ---------------------------------------------------------------- runs

  /** What g does after n edges, the split graph does, after one edge more for every time
      the block is left. */
  lemma {:induction false} SplitForward(g: Graph, b: nat, k: nat, c: Context, x: nat, s: State, n: nat)
    returns (n': nat)
    requires Splits(g, b, k) && x < |g.blocks|
    ensures AllBelow(Targets(g.blocks[b]), |g.blocks|) && EdgesOk(g) && EdgesOk(Split(g, b, k))
    ensures |Split(g, b, k).blocks| == |g.blocks| + 1
    ensures RunFrom(Split(g, b, k), c, x, s, n') == RunFrom(g, c, x, s, n)
    decreases n
  {
    hide EdgesOk, Sound, Split, Targets, BlockEnd, Entered, RunFrom;
    SplitReady(g, b, k);
    var r := Split(g, b, k);
    RunStep(g, c, x, s, n);
    var rest := 0;
    if !TermOf(g.blocks[x]).Ret? && n > 0 {
      var t := NextBlock(g, c, x, s);
      rest := SplitForward(g, b, k, c, t, Entered(g, c, x, t, BlockEnd(g, c, x, s)), n - 1);
    }
    n' := if n == 0 then 0 else rest + 1;
    if x != b {
      SplitStep(g, b, k, c, x, s);
      RunStep(r, c, x, s, n');
    } else {
      SplitAtStep(g, b, k, c, s);
      RunStep(r, c, b, s, n' + 1);
      RunStep(r, c, |g.blocks|, BlockEnd(r, c, b, s), n');
      n' := n' + 1;
    }
  }

  /** And it does nothing else, but that it can be stopped between the two halves. */
  lemma {:induction false} SplitBackward(g: Graph, b: nat, k: nat, c: Context, x: nat, s: State, n: nat)
    returns (n': nat)
    requires Splits(g, b, k) && x < |g.blocks|
    ensures AllBelow(Targets(g.blocks[b]), |g.blocks|) && EdgesOk(g) && EdgesOk(Split(g, b, k))
    ensures |Split(g, b, k).blocks| == |g.blocks| + 1
    ensures var o := RunFrom(Split(g, b, k), c, x, s, n);
            RunFrom(g, c, x, s, n') == o || (o.Running? && o.block == |g.blocks|)
    decreases n
  {
    hide EdgesOk, Sound, Split, Targets, BlockEnd, Entered, RunFrom;
    SplitReady(g, b, k);
    var r := Split(g, b, k);
    RunStep(r, c, x, s, n);
    n' := 0;
    if x != b {
      SplitStep(g, b, k, c, x, s);
      if !TermOf(g.blocks[x]).Ret? && n > 0 {
        var t := NextBlock(g, c, x, s);
        n' := SplitBackward(g, b, k, c, t, Entered(g, c, x, t, BlockEnd(g, c, x, s)), n - 1);
        n' := n' + 1;
      }
      RunStep(g, c, x, s, n');
    } else {
      SplitAtStep(g, b, k, c, s);
      if n > 0 {
        RunStep(r, c, |g.blocks|, BlockEnd(r, c, b, s), n - 1);
        if !TermOf(g.blocks[b]).Ret? && n > 1 {
          var t := NextBlock(g, c, b, s);
          n' := SplitBackward(g, b, k, c, t, Entered(g, c, b, t, BlockEnd(g, c, b, s)), n - 2);
          n' := n' + 1;
        }
      }
      RunStep(g, c, b, s, n');
    }
  }

  lemma {:induction false} StopsInside(g: Graph, c: Context, x: nat, s: State, n: nat)
    requires EdgesOk(g) && x < |g.blocks|
    ensures RunFrom(g, c, x, s, n).Running? ==> RunFrom(g, c, x, s, n).block < |g.blocks|
    decreases n
  {
    hide EdgesOk, BlockEnd, Entered, RunFrom;
    RunStep(g, c, x, s, n);
    if !TermOf(g.blocks[x]).Ret? && n > 0 {
      var t := NextBlock(g, c, x, s);
      StopsInside(g, c, t, Entered(g, c, x, t, BlockEnd(g, c, x, s)), n - 1);
    }
  }

  /** The split graph returns what g returns and does all that g does; what it does is
      something g does exactly if it is not stopped before the new block. */
  lemma SplitSame(g: Graph, b: nat, k: nat)
    requires Splits(g, b, k)
    ensures AllBelow(Targets(g.blocks[b]), |g.blocks|) && SameRuns(Split(g, b, k), g)
    ensures forall c: Context, s: State, n: nat ::
              ReturnKept(g, Split(g, b, k), c, s, n) &&
              (NothingNew(g, Split(g, b, k), c, s, n) <==>
                !(RunFrom(Split(g, b, k), c, 0, s, n).Running? &&
                  RunFrom(Split(g, b, k), c, 0, s, n).block == |g.blocks|))
  {
    hide EdgesOk, Sound, Split, RunFrom;
    SplitReady(g, b, k);
    var r := Split(g, b, k);
    forall c: Context, s: State, n: nat
      ensures ReturnKept(r, g, c, s, n) && NothingNew(r, g, c, s, n) && ReturnKept(g, r, c, s, n)
      ensures NothingNew(g, r, c, s, n) <==>
                !(RunFrom(r, c, 0, s, n).Running? && RunFrom(r, c, 0, s, n).block == |g.blocks|)
    {
      var m := SplitForward(g, b, k, c, 0, s, n);
      var n' := SplitBackward(g, b, k, c, 0, s, n);
      assert RunFrom(r, c, 0, s, m) == RunFrom(g, c, 0, s, n);
      if NothingNew(g, r, c, s, n) {
        var j :| RunFrom(g, c, 0, s, j) == RunFrom(r, c, 0, s, n);
        StopsInside(g, c, 0, s, j);
      }
    }
  }
}
