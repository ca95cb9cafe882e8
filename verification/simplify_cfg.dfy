/** Simplifying the control-flow graph: blocks that nothing leads to are freed and blocks
    are merged into their single predecessors until nothing more can be done. */
module SimplifyCfg {
  import opened Collections
  import opened IR
  import opened CfgEdges
  import opened CfgMerge
  import opened CfgOps
  import opened CfgUses
  import opened SimplifyUses

  // ---------------------------------------------------------------- runs of a graph

  function TermOf(k: BasicBlock): Terminator {
    if k.term.HasTerm? then k.term.t else Ret(Const(0))
  }

  function AsFunc(g: Graph): (f: Func)
    ensures |f.blocks| == |g.blocks|
  {
    Func(seq(|g.blocks|, i requires 0 <= i < |g.blocks| => Block(g.blocks[i].body, TermOf(g.blocks[i]))), g.phis)
  }

  lemma AsFuncValid(g: Graph)
    requires EdgesOk(g)
    ensures ValidTargets(AsFunc(g))
  {
    forall b, t | 0 <= b < |g.blocks| && t in Succs(TermOf(g.blocks[b]))
      ensures t < |g.blocks|
    {
      assert BlockOk(g, b);
    }
  }

  ghost predicate Runs(g: Graph) {
    EdgesOk(g) && |g.blocks| > 0
  }

  /** Where and how a run is observed. */
  datatype Context = Context(m: Machine, args: seq<int>, slots: set<nat>)

  ghost function RunFrom(g: Graph, c: Context, b: nat, s: State, n: nat): Outcome
    requires EdgesOk(g) && b < |g.blocks|
  {
    AsFuncValid(g);
    Run(c.m, c.args, c.slots, AsFunc(g), b, s, n)
  }

  ghost predicate ReturnKept(g: Graph, g': Graph, c: Context, s: State, n: nat)
    requires Runs(g) && Runs(g')
  {
    RunFrom(g, c, 0, s, n).Returned? ==> exists n' :: RunFrom(g', c, 0, s, n') == RunFrom(g, c, 0, s, n)
  }

  ghost predicate NothingNew(g: Graph, g': Graph, c: Context, s: State, n: nat)
    requires Runs(g) && Runs(g')
  {
    exists n' :: RunFrom(g, c, 0, s, n') == RunFrom(g', c, 0, s, n)
  }

  /** Whatever g returns, g' returns; and whatever g' does, g does, block by block. */
  ghost predicate SameRuns(g: Graph, g': Graph) {
    Runs(g) && Runs(g') &&
    forall c: Context, s: State, n: nat :: ReturnKept(g, g', c, s, n) && NothingNew(g, g', c, s, n)
  }

  lemma SameRunsSelf(g: Graph)
    requires Runs(g)
    ensures SameRuns(g, g)
  {
    hide RunFrom;
    forall c: Context, s: State, n: nat
      ensures ReturnKept(g, g, c, s, n) && NothingNew(g, g, c, s, n)
    {
    }
  }

  lemma SameRunsTrans(g: Graph, g': Graph, g'': Graph)
    requires SameRuns(g, g') && SameRuns(g', g'')
    ensures SameRuns(g, g'')
  {
    hide RunFrom;
    forall c: Context, s: State, n: nat
      ensures ReturnKept(g, g'', c, s, n) && NothingNew(g, g'', c, s, n)
    {
      if RunFrom(g, c, 0, s, n).Returned? {
        assert ReturnKept(g, g', c, s, n);
        var n' :| RunFrom(g', c, 0, s, n') == RunFrom(g, c, 0, s, n);
        assert ReturnKept(g', g'', c, s, n');
        var n'' :| RunFrom(g'', c, 0, s, n'') == RunFrom(g', c, 0, s, n');
      }
      assert NothingNew(g', g'', c, s, n);
      var k :| RunFrom(g', c, 0, s, k) == RunFrom(g'', c, 0, s, n);
      assert NothingNew(g, g', c, s, k);
      var k' :| RunFrom(g, c, 0, s, k') == RunFrom(g', c, 0, s, k);
    }
  }

  // ---------------------------------------------------------------- one block of a run

  /** The end of the block, before an edge is taken. */
  function BlockEnd(g: Graph, c: Context, b: nat, s: State): State
    requires b < |g.blocks|
  {
    ExecBody(c.m, c.args, c.slots, g.blocks[b].body, s)
  }

  ghost function NextBlock(g: Graph, c: Context, b: nat, s: State): (t: nat)
    requires EdgesOk(g) && b < |g.blocks| && !TermOf(g.blocks[b]).Ret?
    ensures t < |g.blocks| && t in Targets(g.blocks[b])
  {
    TargetsInRange(g, b);
    var t := Next(TermOf(g.blocks[b]), BlockEnd(g, c, b, s), c.args);
    assert t in Targets(g.blocks[b]);
    t
  }

  function Entered(g: Graph, c: Context, p: nat, t: nat, s: State): State {
    s.(env := s.env + map v | v in g.phis && g.phis[v].block == t :: Eval(Incoming(g.phis[v].ops, p), s.env, c.args))
  }

  lemma RunStep(g: Graph, c: Context, b: nat, s: State, n: nat)
    requires EdgesOk(g) && b < |g.blocks|
    ensures var e := BlockEnd(g, c, b, s);
            RunFrom(g, c, b, s, n) ==
            if TermOf(g.blocks[b]).Ret? then Returned(Eval(TermOf(g.blocks[b]).val, e.env, c.args), e.world)
            else if n == 0 then Running(NextBlock(g, c, b, s), e.world)
            else RunFrom(g, c, NextBlock(g, c, b, s), Entered(g, c, b, NextBlock(g, c, b, s), e), n - 1)
  {
    hide EdgesOk, ExecBody;
    AsFuncValid(g);
  }

  lemma {:induction false} RunMore(g: Graph, c: Context, b: nat, s: State, n: nat)
    requires EdgesOk(g) && b < |g.blocks| && RunFrom(g, c, b, s, n).Returned?
    ensures RunFrom(g, c, b, s, n + 1) == RunFrom(g, c, b, s, n)
    decreases n
  {
    hide EdgesOk, RunFrom, BlockEnd, Entered;
    RunStep(g, c, b, s, n);
    RunStep(g, c, b, s, n + 1);
    if !TermOf(g.blocks[b]).Ret? {
      var t := NextBlock(g, c, b, s);
      RunMore(g, c, t, Entered(g, c, b, t, BlockEnd(g, c, b, s)), n - 1);
    }
  }

  lemma {:induction false} ExecConcat(m: Machine, args: seq<int>, P: set<nat>, x: seq<Instruction>,
                                      y: seq<Instruction>, s: State)
    ensures ExecBody(m, args, P, x + y, s) == ExecBody(m, args, P, y, ExecBody(m, args, P, x, s))
  {
    hide ExecInstr;
    if y == [] {
      assert x + y == x;
    } else {
      assert (x + y)[..|x + y| - 1] == x + y[..|y| - 1];
      ExecConcat(m, args, P, x, y[..|y| - 1], s);
    }
  }

  // ---------------------------------------------------------------- graphs that step alike

  /** In block x and on the edge out of it, both graphs do the same. */
  ghost predicate StepAlike(g: Graph, g': Graph, c: Context, x: nat, s: State)
    requires EdgesOk(g) && EdgesOk(g') && |g'.blocks| == |g.blocks| && x < |g.blocks|
  {
    && BlockEnd(g', c, x, s) == BlockEnd(g, c, x, s)
    && if TermOf(g.blocks[x]).Ret? then TermOf(g'.blocks[x]) == TermOf(g.blocks[x])
       else
         && !TermOf(g'.blocks[x]).Ret?
         && var t, e := NextBlock(g, c, x, s), BlockEnd(g, c, x, s);
         NextBlock(g', c, x, s) == t && Entered(g', c, x, t, e) == Entered(g, c, x, t, e)
  }

  ghost predicate StepsAlike(g: Graph, g': Graph, c: Context, x: nat)
    requires EdgesOk(g) && EdgesOk(g') && |g'.blocks| == |g.blocks| && x < |g.blocks|
  {
    forall s: State :: StepAlike(g, g', c, x, s)
  }

  ghost predicate StaysOut(g: Graph, out: set<nat>, x: nat)
    requires x < |g.blocks|
  {
    forall t :: t in Targets(g.blocks[x]) ==> t !in out
  }

  /** The blocks that can be left out are never entered and all others step alike: the
      runs are equal. */
  lemma {:induction false} RunsAlike(g: Graph, g': Graph, c: Context, out: set<nat>, x: nat, s: State, n: nat)
    requires EdgesOk(g) && EdgesOk(g') && |g'.blocks| == |g.blocks| && x < |g.blocks| && x !in out
    requires forall y: nat :: y < |g.blocks| && y !in out ==> StepsAlike(g, g', c, y) && StaysOut(g, out, y)
    ensures RunFrom(g', c, x, s, n) == RunFrom(g, c, x, s, n)
    decreases n
  {
    hide EdgesOk, RunFrom, BlockEnd, Entered, Targets;
    RunStep(g, c, x, s, n);
    RunStep(g', c, x, s, n);
    assert StepsAlike(g, g', c, x) && StaysOut(g, out, x);
    assert StepAlike(g, g', c, x, s);
    if !TermOf(g.blocks[x]).Ret? && n > 0 {
      var t := NextBlock(g, c, x, s);
      RunsAlike(g, g', c, out, t, Entered(g, c, x, t, BlockEnd(g, c, x, s)), n - 1);
    }
  }

  lemma SameRunsFrom(g: Graph, g': Graph)
    requires Runs(g) && Runs(g') &&
               forall c: Context, s: State, n: nat :: RunFrom(g', c, 0, s, n) == RunFrom(g, c, 0, s, n)
    ensures SameRuns(g, g')
  {
    hide RunFrom;
    forall c: Context, s: State, n: nat
      ensures ReturnKept(g, g', c, s, n) && NothingNew(g, g', c, s, n)
    {
    }
  }

  // ---------------------------------------------------------------- freeing a block

  lemma FreedIncoming(g: Graph, b: nat, v: Value, x: nat)
    requires b < |g.blocks| && AllBelow(Targets(g.blocks[b]), |g.blocks|) && v in g.phis && g.phis[v].block != b &&
               x != b
    ensures var r := BlockFreed(g, b);
            v in r.phis && r.phis[v].block == g.phis[v].block &&
              Incoming(r.phis[v].ops, x) == Incoming(g.phis[v].ops, x)
  {
    hide WithoutPreds, Incoming, RemoveFirst;
    EmptiedTargets(g, b);
    var h := Emptied(g, b);
    UnterminatedShape(h, b);
    WithoutPredsIncoming(h, Targets(h.blocks[b]), b, v, x);
  }

  lemma FreedStep(g: Graph, b: nat, c: Context, x: nat)
    requires EdgesOk(g) && b < |g.blocks| && x < |g.blocks| && x != b && b !in Targets(g.blocks[x])
    requires AllBelow(Targets(g.blocks[b]), |g.blocks|) && EdgesOk(BlockFreed(g, b))
    ensures |BlockFreed(g, b).blocks| == |g.blocks| && StepsAlike(g, BlockFreed(g, b), c, x)
  {
    hide EdgesOk, Unterminated, Incoming, Emptied, Targets, ExecBody;
    var r := BlockFreed(g, b);
    FreedShape(g, b);
    forall s: State
      ensures StepAlike(g, r, c, x, s)
    {
      if !TermOf(g.blocks[x]).Ret? {
        var t, e := NextBlock(g, c, x, s), BlockEnd(g, c, x, s);
        forall v | v in g.phis && g.phis[v].block == t
          ensures v in r.phis && r.phis[v].block == t && Incoming(r.phis[v].ops, x) == Incoming(g.phis[v].ops, x)
        {
          FreedIncoming(g, b, v, x);
        }
        EnteredSame(g, r, c, x, x, t, e);
      }
    }
  }

  lemma FreedShape(g: Graph, b: nat)
    requires b < |g.blocks| && AllBelow(Targets(g.blocks[b]), |g.blocks|)
    ensures var r := BlockFreed(g, b);
            && |r.blocks| == |g.blocks| && r.phis.Keys <= g.phis.Keys
            && (forall v :: v in r.phis ==> r.phis[v].block == g.phis[v].block)
            && forall x :: 0 <= x < |g.blocks| && x != b ==> r.blocks[x] == g.blocks[x].(preds := r.blocks[x].preds)
  {
    hide Unterminated, RemoveFirst;
    EmptiedTargets(g, b);
    UnterminatedShape(Emptied(g, b), b);
  }

  lemma EnteredSame(g: Graph, g': Graph, c: Context, p: nat, p': nat, t: nat, s: State)
    requires g'.phis.Keys <= g.phis.Keys && forall v :: v in g'.phis ==> g'.phis[v].block == g.phis[v].block
    requires forall v :: v in g.phis && g.phis[v].block == t ==>
                           v in g'.phis && g'.phis[v].block == t &&
                             Incoming(g'.phis[v].ops, p') == Incoming(g.phis[v].ops, p)
    ensures Entered(g', c, p', t, s) == Entered(g, c, p, t, s)
  {
    hide Incoming, Eval;
    var m := map v | v in g.phis && g.phis[v].block == t :: Eval(Incoming(g.phis[v].ops, p), s.env, c.args);
    var m' := map v | v in g'.phis && g'.phis[v].block == t :: Eval(Incoming(g'.phis[v].ops, p'), s.env, c.args);
    assert m' == m;
  }

  /** A block that nothing else leads to is never entered: freeing it changes no run. */
  lemma FreeSame(g: Graph, b: nat)
    requires Sound(g) && b in g.list && b != 0 && b < |g.blocks| && Isolated(g, b)
    ensures AllBelow(Targets(g.blocks[b]), |g.blocks|) && SameRuns(g, BlockFreed(g, b))
  {
    hide RunFrom, BlockFreed, Targets, PhisOk, ListOk, StepsAlike;
    BlockFreedOk(g, b);
    var r := BlockFreed(g, b);
    FreedShape(g, b);
    forall c: Context, s: State, n: nat
      ensures RunFrom(r, c, 0, s, n) == RunFrom(g, c, 0, s, n)
    {
      forall y: nat | y < |g.blocks| && y !in {b}
        ensures StepsAlike(g, r, c, y) && StaysOut(g, {b}, y)
      {
        InPreds(g, y, b);
        FreedStep(g, b, c, y);
      }
      RunsAlike(g, r, c, {b}, 0, s, n);
    }
    SameRunsFrom(g, r);
  }

  // ---------------------------------------------------------------- deciding a branch

  /** The condition of the branch that ends block p is the constant k. */
  ghost predicate Decided(g: Graph, p: nat, k: int)
    requires p < |g.blocks|
  {
    g.blocks[p].term.HasTerm? && g.blocks[p].term.t.BranchIf? && g.blocks[p].term.t.cond == Const(k)
  }

  lemma ConvertedIncoming(g: Graph, p: nat, k: int, v: Value, x: nat, t: nat)
    requires Sound(g) && p < |g.blocks| && Decided(g, p, k) && v in g.phis && g.phis[v].block == t
    requires x == p ==> t == if k != 0 then g.blocks[p].term.t.thn else g.blocks[p].term.t.els
    requires AllBelow(Targets(g.blocks[p]), |g.blocks|)
    ensures Incoming(Converted(g, p, k != 0).phis[v].ops, x) == Incoming(g.phis[v].ops, x)
  {
    hide Incoming, RemoveFirst, EdgesOk, ListOk, Preds;
    var tm := g.blocks[p].term.t;
    assert Targets(g.blocks[p]) == [tm.thn, tm.els] && tm.thn == Targets(g.blocks[p])[0] &&
      tm.els == Targets(g.blocks[p])[1];
    assert PhiOk(g, v);
    if x != p {
      DropKeeps(g.phis[v].ops, p, x);
    } else if tm.thn == tm.els {
      EdgesOkElim(g, p, t);
      assert multiset([tm.thn, tm.els])[t] == 2;
      DropOneOfMany(g.phis[v].ops, p);
    }
  }

  lemma ConvertedStep(g: Graph, p: nat, k: int, c: Context, x: nat)
    requires Sound(g) && p in g.list && p < |g.blocks| && Decided(g, p, k) && x < |g.blocks|
    requires AllBelow(Targets(g.blocks[p]), |g.blocks|) && EdgesOk(Converted(g, p, k != 0))
    ensures StepsAlike(g, Converted(g, p, k != 0), c, x)
  {
    hide EdgesOk, PhisOk, ListOk, Incoming, Converted, Targets, ExecBody;
    var r := Converted(g, p, k != 0);
    ConvertedCode(g, p, k != 0);
    forall s: State
      ensures StepAlike(g, r, c, x, s)
    {
      if !TermOf(g.blocks[x]).Ret? {
        var t, e := NextBlock(g, c, x, s), BlockEnd(g, c, x, s);
        forall v | v in g.phis && g.phis[v].block == t
          ensures Incoming(r.phis[v].ops, x) == Incoming(g.phis[v].ops, x)
        {
          ConvertedIncoming(g, p, k, v, x, t);
        }
        EnteredSame(g, r, c, x, x, t, e);
      }
    }
  }

  lemma ConvertedCode(g: Graph, p: nat, c: bool)
    requires p < |g.blocks| && g.blocks[p].term.HasTerm? && g.blocks[p].term.t.BranchIf? &&
               AllBelow(Targets(g.blocks[p]), |g.blocks|)
    ensures var r := Converted(g, p, c);
            && (forall v :: v in g.phis ==> r.phis[v].block == g.phis[v].block)
            && r.blocks[p].body == g.blocks[p].body
            && r.blocks[p].term == HasTerm(Branch(if c then g.blocks[p].term.t.thn else g.blocks[p].term.t.els))
            && forall x :: 0 <= x < |g.blocks| && x != p ==>
              r.blocks[x].body == g.blocks[x].body && r.blocks[x].term == g.blocks[x].term
  {
    hide RemoveFirst;
    var t := g.blocks[p].term.t;
    assert t.thn == Targets(g.blocks[p])[0] && t.els == Targets(g.blocks[p])[1];
  }

  /** Converting a branch with a known condition changes no run. */
  lemma ConvertSame(g: Graph, p: nat, k: int)
    requires Sound(g) && p in g.list && p < |g.blocks| && Decided(g, p, k)
    ensures AllBelow(Targets(g.blocks[p]), |g.blocks|) && SameRuns(g, Converted(g, p, k != 0))
  {
    hide RunFrom, Converted, Targets, PhisOk, EdgesOk, StepsAlike;
    ConvertedOk(g, p, k != 0);
    var r := Converted(g, p, k != 0);
    forall c: Context, s: State, n: nat
      ensures RunFrom(r, c, 0, s, n) == RunFrom(g, c, 0, s, n)
    {
      forall y: nat | y < |g.blocks| && y !in {}
        ensures StepsAlike(g, r, c, y) && StaysOut(g, {}, y)
      {
        ConvertedStep(g, p, k, c, y);
      }
      RunsAlike(g, r, c, {}, 0, s, n);
    }
    SameRunsFrom(g, r);
  }

  // ---------------------------------------------------------------- merging

  lemma MergedIncoming(g: Graph, b: nat, v: Value, x: nat)
    requires Merges(g, b) && v in g.phis && x != g.blocks[b].preds[0]
    ensures var p := g.blocks[b].preds[0];
            Incoming(RenamePreds(g.phis, b, p)[v].ops, if x == b then p else x) == Incoming(g.phis[v].ops, x)
  {
    hide Sound, CanMerge, Incoming, Agree, Preds;
    MergeReady(g, b);
    var p := g.blocks[b].preds[0];
    PairsOfPred(g, b, p, v);
    RenameIncoming(g.phis[v].ops, b, p, x);
  }

  /** Away from the two blocks nothing changes. */
  lemma MergedStep(g: Graph, b: nat, c: Context, x: nat)
    requires Merges(g, b) && x < |g.blocks| && x != b && x != g.blocks[b].preds[0]
    requires AllBelow(Targets(g.blocks[g.blocks[b].preds[0]]), |g.blocks|) && AllBelow(Targets(g.blocks[b]), |g.blocks|)
    requires g.blocks[b].term.HasTerm? && EdgesOk(Merged(g, b))
    ensures |Merged(g, b).blocks| == |g.blocks| && StepsAlike(g, Merged(g, b), c, x) && b !in Targets(g.blocks[x])
  {
    hide EdgesOk, PhisOk, ListOk, CanMerge, Incoming, Merged, Targets, ExecBody, AllBelow, RenamePreds;
    MergeReady(g, b);
    MergedShape(g, b);
    var r, p := Merged(g, b), g.blocks[b].preds[0];
    forall s: State
      ensures StepAlike(g, r, c, x, s)
    {
      if !TermOf(g.blocks[x]).Ret? {
        var t, e := NextBlock(g, c, x, s), BlockEnd(g, c, x, s);
        RenamedBlocks(g, b, p);
        forall v | v in g.phis && g.phis[v].block == t
          ensures Incoming(r.phis[v].ops, x) == Incoming(g.phis[v].ops, x)
        {
          MergedIncoming(g, b, v, x);
        }
        EnteredSame(g, r, c, x, x, t, e);
      }
    }
  }

  lemma RenamedBlocks(g: Graph, b: nat, p: nat)
    ensures forall v :: v in g.phis ==> RenamePreds(g.phis, b, p)[v].block == g.phis[v].block
  {
  }

  /** The merged block does what its predecessor and then it did. */
  lemma MergedAt(g: Graph, b: nat, c: Context, s: State)
    requires Merges(g, b)
    requires AllBelow(Targets(g.blocks[g.blocks[b].preds[0]]), |g.blocks|) && AllBelow(Targets(g.blocks[b]), |g.blocks|)
    requires g.blocks[b].term.HasTerm? && EdgesOk(Merged(g, b)) && |Merged(g, b).blocks| == |g.blocks|
    ensures var p, r := g.blocks[b].preds[0], Merged(g, b);
            var e := BlockEnd(g, c, p, s);
            && !TermOf(g.blocks[p]).Ret? && NextBlock(g, c, p, s) == b && Entered(g, c, p, b, e) == e
            && TermOf(r.blocks[p]) == TermOf(g.blocks[b]) && BlockEnd(r, c, p, s) == BlockEnd(g, c, b, e)
            && (!TermOf(g.blocks[b]).Ret? ==>
                  var t, e' := NextBlock(g, c, b, e), BlockEnd(g, c, b, e);
                  NextBlock(r, c, p, s) == t && t != b && Entered(r, c, p, t, e') == Entered(g, c, b, t, e'))
  {
    hide EdgesOk, PhisOk, ListOk, Incoming, Merged, Targets, ExecBody, AllBelow, RenamePreds, Eval;
    MergeReady(g, b);
    MergedShape(g, b);
    var r, p := Merged(g, b), g.blocks[b].preds[0];
    var e := BlockEnd(g, c, p, s);
    assert (map v | v in g.phis && g.phis[v].block == b :: Eval(Incoming(g.phis[v].ops, p), e.env, c.args)) == map[];
    assert e.env + map[] == e.env;
    ExecConcat(c.m, c.args, c.slots, g.blocks[p].body, g.blocks[b].body, s);
    if !TermOf(g.blocks[b]).Ret? {
      var t, e' := NextBlock(g, c, b, e), BlockEnd(g, c, b, e);
      RenamedBlocks(g, b, p);
      forall v | v in g.phis && g.phis[v].block == t
        ensures Incoming(r.phis[v].ops, p) == Incoming(g.phis[v].ops, b)
      {
        MergedIncoming(g, b, v, b);
      }
      EnteredSame(g, r, c, b, p, t, e');
    }
  }

  /** What a run of g returns, the run of the merged graph returns. */
  lemma {:induction false} MergeForward(g: Graph, b: nat, c: Context, x: nat, s: State, n: nat)
    requires Merges(g, b) && x < |g.blocks| && x != b
    requires AllBelow(Targets(g.blocks[g.blocks[b].preds[0]]), |g.blocks|) && AllBelow(Targets(g.blocks[b]), |g.blocks|)
    requires g.blocks[b].term.HasTerm? && EdgesOk(Merged(g, b)) && |Merged(g, b).blocks| == |g.blocks|
    requires RunFrom(g, c, x, s, n).Returned?
    ensures RunFrom(Merged(g, b), c, x, s, n) == RunFrom(g, c, x, s, n)
    decreases n
  {
    hide EdgesOk, PhisOk, ListOk, Merged, Targets, BlockEnd, Entered, AllBelow, RunFrom;
    var r, p := Merged(g, b), g.blocks[b].preds[0];
    RunStep(g, c, x, s, n);
    RunStep(r, c, x, s, n);
    if x != p {
      MergedStep(g, b, c, x);
      assert StepAlike(g, r, c, x, s);
      if !TermOf(g.blocks[x]).Ret? {
        var t := NextBlock(g, c, x, s);
        MergeForward(g, b, c, t, Entered(g, c, x, t, BlockEnd(g, c, x, s)), n - 1);
      }
    } else {
      MergedAt(g, b, c, s);
      var e := BlockEnd(g, c, p, s);
      RunStep(g, c, b, e, n - 1);
      if !TermOf(g.blocks[b]).Ret? {
        var t := NextBlock(g, c, b, e);
        var s' := Entered(g, c, b, t, BlockEnd(g, c, b, e));
        MergeForward(g, b, c, t, s', n - 2);
        RunMore(r, c, t, s', n - 2);
      }
    }
  }

  /** And the merged graph does nothing that g does not. */
  lemma {:induction false} MergeBackward(g: Graph, b: nat, c: Context, x: nat, s: State, n: nat) returns (n': nat)
    requires Merges(g, b) && x < |g.blocks| && x != b
    requires AllBelow(Targets(g.blocks[g.blocks[b].preds[0]]), |g.blocks|) && AllBelow(Targets(g.blocks[b]), |g.blocks|)
    requires g.blocks[b].term.HasTerm? && EdgesOk(Merged(g, b)) && |Merged(g, b).blocks| == |g.blocks|
    ensures RunFrom(g, c, x, s, n') == RunFrom(Merged(g, b), c, x, s, n)
    decreases n
  {
    hide EdgesOk, PhisOk, ListOk, Merged, Targets, BlockEnd, Entered, AllBelow, RunFrom;
    var r, p := Merged(g, b), g.blocks[b].preds[0];
    RunStep(r, c, x, s, n);
    if x != p {
      MergedStep(g, b, c, x);
      assert StepAlike(g, r, c, x, s);
      n' := n;
      if !TermOf(g.blocks[x]).Ret? && n > 0 {
        var t := NextBlock(g, c, x, s);
        n' := MergeBackward(g, b, c, t, Entered(g, c, x, t, BlockEnd(g, c, x, s)), n - 1);
        n' := n' + 1;
      }
      RunStep(g, c, x, s, n');
    } else {
      MergedAt(g, b, c, s);
      var e := BlockEnd(g, c, p, s);
      n' := 1;
      if !TermOf(g.blocks[b]).Ret? && n > 0 {
        var t := NextBlock(g, c, b, e);
        n' := MergeBackward(g, b, c, t, Entered(g, c, b, t, BlockEnd(g, c, b, e)), n - 1);
        n' := n' + 2;
      }
      RunStep(g, c, p, s, n');
      RunStep(g, c, b, e, n' - 1);
    }
  }

  /** Merging changes no run. */
  lemma MergeSame(g: Graph, b: nat)
    requires Merges(g, b)
    ensures g.blocks[b].term.HasTerm? && AllBelow(Targets(g.blocks[g.blocks[b].preds[0]]), |g.blocks|)
    ensures AllBelow(Targets(g.blocks[b]), |g.blocks|) && SameRuns(g, Merged(g, b))
  {
    hide RunFrom, Merged, Targets, PhisOk, EdgesOk, CanMerge;
    MergedOk(g, b);
    MergedShape(g, b);
    var r := Merged(g, b);
    forall c: Context, s: State, n: nat
      ensures ReturnKept(g, r, c, s, n) && NothingNew(g, r, c, s, n)
    {
      if RunFrom(g, c, 0, s, n).Returned? {
        MergeForward(g, b, c, 0, s, n);
      }
      var n' := MergeBackward(g, b, c, 0, s, n);
    }
  }

  // ---------------------------------------------------------------- the pass

  /** Nothing is left to do for block b. */
  ghost predicate Simple(g: Graph, b: nat)
    requires b < |g.blocks|
  {
    g.blocks[b].preds != [] && g.blocks[b].preds != [b] && !CanMerge(g, b)
  }

  /** Restarts after every change; each change takes a block off the list. */
  method Simplify(fg: FuncGraph) returns (changed: nat)
    requires Sound(fg.G())
    modifies fg
    ensures Sound(fg.G()) && SameRuns(old(fg.G()), fg.G())
    ensures UsesDominated(old(fg.G())) ==> NoneLost(old(fg.G()), fg.G())
    ensures changed + |fg.list| == |old(fg.list)|
    ensures forall i :: 0 < i < |fg.list| ==> fg.list[i] < |fg.blocks| && Simple(fg.G(), fg.list[i])
    // Every listed block but the entry has a predecessor besides itself; if it has one only,
    // that has another successor or there is a phi at the top
    ensures forall i :: 0 < i < |fg.list| ==>
              var b := fg.list[i]; var preds := fg.blocks[b].preds;
              && preds != [] && preds != [b]
              && (|preds| == 1 && preds[0] < |fg.blocks| && |fg.blocks[preds[0]].succs| == 1 ==>
                    exists v :: v in fg.phis && fg.phis[v].block == b)
  {
    hide EdgesOk, PhisOk, SameRuns, BlockFreed, Merged, AllBelow, Distinct, UsesDominated, UsesDefined;
    ghost var g0 := fg.G();
    SoundRuns(g0);
    SameRunsSelf(g0);
    if UsesDominated(g0) {
      DominatedDefined(g0);
    }
    changed := 0;
    var again := true;
    while again
      invariant Sound(fg.G()) && SameRuns(g0, fg.G()) && changed + |fg.list| == |g0.list|
      invariant UsesDominated(g0) ==> UsesDefined(g0, fg.G())
      invariant !again ==> forall i :: 0 < i < |fg.list| ==> fg.list[i] < |fg.blocks| && Simple(fg.G(), fg.list[i])
      decreases |fg.list|, again
    {
      again := false;
      var i := 1;
      ghost var g1 := fg.G();
      while i < |fg.list| && !again
        invariant Sound(fg.G()) && SameRuns(g0, fg.G()) && changed + |fg.list| == |g0.list| && i > 0
        invariant UsesDominated(g0) ==> UsesDefined(g0, fg.G())
        invariant if again then |fg.list| < |g1.list| else fg.G() == g1
        invariant !again ==> forall j :: 0 < j < i && j < |fg.list| ==>
                    fg.list[j] < |fg.blocks| && Simple(fg.G(), fg.list[j])
        decreases |g1.list| - i, !again
      {
        var b := fg.list[i];
        ghost var g := fg.G();
        NotEntry(g, i);
        var preds := fg.blocks[b].preds;
        if |preds| == 0 || (|preds| == 1 && preds[0] == b) {
          FreeSame(g, b);
          if UsesDefined(g0, g) {
            FreedUses(g0, g, b);
          }
          fg.FreeBlock(b);
          SameRunsTrans(g0, g, fg.G());
          changed := changed + 1;
          again := true;
        } else {
          var can := CanMergeWithSinglePredecessor(fg, b);
          if can {
            assert Merges(g, b);
            MergeSame(g, b);
            if UsesDefined(g0, g) {
              MergedUses(g0, g, b);
            }
            fg.MergeIntoPredecessor(b);
            SameRunsTrans(g0, g, fg.G());
            changed := changed + 1;
            again := true;
          }
        }
        i := i + 1;
      }
    }
    if UsesDefined(g0, fg.G()) {
      DefinedNoneLost(g0, fg.G());
    }
    forall i | 0 < i < |fg.list|
      ensures SimpleHere(fg.blocks, fg.phis, fg.list[i])
    {
      SimpleMeans(fg.G(), fg.list[i]);
    }
  }

  ghost predicate SimpleHere(blocks: seq<BasicBlock>, phis: map<Value, Phi>, b: nat) {
    && b < |blocks| && blocks[b].preds != [] && blocks[b].preds != [b]
    && (|blocks[b].preds| == 1 && blocks[b].preds[0] < |blocks| && |blocks[blocks[b].preds[0]].succs| == 1 ==>
          exists v :: v in phis && phis[v].block == b)
  }

  lemma SimpleMeans(g: Graph, b: nat)
    requires b < |g.blocks| && Simple(g, b)
    ensures SimpleHere(g.blocks, g.phis, b)
  {
  }

  lemma SoundRuns(g: Graph)
    requires Sound(g)
    ensures Runs(g)
  {
    assert g.list[0] in g.list;
  }

  lemma NotEntry(g: Graph, i: nat)
    requires Sound(g) && 0 < i < |g.list|
    ensures g.list[i] != 0 && g.list[i] in g.list && g.list[i] < |g.blocks|
  {
    hide EdgesOk, PhisOk;
  }

  method CanMergeWithSinglePredecessor(fg: FuncGraph, b: nat) returns (r: bool)
    requires Sound(fg.G()) && b < |fg.blocks|
    ensures r <==> CanMerge(fg.G(), b)
    ensures r <==>
      && |fg.blocks[b].preds| == 1 && fg.blocks[b].preds[0] < |fg.blocks|
      && |fg.blocks[fg.blocks[b].preds[0]].succs| == 1 && forall v :: v in fg.phis ==> fg.phis[v].block != b
  {
    hide PhisOk, ListOk;
    if |fg.blocks[b].preds| != 1 {
      return false;
    }
    var here := set v | v in fg.phis && fg.phis[v].block == b;
    if here != {} {
      ghost var v :| v in here;
      return false;
    }
    assert forall v :: v in fg.phis && fg.phis[v].block == b ==> v in here;
    var p := fg.blocks[b].preds[0];
    assert p < |fg.blocks| by {
      assert BlockOk(fg.G(), b);
    }
    return |fg.blocks[p].succs| == 1;
  }
}
