/** Promotion preserves meaning: the function that is left when the pass is done, with
    the promoted allocas and the stores to them removed, runs exactly like the function
    it started from. */
module SsaCorrect {
  import opened IR
  import opened Cfg
  import opened SsaPaths
  import opened SsaFacts
  import opened SsaState
  import opened SsaSteps
  import opened SsaReads
  import opened SsaSeals

  // ---------------------------------------------------------------- the result

  predicate IsDead(D: set<nat>, i: Instruction) {
    (i.Alloca? && i.id in D) || (i.Store? && IsSlot(i.addr, D))
  }

  /** A block body without the allocas in D and the stores to them. */
  function Strip(D: set<nat>, body: seq<Instruction>): seq<Instruction> {
    if body == [] then []
    else
      var last := body[|body| - 1];
      Strip(D, body[..|body| - 1]) + if IsDead(D, last) then [] else [last]
  }

  lemma {:induction false} StripConcat(D: set<nat>, a: seq<Instruction>, b: seq<Instruction>)
    ensures Strip(D, a + b) == Strip(D, a) + Strip(D, b)
  {
    if b == [] {
      assert a + b == a;
    } else {
      var last := b[|b| - 1];
      assert (a + b)[..|a + b| - 1] == a + b[..|b| - 1];
      StripConcat(D, a, b[..|b| - 1]);
    }
  }

  lemma {:induction false} StripTwice(D: set<nat>, E: set<nat>, body: seq<Instruction>)
    ensures Strip(E, Strip(D, body)) == Strip(D + E, body)
  {
    if body != [] {
      var last := body[|body| - 1];
      StripTwice(D, E, body[..|body| - 1]);
      StripConcat(E, Strip(D, body[..|body| - 1]), if IsDead(D, last) then [] else [last]);
      StripOne(E, last);
    }
  }

  lemma StripOne(D: set<nat>, i: Instruction)
    ensures Strip(D, [i]) == if IsDead(D, i) then [] else [i]
  {
    assert [i][..0] == [];
    assert Strip(D, [i][..0]) == [];
  }

  lemma {:induction false} StripNothing(body: seq<Instruction>)
    ensures Strip({}, body) == body
  {
    if body != [] {
      StripNothing(body[..|body| - 1]);
      assert body == body[..|body| - 1] + [body[|body| - 1]];
    }
  }

  /** The round is over: all blocks have been walked and all phis have their operands. */
  ghost predicate Finished(c: Ctx, s: Pass, hist: History) {
    && Inv(c, s, Cursor(|c.f.blocks|, 0), Const(0), hist)
    && (forall b :: 0 <= b < |c.f.blocks| ==> b in s.filled)
    && (forall phi :: phi in s.phis ==> Complete(c.preds, s.phis[phi]))
  }

  ghost predicate IsResult(c: Ctx, s: Pass, hist: History, g: Func) {
    && Finished(c, s, hist)
    && |g.blocks| == |c.f.blocks|
    && g.phis == s.phis
    && (forall b :: 0 <= b < |g.blocks| ==> ResultBlock(c, hist, g, b))
  }

  ghost predicate ResultBlock(c: Ctx, hist: History, g: Func, b: nat)
    requires b < |g.blocks| && b < |c.f.blocks|
  {
    g.blocks[b] == Block(Strip(c.P, Rewrite(hist, c.f.blocks[b].body)), ChaseTerm(hist, c.f.blocks[b].term))
  }

  // ---------------------------------------------------------------- agreement

  /** Live values that have been computed have the value they stand for. */
  ghost predicate Agrees(c: Ctx, run: Setting, s: Pass, env: map<Value, int>, path: seq<nat>, k: nat)
    requires IsPath(c.f, path) && k <= Len(c, path[|path| - 1])
  {
    forall v :: Live(c, s, v) && Avail(c, v, path, k) ==> Eval(v, env, run.args) == Sem(c, run, v, path, k)
  }

  ghost predicate Matches(c: Ctx, run: Setting, s: Pass, t: State, path: seq<nat>, k: nat)
    requires IsPath(c.f, path) && k <= Len(c, path[|path| - 1])
  {
    t.world == At(c, run, path, k).world && Agrees(c, run, s, t.env, path, k)
  }

  lemma SemFrame(c: Ctx, run: Setting, v: Value, path: seq<nat>, b: nat, k: nat)
    requires GoodDefs(c) && PathTo(c.f, path, b) && k < Len(c, b)
    requires !Defines(c.f.blocks[b].body[k], v)
    ensures Sem(c, run, v, path, k + 1) == Sem(c, run, v, path, k)
    ensures Avail(c, v, path, k + 1) ==> Avail(c, v, path, k)
  {
    ExecFrame(c, run, c.f.blocks[b].body[k], At(c, run, path, k), v);
    hide At;
    if !v.Const? && !v.Arg? && Avail(c, v, path, k + 1) {
      var k' := k + 1;
      var i :| DefinedAt(c, v, path, k', i);
      if v in c.defs {
        assert DefPlace(c.f, v, c.defs[v]);
      }
      assert DefinedAt(c, v, path, k, i);
    }
  }

  /** An operand evaluates, after the replacements, to what it was. */
  lemma OperandAgrees(c: Ctx, run: Setting, s: Pass, cur: Cursor, hist: History, t: State, u: Value, path: seq<nat>,
                      b: nat, k: nat)
    requires c.machines(run.m)
    requires GoodEdges(c) && GoodDefs(c) && HistMap(s, hist) && HistLinks(c, s, cur, hist)
    requires PathTo(c.f, path, b) && k <= Len(c, b)
    requires Agrees(c, run, s, t.env, path, k)
    requires GoodUse(c, u, b, k) && Known(c, s, u)
    ensures Eval(Chase(hist, u), t.env, run.args) == Eval(u, At(c, run, path, k).env, run.args)
  {
    hide At, GoodEdges, GoodDefs, HistMap, HistLinks;
    var v := Chase(hist, u);
    SoundSelf(c, u, b, k);
    ChaseSound(c, s, cur, hist, u, ValueOf(u), b, k);
    ChaseLive(c, s, cur, hist, u);
    assert SoundOn(c, v, ValueOf(u), path, k);
  }

  lemma OperandKnown(c: Ctx, s: Pass, u: Value, b: nat, k: nat)
    requires GoodSlots(c) && PhisOk(c, s) && b < |c.f.blocks| && k < Len(c, b) && GoodUses(c)
    requires UsedBy(c.f.blocks[b].body[k], u)
    requires match c.f.blocks[b].body[k]
             case Load(_, addr) => !IsSlot(addr, c.P)
             case Store(_, addr, _) => !IsSlot(addr, c.P)
             case _ => true
    ensures GoodUse(c, u, b, k) && Known(c, s, u)
  {
    assert IsSlot(u, c.P) ==> Promotable(c.f, u.id);
  }

  lemma SameOperand(c: Ctx, run: Setting, s: Pass, cur: Cursor, hist: History, t: State, path: seq<nat>, b: nat,
                    k: nat, u: Value)
    requires c.machines(run.m)
    requires WellFormed(c) && HistOk(c, s, cur, hist) && PhisOk(c, s)
    requires PathTo(c.f, path, b) && k < Len(c, b)
    requires Matches(c, run, s, t, path, k)
    requires match c.f.blocks[b].body[k]
             case Load(_, addr) => !IsSlot(addr, c.P)
             case Store(_, addr, _) => !IsSlot(addr, c.P)
             case _ => true
    requires UsedBy(c.f.blocks[b].body[k], u)
    ensures Eval(Chase(hist, u), t.env, run.args) == Eval(u, At(c, run, path, k).env, run.args)
    ensures IsSlot(Chase(hist, u), c.P) <==> IsSlot(u, c.P)
  {
    hide At;
    OperandKnown(c, s, u, b, k);
    hide GoodEdges, GoodDefs, GoodUses, GoodPhis, GoodSlots, HistMap, HistLinks, LoadsGone, PhisOk, Agrees;
    OperandAgrees(c, run, s, cur, hist, t, u, path, b, k);
    ChaseSlot(c, s, cur, hist, u);
  }

  /** An instruction that stays does the same in both functions. */
  lemma SameInstr(c: Ctx, run: Setting, s: Pass, cur: Cursor, hist: History, t: State, path: seq<nat>, b: nat, k: nat)
    requires c.machines(run.m)
    requires WellFormed(c) && HistOk(c, s, cur, hist) && PhisOk(c, s)
    requires PathTo(c.f, path, b) && k < Len(c, b)
    requires Matches(c, run, s, t, path, k)
    requires match c.f.blocks[b].body[k]
             case Load(_, addr) => !IsSlot(addr, c.P)
             case Store(_, addr, _) => !IsSlot(addr, c.P)
             case _ => true
    ensures var i := c.f.blocks[b].body[k]; var i' := ChaseInstr(hist, i);
            var t' := ExecInstr(run.m, run.args, c.P, i', t);
              var o' := ExecInstr(run.m, run.args, c.P, i, At(c, run, path, k));
            t'.world == o'.world && (!i.Store? ==> t'.env == t.env[Instr(i.id) := o'.env[Instr(i.id)]]) &&
            (i.Store? ==> t'.env == t.env)
  {
    hide WellFormed, HistOk, PhisOk, Agrees, At, Chase, ChaseInstr;
    var i := c.f.blocks[b].body[k];
    ChaseInstrShape(hist, i);
    forall u | UsedBy(i, u)
      ensures Eval(Chase(hist, u), t.env, run.args) == Eval(u, At(c, run, path, k).env, run.args)
      ensures IsSlot(Chase(hist, u), c.P) <==> IsSlot(u, c.P)
    {
      SameOperand(c, run, s, cur, hist, t, path, b, k, u);
    }
    if i.Op? {
      var ops := seq(|i.args|, j requires 0 <= j < |i.args| => Chase(hist, i.args[j]));
      assert EvalAll(ops, t.env, run.args) == EvalAll(i.args, At(c, run, path, k).env, run.args);
    }
  }

  /** One instruction: in the result it is gone, or it does the same. */
  lemma StepMatches(c: Ctx, run: Setting, s: Pass, cur: Cursor, hist: History, t: State, path: seq<nat>, b: nat, k: nat)
    requires c.machines(run.m)
    requires WellFormed(c) && HistOk(c, s, cur, hist) && PhisOk(c, s)
    requires PathTo(c.f, path, b) && k < Len(c, b) && Processed(s, cur, b, k)
    requires Matches(c, run, s, t, path, k)
    ensures var i := c.f.blocks[b].body[k]; var i' := ChaseInstr(hist, i);
            var t' := if Gone(hist, i) || IsDead(c.P, i') then t else ExecInstr(run.m, run.args, c.P, i', t);
            Matches(c, run, s, t', path, k + 1)
  {
    hide GoodEdges, GoodUses, GoodPhis, GoodSlots, HistMap, HistLinks, PhisOk, LoadsGone;
    var i := c.f.blocks[b].body[k];
    var i' := ChaseInstr(hist, i);
    GoneIffSlotLoad(c, s, cur, hist, b, k);
    DeadIffSlotAccess(c, s, cur, hist, b, k);
    var t' := if Gone(hist, i) || IsDead(c.P, i') then t else ExecInstr(run.m, run.args, c.P, i', t);
    if !Gone(hist, i) && !IsDead(c.P, i') {
      SameInstr(c, run, s, cur, hist, t, path, b, k);
    }
    SlotAccessIsSilent(c, run, path, b, k);
    forall v | Live(c, s, v) && Avail(c, v, path, k + 1)
      ensures Eval(v, t'.env, run.args) == Sem(c, run, v, path, k + 1)
    {
      if !Defines(i, v) {
        SemFrame(c, run, v, path, b, k);
      }
    }
  }

  lemma SlotAccessIsSilent(c: Ctx, run: Setting, path: seq<nat>, b: nat, k: nat)
    requires PathTo(c.f, path, b) && k < Len(c, b)
    ensures var i := c.f.blocks[b].body[k];
            ((i.Alloca? && i.id in c.P) || (i.Load? && IsSlot(i.addr, c.P)) || (i.Store? && IsSlot(i.addr, c.P)) ==>
              At(c, run, path, k + 1).world == At(c, run, path, k).world)
  {
  }

  lemma GoneIffSlotLoad(c: Ctx, s: Pass, cur: Cursor, hist: History, b: nat, k: nat)
    requires GoodDefs(c) && HistOk(c, s, cur, hist) && b < |c.f.blocks| && k < Len(c, b) && Processed(s, cur, b, k)
    ensures Gone(hist, c.f.blocks[b].body[k]) <==> SlotLoad(c, b, k)
    ensures SlotLoad(c, b, k) ==> Instr(c.f.blocks[b].body[k].id) in s.replacement
  {
    hide MayReplace;
    var i := c.f.blocks[b].body[k];
    if Gone(hist, i) {
      var j :| 0 <= j < |hist| && hist[j].0 == Instr(i.id);
      assert LinkOk(c, s, cur, hist[j].0, hist[j].1);
      assert c.defs[Instr(i.id)] == (b, k + 1);
      if b': nat, j': nat :| LoadOf(c, s, cur, hist[j].0, b', j') {
        assert c.defs[Instr(i.id)] == (b', j' + 1);
      }
    }
  }

  lemma DeadIffSlotAccess(c: Ctx, s: Pass, cur: Cursor, hist: History, b: nat, k: nat)
    requires GoodDefs(c) && GoodSlots(c) && HistOk(c, s, cur, hist) && b < |c.f.blocks| && k < Len(c, b)
    ensures var i := c.f.blocks[b].body[k];
            IsDead(c.P, ChaseInstr(hist, i)) <==> (i.Alloca? && i.id in c.P) || (i.Store? && IsSlot(i.addr, c.P))
  {
    hide GoodDefs, GoodSlots, HistMap, HistLinks, LoadsGone;
    var i := c.f.blocks[b].body[k];
    ChaseInstrShape(hist, i);
    if i.Store? {
      ChaseSlot(c, s, cur, hist, i.addr);
    }
  }

  /** What is left of the first k instructions. */
  lemma StripStep(P: set<nat>, hist: History, body: seq<Instruction>, k: nat)
    requires 0 < k <= |body|
    ensures var prev := Strip(P, Rewrite(hist, body[..k - 1])); var i' := ChaseInstr(hist, body[k - 1]);
            Strip(P, Rewrite(hist, body[..k])) == if Gone(hist, body[k - 1]) || IsDead(P, i') then prev else prev + [i']
  {
    var i := body[k - 1];
    assert body[..k] == body[..k - 1] + [i];
    RewriteConcat(hist, body[..k - 1], [i]);
    RewriteOne(hist, i);
    hide Rewrite, Gone, ChaseInstr;
    StripConcat(P, Rewrite(hist, body[..k - 1]), Rewrite(hist, [i]));
    StripOne(P, ChaseInstr(hist, i));
    var prev := Strip(P, Rewrite(hist, body[..k - 1]));
    assert prev + [] == prev;
  }

  /** The straight-line part of a block. */
  lemma {:induction false} BodyMatches(c: Ctx, run: Setting, s: Pass, cur: Cursor, hist: History, t: State,
                                       path: seq<nat>, b: nat, k: nat)
    requires c.machines(run.m)
    requires WellFormed(c) && HistOk(c, s, cur, hist) && PhisOk(c, s)
    requires PathTo(c.f, path, b) && k <= Len(c, b) && b in s.filled
    requires Matches(c, run, s, t, path, 0)
    ensures Matches(c, run, s, ExecBody(run.m, run.args, c.P, Strip(c.P, Rewrite(hist, c.f.blocks[b].body[..k])), t),
              path, k)
    decreases k
  {
    hide WellFormed, HistOk, PhisOk, Matches, ExecInstr, Rewrite, Strip, ChaseInstr, Gone, IsDead;
    var body := c.f.blocks[b].body;
    if k > 0 {
      BodyMatches(c, run, s, cur, hist, t, path, b, k - 1);
      var prev := Strip(c.P, Rewrite(hist, body[..k - 1]));
      StepMatches(c, run, s, cur, hist, ExecBody(run.m, run.args, c.P, prev, t), path, b, k - 1);
      StripStep(c.P, hist, body, k);
      assert (prev + [ChaseInstr(hist, body[k - 1])])[..|prev|] == prev;
    } else {
      assert Strip(c.P, Rewrite(hist, body[..0])) == [] by { StripEmpty(c.P, hist, body[..0]); }
    }
  }

  lemma StripEmpty(P: set<nat>, hist: History, body: seq<Instruction>)
    requires body == []
    ensures Strip(P, Rewrite(hist, body)) == []
  {
  }

  // ---------------------------------------------------------------- edges

  lemma NotPhiHere(c: Ctx, s: Pass, v: Value, path: seq<nat>, b: nat)
    requires GoodDefs(c) && PhisOk(c, s)
    requires PathTo(c.f, path, b) && |path| > 1 && Live(c, s, v) && Avail(c, v, path, 0)
    requires !(v in s.phis && s.phis[v].block == b)
    ensures v in c.f.phis ==> c.f.phis[v].block != b
    ensures v.NewPhi? ==> v.block != b
    ensures Avail(c, v, path[..|path| - 1], Len(c, path[|path| - 2]))
  {
    hide GoodOps;
    if v in s.phis {
      assert PhiOk(c, s, v);
      PhiIsPhi(c, s, v);
    }
    if !v.Const? && !v.Arg? {
      var i :| DefinedAt(c, v, path, 0, i);
      if v in c.defs {
        assert DefPlace(c.f, v, c.defs[v]);
      }
      assert DefinedAt(c, v, path[..|path| - 1], Len(c, path[|path| - 2]), i);
    }
  }

  lemma OtherAtEdge(c: Ctx, run: Setting, v: Value, path: seq<nat>, b: nat)
    requires PathTo(c.f, path, b) && |path| > 1 && IsPath(c.f, path[..|path| - 1])
    requires v in c.f.phis ==> c.f.phis[v].block != b
    requires v.NewPhi? ==> v.block != b
    requires Avail(c, v, path[..|path| - 1], Len(c, path[|path| - 2]))
    ensures Sem(c, run, v, path, 0) == Sem(c, run, v, path[..|path| - 1], Len(c, path[|path| - 2]))
  {
    var front := path[..|path| - 1];
    if v.NewPhi? {
      hide At;
      var i :| DefinedAt(c, v, front, Len(c, path[|path| - 2]), i);
      assert front[i] == v.block;
      var j := LastIndex(front, v.block);
      assert LastIndex(path, v.block) == j;
      assert front[..j + 1] == path[..j + 1];
    } else {
      AtEdge(c, run, path);
      EnterFrame(c.f, run.args, path[|path| - 2], b, AtEnd(c, run, front), v);
    }
  }

  ghost predicate AgreesBefore(c: Ctx, run: Setting, s: Pass, env: map<Value, int>, path: seq<nat>) {
    && |path| > 1 && IsPath(c.f, path) && IsPath(c.f, path[..|path| - 1])
    && Agrees(c, run, s, env, path[..|path| - 1], Len(c, path[|path| - 2]))
  }

  /** The pair for the edge that the path took last. */
  lemma PairForEdge(c: Ctx, s: Pass, v: Value, path: seq<nat>, b: nat) returns (i: nat)
    requires GoodEdges(c) && PhisOk(c, s) && PathTo(c.f, path, b) && |path| > 1
    requires v in s.phis && s.phis[v].block == b && Complete(c.preds, s.phis[v])
    ensures PathTo(c.f, path[..|path| - 1], path[|path| - 2])
    ensures i < |s.phis[v].ops| && s.phis[v].ops[i] == (Incoming(s.phis[v].ops, path[|path| - 2]), path[|path| - 2])
    ensures PhiOk(c, s, v) && SoundOp(c, v, b, s.phis[v].ops[i]) && Live(c, s, s.phis[v].ops[i].0)
  {
    hide SoundOp, Live;
    var p := path[|path| - 2];
    assert PhiOk(c, s, v);
    PathHasPred(c, path, b);
    CompleteCovers(c.preds, s.phis[v]);
    i :| 0 <= i < |s.phis[v].ops| && s.phis[v].ops[i] == (Incoming(s.phis[v].ops, p), p);
  }

  lemma PhiOperandAgrees(c: Ctx, run: Setting, s: Pass, t: State, v: Value, path: seq<nat>, b: nat)
    requires c.machines(run.m)
    requires AgreesBefore(c, run, s, t.env, path) && PathTo(c.f, path, b)
    requires v in s.phis && s.phis[v].block == b && Complete(c.preds, s.phis[v])
    requires WellFormed(c) && PhisOk(c, s)
    ensures Eval(Incoming(s.phis[v].ops, path[|path| - 2]), t.env, run.args) == Sem(c, run, v, path, 0)
  {
    hide Sem, At, GoodEdges, GoodDefs, GoodUses, GoodPhis, GoodSlots, PhisOk, SoundOp, PhiOk, Live, Complete;
    var p, front := path[|path| - 2], path[..|path| - 1];
    var i := PairForEdge(c, s, v, path, b);
    OperandOnPath(c, v, b, s.phis[v].ops[i], front);
    PhiIsPhi(c, s, v);
    PhiAtEdge(c, run, v, b, path);
  }

  lemma EdgeMatches(c: Ctx, run: Setting, s: Pass, g: Func, t: State, path: seq<nat>, b: nat)
    requires c.machines(run.m)
    requires WellFormed(c) && PhisOk(c, s) && g.phis == s.phis
    requires forall phi :: phi in s.phis ==> Complete(c.preds, s.phis[phi])
    requires PathTo(c.f, path, b) && |path| > 1 && IsPath(c.f, path[..|path| - 1])
    requires Matches(c, run, s, t, path[..|path| - 1], Len(c, path[|path| - 2]))
    ensures Matches(c, run, s, Enter(g, run.args, path[|path| - 2], b, t), path, 0)
  {
    hide Sem;
    var p, front := path[|path| - 2], path[..|path| - 1];
    var t' := Enter(g, run.args, p, b, t);
    AtEdge(c, run, path);
    hide At;
    forall v | Live(c, s, v) && Avail(c, v, path, 0)
      ensures Eval(v, t'.env, run.args) == Sem(c, run, v, path, 0)
    {
      if v in s.phis && s.phis[v].block == b {
        PhiOperandAgrees(c, run, s, t, v, path, b);
        hide GoodEdges, GoodUses, GoodPhis, GoodSlots, Live, Avail;
        assert PhiOk(c, s, v);
        PhiIsPhi(c, s, v);
      } else {
        NotPhiHere(c, s, v, path, b);
        OtherAtEdge(c, run, v, path, b);
        hide GoodEdges, GoodDefs, GoodUses, GoodPhis, GoodSlots, PhisOk;
        EnterFrame(g, run.args, p, b, t, v);
      }
    }
  }

  lemma StartMatches(c: Ctx, run: Setting, s: Pass)
    requires WellFormed(c)
    ensures IsPath(c.f, [0]) && Matches(c, run, s, Start(run.w0), [0], 0)
  {
    var path := [0];
    assert IsPath(c.f, path);
    forall v | Live(c, s, v) && Avail(c, v, path, 0)
      ensures Eval(v, map[], run.args) == Sem(c, run, v, path, 0)
    {
      if v.NewPhi? && v.block in path {
        assert path[..LastIndex(path, v.block) + 1] == path;
      }
    }
  }

  // ---------------------------------------------------------------- whole runs

  lemma {:induction false} ExecBodyAt(c: Ctx, run: Setting, path: seq<nat>, b: nat, k: nat)
    requires PathTo(c.f, path, b) && k <= Len(c, b)
    ensures ExecBody(run.m, run.args, c.P, c.f.blocks[b].body[..k], At(c, run, path, 0)) == At(c, run, path, k)
    decreases k
  {
    hide ExecInstr;
    if k > 0 {
      ExecBodyAt(c, run, path, b, k - 1);
      assert c.f.blocks[b].body[..k][..k - 1] == c.f.blocks[b].body[..k - 1];
    }
  }

  lemma ExtendPath(c: Ctx, run: Setting, path: seq<nat>, b: nat, t: nat)
    requires ValidTargets(c.f) && PathTo(c.f, path, b) && t in Succs(c.f.blocks[b].term)
    ensures PathTo(c.f, path + [t], t) && (path + [t])[..|path|] == path
    ensures At(c, run, path + [t], 0) == Enter(c.f, run.args, b, t, At(c, run, path, Len(c, b)))
  {
    assert Edge(c.f, b, t);
    hide At, ValidTargets, Enter;
    ExtendIsPath(c.f, path, b, t);
    assert path[|path| - 1] == b;
    assert (path + [t])[..|path + [t]| - 1] == path;
    AtEdge(c, run, path + [t]);
  }

  lemma ResultTargets(c: Ctx, s: Pass, hist: History, g: Func)
    requires IsResult(c, s, hist, g)
    ensures ValidTargets(g) && ValidTargets(c.f) && |c.f.blocks| > 0
  {
    hide HistOk, DefOk, PhisOk, PendingsOk, BlocksOk, SealsOk, GoodDefs, GoodUses, GoodPhis, GoodSlots;
    forall b, t | 0 <= b < |g.blocks| && t in Succs(g.blocks[b].term)
      ensures t < |g.blocks|
    {
      assert ResultBlock(c, hist, g, b);
      ChaseSuccs(hist, c.f.blocks[b].term);
    }
  }

  /** Both functions leave a block in the same way. */
  lemma TermAgrees(c: Ctx, run: Setting, s: Pass, cur: Cursor, hist: History, t: State, path: seq<nat>, b: nat)
    requires c.machines(run.m)
    requires WellFormed(c) && HistOk(c, s, cur, hist) && PhisOk(c, s)
    requires PathTo(c.f, path, b) && Matches(c, run, s, t, path, Len(c, b))
    ensures var o := At(c, run, path, Len(c, b)); var term := c.f.blocks[b].term; var term' := ChaseTerm(hist, term);
            && (term.Ret? <==> term'.Ret?)
            && (term.Ret? ==> Eval(term'.val, t.env, run.args) == Eval(term.val, o.env, run.args))
            && (!term.Ret? ==> Next(term', t, run.args) == Next(term, o, run.args))
  {
    hide WellFormed, HistOk, PhisOk, Agrees, At, Chase, ChaseTerm;
    var term := c.f.blocks[b].term;
    ChaseTermShape(hist, term);
    forall u | UsedByTerm(term, u)
      ensures Eval(Chase(hist, u), t.env, run.args) == Eval(u, At(c, run, path, Len(c, b)).env, run.args)
    {
      SameTermOperand(c, run, s, cur, hist, t, path, b, u);
    }
  }

  lemma SameTermOperand(c: Ctx, run: Setting, s: Pass, cur: Cursor, hist: History, t: State, path: seq<nat>, b: nat,
                        u: Value)
    requires c.machines(run.m)
    requires WellFormed(c) && HistOk(c, s, cur, hist) && PhisOk(c, s)
    requires PathTo(c.f, path, b) && Matches(c, run, s, t, path, Len(c, b))
    requires UsedByTerm(c.f.blocks[b].term, u)
    ensures Eval(Chase(hist, u), t.env, run.args) == Eval(u, At(c, run, path, Len(c, b)).env, run.args)
  {
    hide At;
    TermOperandKnown(c, s, u, b);
    hide GoodEdges, GoodDefs, GoodUses, GoodPhis, GoodSlots, HistMap, HistLinks, LoadsGone, PhisOk, Agrees;
    OperandAgrees(c, run, s, cur, hist, t, u, path, b, Len(c, b));
  }

  lemma TermOperandKnown(c: Ctx, s: Pass, u: Value, b: nat)
    requires GoodSlots(c) && PhisOk(c, s) && b < |c.f.blocks| && GoodUses(c)
    requires UsedByTerm(c.f.blocks[b].term, u)
    ensures GoodUse(c, u, b, Len(c, b)) && Known(c, s, u)
  {
    assert IsSlot(u, c.P) ==> Promotable(c.f, u.id);
  }

  /** What one visit of a block does in the result, against the original. */
  lemma BlockMatches(c: Ctx, run: Setting, s: Pass, hist: History, g: Func, t: State, path: seq<nat>, b: nat)
    requires c.machines(run.m)
    requires IsResult(c, s, hist, g) && b < |g.blocks|
    requires PathTo(c.f, path, b) && Matches(c, run, s, t, path, 0)
    ensures ExecBody(run.m, run.args, c.P, c.f.blocks[b].body, At(c, run, path, 0)) == At(c, run, path, Len(c, b))
    ensures Matches(c, run, s, ExecBody(run.m, run.args, c.P, g.blocks[b].body, t), path, Len(c, b))
    ensures var t' := ExecBody(run.m, run.args, c.P, g.blocks[b].body, t); var o := At(c, run, path, Len(c, b));
            var term := c.f.blocks[b].term; var term' := g.blocks[b].term;
            && (term.Ret? <==> term'.Ret?)
            && (term.Ret? ==> Eval(term'.val, t'.env, run.args) == Eval(term.val, o.env, run.args))
            && (!term.Ret? ==> Next(term', t', run.args) == Next(term, o, run.args))
  {
    hide At, WellFormed, HistOk, DefOk, PhisOk, PendingsOk, BlocksOk, SealsOk, Matches, ExecBody;
    var cur := Cursor(|c.f.blocks|, 0);
    assert ResultBlock(c, hist, g, b);
    var body := c.f.blocks[b].body;
    assert body[..Len(c, b)] == body;
    ExecBodyAt(c, run, path, b, Len(c, b));
    BodyMatches(c, run, s, cur, hist, t, path, b, Len(c, b));
    TermAgrees(c, run, s, cur, hist, ExecBody(run.m, run.args, c.P, g.blocks[b].body, t), path, b);
  }

  lemma {:induction false} RunAgrees(c: Ctx, run: Setting, s: Pass, hist: History, g: Func, t: State, path: seq<nat>,
                                     b: nat, steps: nat)
    requires c.machines(run.m)
    requires IsResult(c, s, hist, g) && ValidTargets(g) && ValidTargets(c.f) && b < |g.blocks|
    requires PathTo(c.f, path, b) && Matches(c, run, s, t, path, 0)
    ensures Run(run.m, run.args, c.P, g, b, t, steps) == Run(run.m, run.args, c.P, c.f, b, At(c, run, path, 0), steps)
    decreases steps
  {
    BlockMatches(c, run, s, hist, g, t, path, b);
    var t' := ExecBody(run.m, run.args, c.P, g.blocks[b].body, t);
    var term := c.f.blocks[b].term;
    WorldAgrees(c, run, s, t', path, Len(c, b));
    hide At, IsResult, Matches, ExecBody;
    if !term.Ret? && steps > 0 {
      var n := Next(term, At(c, run, path, Len(c, b)), run.args);
      assert n in Succs(term);
      ExtendPath(c, run, path, b, n);
      NextMatches(c, run, s, hist, g, t', path, b, n);
      RunAgrees(c, run, s, hist, g, Enter(g, run.args, b, n, t'), path + [n], n, steps - 1);
    }
  }

  lemma WorldAgrees(c: Ctx, run: Setting, s: Pass, t: State, path: seq<nat>, k: nat)
    requires IsPath(c.f, path) && k <= Len(c, path[|path| - 1])
    requires Matches(c, run, s, t, path, k)
    ensures t.world == At(c, run, path, k).world
  {
  }

  lemma NextMatches(c: Ctx, run: Setting, s: Pass, hist: History, g: Func, t: State, path: seq<nat>, b: nat, n: nat)
    requires c.machines(run.m)
    requires IsResult(c, s, hist, g) && PathTo(c.f, path, b) && Matches(c, run, s, t, path, Len(c, b))
    requires PathTo(c.f, path + [n], n) && (path + [n])[..|path|] == path
    ensures Matches(c, run, s, Enter(g, run.args, b, n, t), path + [n], 0)
  {
    hide At, WellFormed, HistOk, DefOk, PhisOk, PendingsOk, BlocksOk, SealsOk, Matches, ResultBlock, Complete;
    EdgeMatches(c, run, s, g, t, path + [n], n);
  }

  /** The outcome of running f for some number of steps. */
  ghost function OutcomeOf(f: Func, P: set<nat>, run: Setting, steps: nat): Outcome
    requires ValidTargets(f) && |f.blocks| > 0
  {
    Run(run.m, run.args, P, f, 0, Start(run.w0), steps)
  }

  /** The claim is for every machine there is. */
  ghost predicate AllMachines(c: Ctx) {
    forall m: Machine :: c.machines(m)
  }

  /** The main result: for every machine, all arguments, every world and every number of
      steps, running the result and running the original give the same outcome. */
  lemma PromotionPreservesRuns(c: Ctx, s: Pass, hist: History, g: Func)
    requires IsResult(c, s, hist, g) && AllMachines(c)
    ensures ValidTargets(g) && ValidTargets(c.f) && |g.blocks| == |c.f.blocks| > 0
    ensures forall run: Setting, steps: nat :: OutcomeOf(g, c.P, run, steps) == OutcomeOf(c.f, c.P, run, steps)
  {
    ResultTargets(c, s, hist, g);
    forall run: Setting, steps: nat
      ensures OutcomeOf(g, c.P, run, steps) == OutcomeOf(c.f, c.P, run, steps)
    {
      RunFromStart(c, run, s, hist, g, steps);
    }
  }

  lemma RunFromStart(c: Ctx, run: Setting, s: Pass, hist: History, g: Func, steps: nat)
    requires c.machines(run.m)
    requires IsResult(c, s, hist, g)
    ensures ValidTargets(g) && ValidTargets(c.f) && |g.blocks| == |c.f.blocks| > 0
    ensures Run(run.m, run.args, c.P, g, 0, Start(run.w0), steps) ==
              Run(run.m, run.args, c.P, c.f, 0, Start(run.w0), steps)
  {
    ResultTargets(c, s, hist, g);
    StartMatches(c, run, s);
    assert At(c, run, [0], 0) == Start(run.w0);
    hide At, IsResult, Run, Matches;
    RunAgrees(c, run, s, hist, g, Start(run.w0), [0], 0, steps);
  }

  // ---------------------------------------------------------------- dead allocas

  /** The only remaining users of the alloca are stores. */
  predicate OnlyStoreUses(blocks: seq<Block>, phis: map<Value, Phi>, a: nat) {
    && (forall b, k :: 0 <= b < |blocks| && 0 <= k < |blocks[b].body| ==> UsedBy(blocks[b].body[k], Instr(a)) ==>
      blocks[b].body[k].Store?)
    && (forall b :: 0 <= b < |blocks| ==> !UsedByTerm(blocks[b].term, Instr(a)))
    && (forall v :: v in phis ==> !UsesIn(phis[v].ops, Instr(a)))
  }

  function StripBlocks(D: set<nat>, blocks: seq<Block>): (r: seq<Block>)
    ensures |r| == |blocks|
  {
    seq(|blocks|, b requires 0 <= b < |blocks| => blocks[b].(body := Strip(D, blocks[b].body)))
  }

  /** The blocks after the allocas in D are gone. */
  ghost predicate StrippedTo(c: Ctx, hist: History, D: set<nat>, blocks: seq<Block>) {
    |blocks| == |c.f.blocks| &&
    forall b :: 0 <= b < |blocks| ==> StrippedBlock(c, hist, D, blocks, b)
  }

  ghost predicate StrippedBlock(c: Ctx, hist: History, D: set<nat>, blocks: seq<Block>, b: nat)
    requires b < |blocks| && b < |c.f.blocks|
  {
    blocks[b] == Block(Strip(D, Rewrite(hist, c.f.blocks[b].body)), ChaseTerm(hist, c.f.blocks[b].term))
  }

  lemma StripMore(c: Ctx, hist: History, D: set<nat>, blocks: seq<Block>, a: nat)
    requires StrippedTo(c, hist, D, blocks)
    ensures StrippedTo(c, hist, D + {a}, StripBlocks({a}, blocks))
  {
    forall b | 0 <= b < |blocks|
      ensures StrippedBlock(c, hist, D + {a}, StripBlocks({a}, blocks), b)
    {
      assert StrippedBlock(c, hist, D, blocks, b);
      StripTwice(D, {a}, Rewrite(hist, c.f.blocks[b].body));
    }
  }

  lemma {:induction false} StripFrom(D: set<nat>, body: seq<Instruction>, i: Instruction)
    requires i in Strip(D, body)
    ensures i in body && !IsDead(D, i)
  {
    var last := body[|body| - 1];
    if i in Strip(D, body[..|body| - 1]) {
      StripFrom(D, body[..|body| - 1], i);
    }
  }

  lemma {:induction false} RewriteFrom(hist: History, body: seq<Instruction>, i: Instruction) returns (k: nat)
    requires i in Rewrite(hist, body)
    ensures k < |body| && !Gone(hist, body[k]) && i == ChaseInstr(hist, body[k])
  {
    if i in Rewrite(hist, body[..|body| - 1]) {
      k := RewriteFrom(hist, body[..|body| - 1], i);
    } else {
      k := |body| - 1;
    }
  }

  /** A renamed instruction uses a promoted alloca only by storing to it. */
  lemma SlotUsers(c: Ctx, s: Pass, hist: History, b: nat, k: nat, a: nat)
    requires Finished(c, s, hist) && b < |c.f.blocks| && k < Len(c, b) && a in c.P
    requires !Gone(hist, c.f.blocks[b].body[k])
    ensures var i' := ChaseInstr(hist, c.f.blocks[b].body[k]);
            (UsedBy(i', Instr(a)) ==> i'.Store?) && !(i'.Load? && IsSlot(i'.addr, c.P))
  {
    hide DefOk, PhisOk, PendingsOk, BlocksOk, SealsOk, GoodEdges, GoodUses, GoodPhis, HistMap, HistLinks, LoadsGone;
    var cur := Cursor(|c.f.blocks|, 0);
    var i := c.f.blocks[b].body[k];
    GoneIffSlotLoad(c, s, cur, hist, b, k);
    ChaseInstrShape(hist, i);
    assert Promotable(c.f, a);
    assert SlotUse(i, Instr(a));
    hide GoodDefs, GoodSlots, Promotable, Gone;
    match i
    case Load(_, addr) => ChaseSlot(c, s, cur, hist, addr);
    case Op(_, _, ops) =>
      forall j | 0 <= j < |ops|
        ensures Chase(hist, ops[j]) == Instr(a) ==> ops[j] == Instr(a)
      {
        ChaseSlot(c, s, cur, hist, ops[j]);
      }
    case _ =>
  }

  lemma SlotTermUse(c: Ctx, s: Pass, hist: History, b: nat, a: nat)
    requires Finished(c, s, hist) && b < |c.f.blocks| && a in c.P
    ensures !UsedByTerm(ChaseTerm(hist, c.f.blocks[b].term), Instr(a))
  {
    hide DefOk, PhisOk, PendingsOk, BlocksOk, SealsOk, GoodEdges, GoodUses, GoodPhis, HistMap, HistLinks, LoadsGone;
    var cur := Cursor(|c.f.blocks|, 0);
    var t := c.f.blocks[b].term;
    ChaseTermShape(hist, t);
    assert Promotable(c.f, a);
    hide GoodDefs, GoodSlots;
    match t
    case Ret(v) => ChaseSlot(c, s, cur, hist, v);
    case BranchIf(v, _, _) => ChaseSlot(c, s, cur, hist, v);
    case Branch(_) =>
  }

  lemma SlotPhiUse(c: Ctx, s: Pass, hist: History, v: Value, a: nat)
    requires Finished(c, s, hist) && a in c.P && v in s.phis
    ensures !UsesIn(s.phis[v].ops, Instr(a))
  {
    hide DefOk, HistOk, PendingsOk, BlocksOk, SealsOk, WellFormed, GoodOps, Complete;
    assert PhiOk(c, s, v);
  }

  /** When the round is over every promoted alloca is dead. */
  lemma PromotedAreDead(c: Ctx, s: Pass, hist: History, D: set<nat>, blocks: seq<Block>, a: nat)
    requires Finished(c, s, hist) && StrippedTo(c, hist, D, blocks) && a in c.P
    ensures OnlyStoreUses(blocks, s.phis, a)
  {
    hide Inv, Complete;
    forall b, k | 0 <= b < |blocks| && 0 <= k < |blocks[b].body|
      ensures UsedBy(blocks[b].body[k], Instr(a)) ==> blocks[b].body[k].Store?
    {
      assert StrippedBlock(c, hist, D, blocks, b);
      StripFrom(D, Rewrite(hist, c.f.blocks[b].body), blocks[b].body[k]);
      var j := RewriteFrom(hist, c.f.blocks[b].body, blocks[b].body[k]);
      SlotUsers(c, s, hist, b, j, a);
    }
    forall b | 0 <= b < |blocks|
      ensures !UsedByTerm(blocks[b].term, Instr(a))
    {
      assert StrippedBlock(c, hist, D, blocks, b);
      SlotTermUse(c, s, hist, b, a);
    }
    forall v | v in s.phis
      ensures !UsesIn(s.phis[v].ops, Instr(a))
    {
      SlotPhiUse(c, s, hist, v, a);
    }
  }

  /** No instruction of the result touches a promoted slot. */
  lemma NoSlotAccess(c: Ctx, s: Pass, hist: History, g: Func, b: nat, k: nat)
    requires IsResult(c, s, hist, g) && b < |g.blocks| && k < |g.blocks[b].body|
    ensures forall a :: a in c.P ==> !UsedBy(g.blocks[b].body[k], Instr(a)) && g.blocks[b].body[k] != Alloca(a)
  {
    hide Inv, Complete;
    assert ResultBlock(c, hist, g, b);
    var i := g.blocks[b].body[k];
    StripFrom(c.P, Rewrite(hist, c.f.blocks[b].body), i);
    var j := RewriteFrom(hist, c.f.blocks[b].body, i);
    forall a | a in c.P
      ensures !UsedBy(i, Instr(a)) && i != Alloca(a)
    {
      SlotUsers(c, s, hist, b, j, a);
      StoredIsNoSlot(c, s, hist, b, j);
    }
  }

  lemma StoredIsNoSlot(c: Ctx, s: Pass, hist: History, b: nat, k: nat)
    requires Finished(c, s, hist) && b < |c.f.blocks| && k < Len(c, b)
    ensures var i' := ChaseInstr(hist, c.f.blocks[b].body[k]); i'.Store? ==> !IsSlot(i'.val, c.P)
  {
    hide DefOk, PhisOk, PendingsOk, BlocksOk, SealsOk, GoodEdges, GoodUses, GoodPhis, HistMap, HistLinks, LoadsGone;
    var i := c.f.blocks[b].body[k];
    ChaseInstrShape(hist, i);
    if i.Store? {
      ChaseSlot(c, s, Cursor(|c.f.blocks|, 0), hist, i.val);
      assert IsSlot(i.val, c.P) ==> Promotable(c.f, i.val.id);
    }
  }

  lemma StartStripped(c: Ctx, s: Pass, cur: Cursor, hist: History)
    requires Inv(c, s, cur, Const(0), hist)
    ensures StrippedTo(c, hist, {}, s.blocks)
  {
    hide DefOk, PhisOk, PendingsOk, HistOk, SealsOk, WellFormed;
    forall b | 0 <= b < |s.blocks|
      ensures StrippedBlock(c, hist, {}, s.blocks, b)
    {
      assert BlockOk(c, s, hist, b);
      StripNothing(Rewrite(hist, c.f.blocks[b].body));
    }
  }
}
