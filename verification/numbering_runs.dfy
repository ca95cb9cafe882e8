/** Value numbering preserves meaning: a function whose dropped instructions and phis are
    gone and whose operands are renamed runs like the function it came from. */
module NumberingRuns {
  import opened IR
  import opened Cfg
  import opened SsaPaths
  import opened SsaFacts
  import opened ValueNumbering
  import SsaCorrect

  // ---------------------------------------------------------------- the result

  /** The instruction has a result that is replaced by an earlier one. */
  predicate Dropped(ren: Renaming, i: Instruction) {
    !i.Store? && Instr(i.id) in ren
  }

  /** A block body without what is dropped, operands renamed. */
  function NumBody(ren: Renaming, body: seq<Instruction>): seq<Instruction> {
    if body == [] then []
    else
      var last := body[|body| - 1];
      NumBody(ren, body[..|body| - 1]) + if Dropped(ren, last) then [] else [RenInstr(ren, last)]
  }

  function NumBlock(ren: Renaming, block: Block): Block {
    Block(NumBody(ren, block.body), RenTerm(ren, block.term))
  }

  function NumBlocks(ren: Renaming, blocks: seq<Block>): (r: seq<Block>)
    ensures |r| == |blocks|
  {
    seq(|blocks|, b requires 0 <= b < |blocks| => NumBlock(ren, blocks[b]))
  }

  function NumPhis(ren: Renaming, phis: map<Value, Phi>): map<Value, Phi> {
    map v | v in phis && v !in ren :: Phi(phis[v].block, RenOps(ren, phis[v].ops))
  }

  function NumFunc(ren: Renaming, f: Func): Func {
    Func(NumBlocks(ren, f.blocks), NumPhis(ren, f.phis))
  }

  /** An instruction without effect besides its result. */
  predicate Silent(o: Opcodes, i: Instruction) {
    i.Load? || (i.Op? && i.code.Other? && i.code.n in o.numbered)
  }

  ghost predicate DropsSilent(c: Ctx, o: Opcodes, ren: Renaming) {
    forall b, k :: 0 <= b < |c.f.blocks| && 0 <= k < |c.f.blocks[b].body| && Dropped(ren, c.f.blocks[b].body[k]) ==>
      Silent(o, c.f.blocks[b].body[k])
  }

  /** What numbering has to know about the values it drops. */
  ghost predicate NumOk(c: Ctx, o: Opcodes, ren: Renaming) {
    WellFormed(c) && Suits(c, o) && RenOk(c, ren) && DropsSilent(c, o, ren)
  }

  // ---------------------------------------------------------------- agreement

  /** Values that stay and have been computed are what they were. */
  ghost predicate Agrees(c: Ctx, run: Setting, ren: Renaming, env: map<Value, int>, path: seq<nat>, k: nat)
    requires IsPath(c.f, path) && k <= Len(c, path[|path| - 1])
  {
    forall v :: v !in ren && !v.NewPhi? && Avail(c, v, path, k) ==> Eval(v, env, run.args) == Sem(c, run, v, path, k)
  }

  ghost predicate Matches(c: Ctx, run: Setting, ren: Renaming, t: State, path: seq<nat>, k: nat)
    requires IsPath(c.f, path) && k <= Len(c, path[|path| - 1])
  {
    t.world == At(c, run, path, k).world && Agrees(c, run, ren, t.env, path, k)
  }

  lemma RenStays(c: Ctx, ren: Renaming, u: Value)
    requires RenOk(c, ren) && !u.NewPhi?
    ensures Ren(ren, u) !in ren && !Ren(ren, u).NewPhi?
  {
    hide MayReplace;
  }

  /** A renamed operand evaluates to what the operand did. */
  lemma OperandMatches(c: Ctx, run: Setting, o: Opcodes, ren: Renaming, env: map<Value, int>, u: Value,
                       path: seq<nat>, b: nat, k: nat)
    requires NumOk(c, o, ren) && c.machines(run.m)
    requires PathTo(c.f, path, b) && k <= Len(c, b) && Agrees(c, run, ren, env, path, k)
    requires AlwaysAvail(c, u, b, k) && !u.NewPhi?
    ensures Eval(Ren(ren, u), env, run.args) == Sem(c, run, u, path, k) == Eval(u, At(c, run, path, k).env, run.args)
  {
    hide GoodEdges, GoodDefs, GoodPhis, GoodUses, GoodSlots, Suits, RenOk, DropsSilent, Sem, At, AlwaysAvail, Avail,
      Ren;
    RenSem(c, run, ren, u, path, b, k);
    OwnSem(c, run, u, path, k);
    RenStays(c, ren, u);
  }

  // ---------------------------------------------------------------- one instruction

  lemma UsesMatch(c: Ctx, run: Setting, o: Opcodes, ren: Renaming, t: State, path: seq<nat>, b: nat, k: nat)
    requires NumOk(c, o, ren) && c.machines(run.m)
    requires PathTo(c.f, path, b) && k < Len(c, b) && Matches(c, run, ren, t, path, k)
    ensures forall u :: UsedBy(c.f.blocks[b].body[k], u) ==>
              Eval(Ren(ren, u), t.env, run.args) == Eval(u, At(c, run, path, k).env, run.args)
  {
    hide GoodEdges, GoodDefs, GoodPhis, GoodUses, GoodSlots, Suits, RenOk, DropsSilent, Sem, At, AlwaysAvail, Ren,
      Agrees, UsedBy;
    forall u | UsedBy(c.f.blocks[b].body[k], u)
      ensures Eval(Ren(ren, u), t.env, run.args) == Eval(u, At(c, run, path, k).env, run.args)
    {
      InstrUse(c, b, k, u);
      OperandMatches(c, run, o, ren, t.env, u, path, b, k);
    }
  }

  /** With renamed operands of the same values an instruction does the same. */
  lemma SameEffect(m: Machine, args: seq<int>, ren: Renaming, i: Instruction, s: State, t: State)
    requires s.world == t.world
    requires forall u :: UsedBy(i, u) ==> Eval(Ren(ren, u), t.env, args) == Eval(u, s.env, args)
    ensures var s', t' := ExecInstr(m, args, {}, i, s), ExecInstr(m, args, {}, RenInstr(ren, i), t);
            t'.world == s'.world &&
            (i.Store? ==> t'.env == t.env) &&
            (!i.Store? ==> Instr(i.id) in s'.env && t'.env == t.env[Instr(i.id) := s'.env[Instr(i.id)]])
  {
    hide Eval, Ren;
    match i
    case Op(id, code, ops) =>
      assert EvalAll(ops, s.env, args) == EvalAll(RenInstr(ren, i).args, t.env, args);
    case Load(_, addr) => assert UsedBy(i, addr);
    case Store(_, addr, val) => assert UsedBy(i, addr) && UsedBy(i, val);
    case Alloca(_) =>
  }

  lemma SilentStep(m: Machine, args: seq<int>, o: Opcodes, i: Instruction, s: State)
    requires WellBehaved(m, o) && Silent(o, i)
    ensures ExecInstr(m, args, {}, i, s).world == s.world
  {
  }

  /** An instruction is dropped without being missed, or it does the same. */
  lemma StepMatches(c: Ctx, run: Setting, o: Opcodes, ren: Renaming, t: State, path: seq<nat>, b: nat, k: nat)
    requires NumOk(c, o, ren) && c.machines(run.m)
    requires PathTo(c.f, path, b) && k < Len(c, b) && Matches(c, run, ren, t, path, k)
    ensures var i := c.f.blocks[b].body[k];
            var t' := if Dropped(ren, i) then t else ExecInstr(run.m, run.args, {}, RenInstr(ren, i), t);
            Matches(c, run, ren, t', path, k + 1)
  {
    hide GoodEdges, GoodPhis, GoodUses, GoodSlots, WellBehaved, RenOk, Sem, At, ExecInstr, RenInstr, Silent, Avail, Ren;
    var i := c.f.blocks[b].body[k];
    var s, k' := At(c, run, path, k), k + 1;
    var t' := if Dropped(ren, i) then t else ExecInstr(run.m, run.args, {}, RenInstr(ren, i), t);
    NextState(c, run, path, b, k);
    if Dropped(ren, i) {
      SilentStep(run.m, run.args, o, i, s);
    } else {
      UsesMatch(c, run, o, ren, t, path, b, k);
      SameEffect(run.m, run.args, ren, i, s, t);
    }
    forall v | v !in ren && !v.NewPhi? && Avail(c, v, path, k')
      ensures Eval(v, t'.env, run.args) == Sem(c, run, v, path, k')
    {
      if Defines(i, v) {
        OwnSem(c, run, v, path, k');
      } else {
        SsaCorrect.SemFrame(c, run, v, path, b, k);
      }
    }
  }

  lemma NumStep(ren: Renaming, body: seq<Instruction>, k: nat)
    requires 0 < k <= |body|
    ensures var prev := NumBody(ren, body[..k - 1]);
            NumBody(ren, body[..k]) == if Dropped(ren, body[k - 1]) then prev else prev + [RenInstr(ren, body[k - 1])]
  {
    assert body[..k][..k - 1] == body[..k - 1];
  }

  /** The straight-line part of a block. */
  lemma {:induction false} BodyMatches(c: Ctx, run: Setting, o: Opcodes, ren: Renaming, t: State, path: seq<nat>,
                                       b: nat, k: nat)
    requires NumOk(c, o, ren) && c.machines(run.m)
    requires PathTo(c.f, path, b) && k <= Len(c, b) && Matches(c, run, ren, t, path, 0)
    ensures Matches(c, run, ren, ExecBody(run.m, run.args, {}, NumBody(ren, c.f.blocks[b].body[..k]), t), path, k)
    decreases k
  {
    hide NumOk, Matches, ExecInstr, NumBody, RenInstr, Dropped;
    var body := c.f.blocks[b].body;
    if k > 0 {
      BodyMatches(c, run, o, ren, t, path, b, k - 1);
      var prev := NumBody(ren, body[..k - 1]);
      StepMatches(c, run, o, ren, ExecBody(run.m, run.args, {}, prev, t), path, b, k - 1);
      NumStep(ren, body, k);
      assert (prev + [RenInstr(ren, body[k - 1])])[..|prev|] == prev;
    } else {
      NumEmpty(ren, body[..0]);
    }
  }

  lemma NumEmpty(ren: Renaming, body: seq<Instruction>)
    requires body == []
    ensures NumBody(ren, body) == []
  {
  }

  // ---------------------------------------------------------------- edges

  /** A phi that stays gets what it got, over every edge. */
  lemma PhiMatches(c: Ctx, run: Setting, o: Opcodes, ren: Renaming, env: map<Value, int>, v: Value, path: seq<nat>,
                   b: nat)
    requires NumOk(c, o, ren) && c.machines(run.m)
    requires PathTo(c.f, path, b) && |path| > 1 && IsPath(c.f, path[..|path| - 1])
    requires Agrees(c, run, ren, env, path[..|path| - 1], Len(c, path[|path| - 2]))
    requires v in c.f.phis && c.f.phis[v].block == b
    ensures Eval(Incoming(RenOps(ren, c.f.phis[v].ops), path[|path| - 2]), env, run.args) == Sem(c, run, v, path, 0)
  {
    hide GoodEdges, GoodDefs, GoodUses, GoodPhis, GoodSlots, Suits, RenOk, DropsSilent, Sem, At, AlwaysAvail,
      Incoming, Agrees, Ren;
    PathHasPred(c, path, b);
    var p, front := path[|path| - 2], path[..|path| - 1];
    var ops := c.f.phis[v].ops;
    PhiName(c, v);
    OwnPhiAtEdge(c, run, v, path);
    NoConst(c, ren);
    IncomingRen(ren, ops, p);
    PhiUse(c, v, p);
    OperandMatches(c, run, o, ren, env, Incoming(ops, p), front, p, Len(c, p));
  }

  lemma OtherAvail(c: Ctx, v: Value, path: seq<nat>, b: nat)
    requires GoodDefs(c) && PathTo(c.f, path, b) && |path| > 1 && Avail(c, v, path, 0) && !v.NewPhi?
    requires v in c.f.phis ==> c.f.phis[v].block != b
    ensures Avail(c, v, path[..|path| - 1], Len(c, path[|path| - 2]))
  {
    if !v.Const? && !v.Arg? {
      var i :| DefinedAt(c, v, path, 0, i);
      assert DefPlace(c.f, v, c.defs[v]);
      assert DefinedAt(c, v, path[..|path| - 1], Len(c, path[|path| - 2]), i);
    }
  }

  lemma EdgeMatches(c: Ctx, run: Setting, o: Opcodes, ren: Renaming, t: State, path: seq<nat>, b: nat)
    requires NumOk(c, o, ren) && c.machines(run.m)
    requires PathTo(c.f, path, b) && |path| > 1 && IsPath(c.f, path[..|path| - 1])
    requires Matches(c, run, ren, t, path[..|path| - 1], Len(c, path[|path| - 2]))
    ensures Matches(c, run, ren, Enter(NumFunc(ren, c.f), run.args, path[|path| - 2], b, t), path, 0)
  {
    hide GoodEdges, GoodDefs, GoodUses, GoodPhis, GoodSlots, Suits, RenOk, DropsSilent, Sem, At, Incoming, Avail,
      Agrees;
    var p, front, g := path[|path| - 2], path[..|path| - 1], NumFunc(ren, c.f);
    var t' := Enter(g, run.args, p, b, t);
    AtEdge(c, run, path);
    forall v | v !in ren && !v.NewPhi? && Avail(c, v, path, 0)
      ensures Eval(v, t'.env, run.args) == Sem(c, run, v, path, 0)
    {
      if v in c.f.phis && c.f.phis[v].block == b {
        PhiName(c, v);
        PhiMatches(c, run, o, ren, t.env, v, path, b);
      } else {
        OtherAvail(c, v, path, b);
        SsaCorrect.OtherAtEdge(c, run, v, path, b);
        EnterFrame(g, run.args, p, b, t, v);
        AgreesAt(c, run, ren, t.env, v, front, Len(c, p));
      }
    }
    AgreesIf(c, run, ren, t'.env, path, 0);
  }

  lemma AgreesAt(c: Ctx, run: Setting, ren: Renaming, env: map<Value, int>, v: Value, path: seq<nat>, k: nat)
    requires IsPath(c.f, path) && k <= Len(c, path[|path| - 1]) && Agrees(c, run, ren, env, path, k)
    requires v !in ren && !v.NewPhi? && Avail(c, v, path, k)
    ensures Eval(v, env, run.args) == Sem(c, run, v, path, k)
  {
  }

  lemma AgreesIf(c: Ctx, run: Setting, ren: Renaming, env: map<Value, int>, path: seq<nat>, k: nat)
    requires IsPath(c.f, path) && k <= Len(c, path[|path| - 1])
    requires forall v :: v !in ren && !v.NewPhi? && Avail(c, v, path, k) ==>
               Eval(v, env, run.args) == Sem(c, run, v, path, k)
    ensures Agrees(c, run, ren, env, path, k)
  {
  }

  lemma StartMatches(c: Ctx, run: Setting, ren: Renaming)
    requires |c.f.blocks| > 0
    ensures IsPath(c.f, [0]) && At(c, run, [0], 0) == Start(run.w0) && Matches(c, run, ren, Start(run.w0), [0], 0)
  {
    assert IsPath(c.f, [0]);
  }

  // ---------------------------------------------------------------- whole runs

  /** Both functions leave a block in the same way. */
  lemma TermMatches(c: Ctx, run: Setting, o: Opcodes, ren: Renaming, t: State, path: seq<nat>, b: nat)
    requires NumOk(c, o, ren) && c.machines(run.m)
    requires PathTo(c.f, path, b) && Matches(c, run, ren, t, path, Len(c, b))
    ensures var s := At(c, run, path, Len(c, b)); var term := c.f.blocks[b].term; var term' := RenTerm(ren, term);
            && (term.Ret? <==> term'.Ret?)
            && (term.Ret? ==> Eval(term'.val, t.env, run.args) == Eval(term.val, s.env, run.args))
            && (!term.Ret? ==> Next(term', t, run.args) == Next(term, s, run.args))
  {
    hide GoodEdges, GoodDefs, GoodPhis, GoodUses, GoodSlots, Suits, RenOk, DropsSilent, Sem, At, AlwaysAvail, Agrees,
      Ren, Eval;
    forall u | UsedByTerm(c.f.blocks[b].term, u)
      ensures Eval(Ren(ren, u), t.env, run.args) == Eval(u, At(c, run, path, Len(c, b)).env, run.args)
    {
      TermUse(c, b, u);
      OperandMatches(c, run, o, ren, t.env, u, path, b, Len(c, b));
    }
  }

  lemma TermUse(c: Ctx, b: nat, u: Value)
    requires GoodUses(c) && b < |c.f.blocks| && UsedByTerm(c.f.blocks[b].term, u)
    ensures AlwaysAvail(c, u, b, Len(c, b)) && !u.NewPhi?
  {
    assert GoodUse(c, u, b, |c.f.blocks[b].body|);
  }

  lemma NumTargets(c: Ctx, ren: Renaming)
    requires GoodEdges(c)
    ensures ValidTargets(c.f) && ValidTargets(NumFunc(ren, c.f)) && |c.f.blocks| > 0
  {
    var g := NumFunc(ren, c.f);
    forall b, t | 0 <= b < |g.blocks| && t in Succs(g.blocks[b].term)
      ensures t < |g.blocks|
    {
      assert Succs(g.blocks[b].term) == Succs(c.f.blocks[b].term);
    }
  }

  lemma WorldMatches(c: Ctx, run: Setting, ren: Renaming, t: State, path: seq<nat>, k: nat)
    requires IsPath(c.f, path) && k <= Len(c, path[|path| - 1]) && Matches(c, run, ren, t, path, k)
    ensures t.world == At(c, run, path, k).world
  {
  }

  lemma BlockMatches(c: Ctx, run: Setting, o: Opcodes, ren: Renaming, t: State, path: seq<nat>, b: nat)
    requires NumOk(c, o, ren) && c.machines(run.m)
    requires PathTo(c.f, path, b) && Matches(c, run, ren, t, path, 0)
    ensures ExecBody(run.m, run.args, {}, c.f.blocks[b].body, At(c, run, path, 0)) == At(c, run, path, Len(c, b))
    ensures Matches(c, run, ren, ExecBody(run.m, run.args, {}, NumFunc(ren, c.f).blocks[b].body, t), path, Len(c, b))
  {
    hide At, GoodEdges, GoodDefs, GoodPhis, GoodUses, GoodSlots, RenOk, DropsSilent, Matches, ExecBody, NumBody;
    var body := c.f.blocks[b].body;
    assert body[..Len(c, b)] == body;
    SsaCorrect.ExecBodyAt(c, run, path, b, Len(c, b));
    BodyMatches(c, run, o, ren, t, path, b, Len(c, b));
  }

  lemma {:induction false} RunMatches(c: Ctx, run: Setting, o: Opcodes, ren: Renaming, t: State, path: seq<nat>,
                                      b: nat, steps: nat)
    requires NumOk(c, o, ren) && c.machines(run.m)
    requires ValidTargets(c.f) && ValidTargets(NumFunc(ren, c.f))
    requires PathTo(c.f, path, b) && Matches(c, run, ren, t, path, 0)
    ensures Run(run.m, run.args, {}, NumFunc(ren, c.f), b, t, steps) ==
              Run(run.m, run.args, {}, c.f, b, At(c, run, path, 0), steps)
    decreases steps
  {
    hide At, NumOk, Matches, ExecBody, NumBody, Enter, ValidTargets, Next;
    var g := NumFunc(ren, c.f);
    BlockMatches(c, run, o, ren, t, path, b);
    var t' := ExecBody(run.m, run.args, {}, g.blocks[b].body, t);
    var term := c.f.blocks[b].term;
    WorldMatches(c, run, ren, t', path, Len(c, b));
    TermMatches(c, run, o, ren, t', path, b);
    if !term.Ret? && steps > 0 {
      var n := Next(term, At(c, run, path, Len(c, b)), run.args);
      NextIsSucc(term, At(c, run, path, Len(c, b)), run.args);
      SsaCorrect.ExtendPath(c, run, path, b, n);
      EdgeMatches(c, run, o, ren, t', path + [n], n);
      RunMatches(c, run, o, ren, Enter(g, run.args, b, n, t'), path + [n], n, steps - 1);
    }
  }

  lemma NextIsSucc(term: Terminator, s: State, args: seq<int>)
    requires !term.Ret?
    ensures Next(term, s, args) in Succs(term)
  {
  }

  /** The main result: for every well-behaved machine, all arguments, every world and
      every number of steps, the numbered function and the original have one outcome. */
  lemma NumberingPreservesRuns(c: Ctx, o: Opcodes, ren: Renaming)
    requires NumOk(c, o, ren)
    ensures ValidTargets(c.f) && ValidTargets(NumFunc(ren, c.f)) && |c.f.blocks| > 0
    ensures forall run: Setting, steps: nat :: WellBehaved(run.m, o) ==>
              SsaCorrect.OutcomeOf(NumFunc(ren, c.f), {}, run, steps) == SsaCorrect.OutcomeOf(c.f, {}, run, steps)
  {
    NumTargets(c, ren);
    forall run: Setting, steps: nat | WellBehaved(run.m, o)
      ensures SsaCorrect.OutcomeOf(NumFunc(ren, c.f), {}, run, steps) == SsaCorrect.OutcomeOf(c.f, {}, run, steps)
    {
      assert c.machines(run.m);
      StartMatches(c, run, ren);
      hide At, NumOk, Matches, Run;
      RunMatches(c, run, o, ren, Start(run.w0), [0], 0, steps);
    }
  }
}
