/** A second round of promotion finds the flags of the first: every block counts as sealed
    and filled.  A read over a back edge then goes into a block that this round has not
    walked, and misses the store in it. */
module SsaStale {
  import opened IR
  import opened SsaPaths
  import opened SsaFacts
  import opened SsaState
  import opened SsaCorrect

  // ---------------------------------------------------------------- reads when all is sealed

  /** The tables for one slot. */
  datatype Reads = Reads(defs: map<nat, Value>, phis: map<Value, Phi>, next: nat)

  /** The value of the slot in block b, as it is read when every block is sealed: its
      definition, its only predecessor's value, or a phi of all predecessors' values.
      Trivial phis are left in. */
  function ReadSealed(preds: seq<seq<nat>>, slot: nat, r: Reads, b: nat, depth: nat): (Reads, Value)
    decreases depth, 0
  {
    if b in r.defs then (r, r.defs[b])
    else if depth == 0 || b >= |preds| then (r, Const(0))
    else if |preds[b]| == 1 && preds[b][0] != b then
      var (r', v) := ReadSealed(preds, slot, r, preds[b][0], depth - 1);
      (r'.(defs := r'.defs[b := v]), v)
    else
      var phi := NewPhi(r.next, b, slot);
      var r1 := Reads(r.defs[b := phi], r.phis[phi := Phi(b, [])], r.next + 1);
      (AddOperands(preds, slot, r1, phi, preds[b], depth - 1), phi)
  }

  function AddOperands(preds: seq<seq<nat>>, slot: nat, r: Reads, phi: Value, from: seq<nat>, depth: nat): Reads
    decreases depth, |from| + 1
  {
    if from == [] || phi !in r.phis then r
    else
      var (r1, v) := ReadSealed(preds, slot, r, from[0], depth);
      if phi !in r1.phis then r1
      else
        var r2 := r1.(phis := r1.phis[phi := r1.phis[phi].(ops := r1.phis[phi].ops + [(v, from[0])])]);
        AddOperands(preds, slot, r2, phi, from[1..], depth)
  }

  // ---------------------------------------------------------------- a loop

  const HEADER: nat := 1
  const BODY: nat := 2
  const EXIT: nat := 3
  const SLOT := Instr(0)
  const LOADED := Instr(2)

  /** A slot is zero, and a loop runs until it is not; the loop's body sets it to one. */
  function Loop(): Func {
    Func([Block([Alloca(0), Store(1, SLOT, Const(0))], Branch(HEADER)),
          Block([Load(2, SLOT)], BranchIf(LOADED, EXIT, BODY)),
          Block([Store(3, SLOT, Const(1))], Branch(HEADER)),
          Block([], Ret(LOADED))],
         map[])
  }

  function LoopPreds(): seq<seq<nat>> {
    [[], [0, BODY], [HEADER], [HEADER]]
  }

  /** What is left when the load has been replaced by zero and the slot is gone. */
  function LoopAfter(): Func {
    Func([Block([], Branch(HEADER)),
          Block([], BranchIf(Const(0), EXIT, BODY)),
          Block([], Branch(HEADER)),
          Block([], Ret(Const(0)))],
         map[])
  }

  function LoopPhi(): Value {
    NewPhi(0, HEADER, 0)
  }

  /** The walk is at the load, with one definition, the entry's.  The operand for the back
      edge is read from the body, which has none yet, and is the phi itself; so the phi is
      trivial, and zero replaces it. */
  lemma BodyIsMissed()
    ensures var (r, v) := ReadSealed(LoopPreds(), 0, Reads(map[0 := Const(0)], map[], 0), HEADER, 3);
            && v == LoopPhi() && r.phis == map[LoopPhi() := Phi(HEADER, [(Const(0), 0), (LoopPhi(), BODY)])]
            && TrivialValue(LoopPhi(), r.phis[LoopPhi()].ops, Const(0))
  {
    var preds, phi := LoopPreds(), LoopPhi();
    var r0 := Reads(map[0 := Const(0)], map[], 0);
    var r1 := Reads(r0.defs[HEADER := phi], map[phi := Phi(HEADER, [])], 1);
    assert ReadSealed(preds, 0, r1, 0, 2) == (r1, Const(0));
    var r2 := r1.(phis := map[phi := Phi(HEADER, [(Const(0), 0)])]);
    assert [] + [(Const(0), 0 as nat)] == [(Const(0), 0 as nat)];
    assert r1.phis[phi].(ops := r1.phis[phi].ops + [(Const(0), 0)]) == r2.phis[phi];
    assert r1.phis[phi := r2.phis[phi]] == r2.phis;
    assert ReadSealed(preds, 0, r2, HEADER, 1) == (r2, phi);
    var r3 := r2.(defs := r2.defs[BODY := phi]);
    assert ReadSealed(preds, 0, r2, BODY, 2) == (r3, phi);
    var r4 := r3.(phis := map[phi := Phi(HEADER, [(Const(0), 0), (phi, BODY)])]);
    assert r3.phis[phi].(ops := r3.phis[phi].ops + [(phi, BODY)]) == r4.phis[phi];
    assert r3.phis[phi := r4.phis[phi]] == r4.phis;
    assert AddOperands(preds, 0, r4, phi, [], 2) == r4;
    assert [0, BODY][1..] == [BODY] && [BODY][1..] == [];
    assert AddOperands(preds, 0, r2, phi, [BODY], 2) == r4;
    assert AddOperands(preds, 0, r1, phi, preds[HEADER], 2) == r4;
    assert r0.phis[phi := Phi(HEADER, [])] == r1.phis;
    assert ReadSealed(preds, 0, r0, HEADER, 3) == (r4, phi);
    assert r4.phis[phi].ops[0].0 == Const(0);
  }

  /** Phi and load replaced by zero, dead stores and alloca removed: the result. */
  lemma AfterIsResult(b: nat)
    requires b < 4
    ensures var hist := [(LoopPhi(), Const(0)), (LOADED, Const(0))];
            LoopAfter().blocks[b] == Block(Strip({0}, Rewrite(hist, Loop().blocks[b].body)),
              ChaseTerm(hist, Loop().blocks[b].term))
  {
    var hist := [(LoopPhi(), Const(0)), (LOADED, Const(0))];
    assert hist[..1][..0] == [];
    assert ChaseTerm(hist[..1], Loop().blocks[b].term) == SubstTerm(LoopPhi(), Const(0), Loop().blocks[b].term);
    forall i: Instruction
      ensures ChaseInstr(hist, i) == SubstInstr(LOADED, Const(0), SubstInstr(LoopPhi(), Const(0), i))
    {
      assert ChaseInstr(hist[..1][..0], i) == i;
    }
    var body := Loop().blocks[b].body;
    assert hist[1].0 == LOADED;
    RewriteSmall(hist, body);
  }

  lemma RewriteSmall(hist: History, body: seq<Instruction>)
    requires |body| <= 2
    requires forall i :: i in body ==> Gone(hist, i) || IsDead({0}, ChaseInstr(hist, i))
    ensures Strip({0}, Rewrite(hist, body)) == []
  {
    if body != [] {
      StripStep({0}, hist, body, |body|);
      assert body[..|body|] == body;
      RewriteSmaller(hist, body[..|body| - 1]);
    }
  }

  lemma RewriteSmaller(hist: History, body: seq<Instruction>)
    requires |body| <= 1
    requires forall i :: i in body ==> Gone(hist, i) || IsDead({0}, ChaseInstr(hist, i))
    ensures Strip({0}, Rewrite(hist, body)) == []
  {
    if body != [] {
      StripStep({0}, hist, body, 1);
      assert body[..1] == body && body[..0] == [];
    }
  }

  // ---------------------------------------------------------------- a run that changes

  /** Whatever the machine: the loop ends after its second test, with one; what is left of
      it never does. */
  lemma RunChanges(run: Setting)
    ensures ValidTargets(Loop()) && ValidTargets(LoopAfter())
    ensures OutcomeOf(Loop(), {0}, run, 5) == Returned(1, run.w0)
    ensures forall steps: nat :: OutcomeOf(LoopAfter(), {0}, run, steps).Running?
  {
    assert ValidTargets(Loop()) && ValidTargets(LoopAfter());
    LoopReturns(run);
    LoopGoesOn(run);
  }

  function Body(b: nat): seq<Instruction>
    requires b < 4
  {
    Loop().blocks[b].body
  }

  lemma ExecOne(run: Setting, i: Instruction, s: State)
    ensures ExecBody(run.m, run.args, {0}, [i], s) == ExecInstr(run.m, run.args, {0}, i, s)
  {
    assert [i][..0] == [];
    assert ExecBody(run.m, run.args, {0}, [i][..0], s) == s;
  }

  lemma ExecTwo(run: Setting, i: Instruction, j: Instruction, s: State)
    ensures ExecBody(run.m, run.args, {0}, [i, j], s) ==
            ExecInstr(run.m, run.args, {0}, j, ExecInstr(run.m, run.args, {0}, i, s))
  {
    assert [i, j][..1] == [i];
    ExecOne(run, i, s);
  }

  lemma NoPhis(run: Setting, p: nat, b: nat, s: State)
    ensures Enter(Loop(), run.args, p, b, s) == s
  {
    assert Enter(Loop(), run.args, p, b, s).env == s.env;
  }

  lemma LoopReturns(run: Setting)
    requires ValidTargets(Loop())
    ensures OutcomeOf(Loop(), {0}, run, 5) == Returned(1, run.w0)
  {
    hide ExecBody, Enter;
    var f, s0 := Loop(), Start(run.w0);
    ExecTwo(run, Alloca(0), Store(1, SLOT, Const(0)), s0);
    var s1 := ExecBody(run.m, run.args, {0}, Body(0), s0);
    assert s1.slots == map[0 := 0] && s1.world == run.w0;
    NoPhis(run, 0, HEADER, s1);
    ExecOne(run, Load(2, SLOT), s1);
    var s2 := ExecBody(run.m, run.args, {0}, Body(HEADER), s1);
    assert s2.env[LOADED] == 0;
    NoPhis(run, HEADER, BODY, s2);
    ExecOne(run, Store(3, SLOT, Const(1)), s2);
    var s3 := ExecBody(run.m, run.args, {0}, Body(BODY), s2);
    assert s3.slots == map[0 := 1];
    NoPhis(run, BODY, HEADER, s3);
    ExecOne(run, Load(2, SLOT), s3);
    var s4 := ExecBody(run.m, run.args, {0}, Body(HEADER), s3);
    assert s4.env[LOADED] == 1 && s4.world == run.w0;
    NoPhis(run, HEADER, EXIT, s4);
    ExecNone(run, s4);
    assert Run(run.m, run.args, {0}, f, EXIT, s4, 1) == Returned(1, run.w0);
    assert Run(run.m, run.args, {0}, f, HEADER, s3, 2) == Returned(1, run.w0);
    assert Run(run.m, run.args, {0}, f, BODY, s2, 3) == Returned(1, run.w0);
    assert Run(run.m, run.args, {0}, f, HEADER, s1, 4) == Returned(1, run.w0);
  }

  lemma ExecNone(run: Setting, s: State)
    ensures ExecBody(run.m, run.args, {0}, [], s) == s
  {
  }

  /** Without the load the loop has no way out, however long it runs. */
  lemma {:induction false} NeverLeaves(run: Setting, b: nat, s: State, steps: nat)
    requires ValidTargets(LoopAfter()) && b < EXIT
    ensures Run(run.m, run.args, {0}, LoopAfter(), b, s, steps).Running?
    decreases steps
  {
    if steps > 0 {
      ExecNone(run, s);
      var n := Next(LoopAfter().blocks[b].term, s, run.args);
      assert n < EXIT;
      NeverLeaves(run, n, Enter(LoopAfter(), run.args, b, n, s), steps - 1);
    }
  }

  lemma LoopGoesOn(run: Setting)
    requires ValidTargets(LoopAfter())
    ensures forall steps: nat :: OutcomeOf(LoopAfter(), {0}, run, steps).Running?
  {
    forall steps: nat
      ensures OutcomeOf(LoopAfter(), {0}, run, steps).Running?
    {
      NeverLeaves(run, 0, Start(run.w0), steps);
    }
  }
}
