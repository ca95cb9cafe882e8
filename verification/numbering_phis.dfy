/** Phis of one block that end up with the same operands although value numbering drops
    the second of two equal phis: exactly when that happens, and an input where it does. */
module NumberingPhis {
  import opened IR
  import opened SsaPaths
  import opened ValueNumbering
  import opened NumberingRuns
  import opened NumberingSteps

  /** x and y are one value once the results in `drops` are gone: they are the same, or
      one was dropped for the other, or both for a third. */
  predicate Met(drops: Renaming, x: Value, y: Value) {
    Ren(drops, x) == Ren(drops, y)
  }

  /** What is dropped between two stages of the pass. */
  function DropsSince(was: Renaming, ren: Renaming): Renaming {
    map x | x in ren && x !in was :: ren[x]
  }

  /** Later drops only concern values that stayed so far. */
  ghost predicate Later(was: Renaming, ren: Renaming) {
    && (forall x :: x in was ==> x in ren && ren[x] == was[x])
    && (forall x :: x in was ==> was[x] !in ren)
  }

  lemma RenLater(was: Renaming, ren: Renaming, v: Value)
    requires Later(was, ren)
    ensures Ren(ren, v) == Ren(DropsSince(was, ren), Ren(was, v))
  {
    if v in was {
      assert was[v] !in ren;
    }
  }

  /** Operand lists that agree in the predecessors and, at every place, in the value or in
      two values that met. */
  predicate OpsMet(drops: Renaming, a: seq<(Value, nat)>, b: seq<(Value, nat)>) {
    |a| == |b| && forall i :: 0 <= i < |a| ==> a[i].1 == b[i].1 && Met(drops, a[i].0, b[i].0)
  }

  lemma PlaceLater(was: Renaming, ren: Renaming, ops: seq<(Value, nat)>, i: nat)
    requires Later(was, ren) && i < |ops|
    ensures RenOps(ren, ops)[i] == (Ren(DropsSince(was, ren), RenOps(was, ops)[i].0), RenOps(was, ops)[i].1)
  {
    RenLater(was, ren, ops[i].0);
  }

  lemma OpsLater(was: Renaming, ren: Renaming, a: seq<(Value, nat)>, b: seq<(Value, nat)>)
    requires Later(was, ren)
    ensures RenOps(ren, a) == RenOps(ren, b) <==> OpsMet(DropsSince(was, ren), RenOps(was, a), RenOps(was, b))
  {
    hide Ren, RenOps, Later, DropsSince;
    var x, y := RenOps(ren, a), RenOps(ren, b);
    if |a| == |b| {
      forall i | 0 <= i < |a|
        ensures x[i] == y[i] <==>
                  RenOps(was, a)[i].1 == RenOps(was, b)[i].1 &&
                    Met(DropsSince(was, ren), RenOps(was, a)[i].0, RenOps(was, b)[i].0)
      {
        PlaceLater(was, ren, a, i);
        PlaceLater(was, ren, b, i);
      }
    }
    hide Met;
    if OpsMet(DropsSince(was, ren), RenOps(was, a), RenOps(was, b)) {
      assert x == y;
    }
  }

  /** Two phis that stay have the same operands after block b exactly if, at every place,
      the operands they had before it were the same or met in b. */
  lemma PhisEqualAfter(c: Ctx, was: Renaming, ren: Renaming, b: nat, v: Value, w: Value)
    requires RenOk(c, ren) && Grows(c, was, ren, b)
    requires v in NumPhis(ren, c.f.phis) && w in NumPhis(ren, c.f.phis)
    ensures v in NumPhis(was, c.f.phis) && w in NumPhis(was, c.f.phis)
    ensures NumPhis(ren, c.f.phis)[v].ops == NumPhis(ren, c.f.phis)[w].ops <==>
              OpsMet(DropsSince(was, ren), NumPhis(was, c.f.phis)[v].ops, NumPhis(was, c.f.phis)[w].ops)
  {
    hide MayReplace, RenOps, OpsMet, DropsSince;
    assert Later(was, ren);
    OpsLater(was, ren, c.f.phis[v].ops, c.f.phis[w].ops);
  }

  /** So they stay different if at some place they had different operands neither of which
      is computed in b. */
  lemma PhisStayDifferent(c: Ctx, was: Renaming, ren: Renaming, b: nat, v: Value, w: Value, i: nat)
    requires RenOk(c, ren) && Grows(c, was, ren, b)
    requires v in NumPhis(ren, c.f.phis) && w in NumPhis(ren, c.f.phis)
    requires i < |c.f.phis[v].ops| && i < |c.f.phis[w].ops|
    requires var x, y := Ren(was, c.f.phis[v].ops[i].0), Ren(was, c.f.phis[w].ops[i].0);
             x != y && (x in c.defs ==> c.defs[x].0 != b) && (y in c.defs ==> c.defs[y].0 != b)
    ensures NumPhis(ren, c.f.phis)[v].ops != NumPhis(ren, c.f.phis)[w].ops
  {
    hide MayReplace;
    var x, y := Ren(was, c.f.phis[v].ops[i].0), Ren(was, c.f.phis[w].ops[i].0);
    assert Later(was, ren);
    var drops := DropsSince(was, ren);
    assert x !in drops && y !in drops;
    assert Ren(drops, x) == x && Ren(drops, y) == y;
    assert NumPhis(was, c.f.phis)[v].ops[i].0 == x && NumPhis(was, c.f.phis)[w].ops[i].0 == y;
    hide Ren, RenOps, DropsSince;
    PhisEqualAfter(c, was, ren, b, v, w);
  }

  // ---------------------------------------------------------------- an input

  const FIRST := Instr(1)
  const SECOND := Instr(2)
  const A := Instr(3)
  const B := Instr(4)

  /** Two phis of a loop header; over the back edge come the results of the header's two
      instructions, which are the same operation. */
  function LoopPhis(): map<Value, Phi> {
    map[FIRST := Phi(1, [(Arg(0), 0), (A, 1)]), SECOND := Phi(1, [(Arg(0), 0), (B, 1)])]
  }

  function LoopBody(n: nat): seq<Instruction> {
    [Op(3, Other(n), [Arg(1)]), Op(4, Other(n), [Arg(1)])]
  }

  /** The phis have different keys when they are numbered.  Then the second instruction
      finds the key of the first, and goes; now the phis are equal, and stay. */
  lemma LoopPhisAgree(o: Opcodes, n: nat)
    requires n in o.numbered
    ensures PhisDiffer(NumPhis(map[], LoopPhis()), 1)
    ensures KeyOf(o, LoopBody(n)[0]).Some? && KeyOf(o, LoopBody(n)[0]) == KeyOf(o, LoopBody(n)[1])
    ensures !PhisDiffer(NumPhis(map[B := A], LoopPhis()), 1)
  {
    var before, after := NumPhis(map[], LoopPhis()), NumPhis(map[B := A], LoopPhis());
    assert before[FIRST].ops[1].0 == A && before[SECOND].ops[1].0 == B;
    assert after[FIRST].ops == [(Arg(0), 0), (A, 1)];
    assert after[SECOND].ops == [(Arg(0), 0), (A, 1)];
  }
}
