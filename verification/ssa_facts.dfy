/** How soundness facts move: down a block, across an edge, through stores, loads and
    phis, and why a phi all of whose operands are one value may be replaced by it. */
module SsaFacts {
  import opened IR
  import opened Cfg
  import opened SsaPaths
  import opened SsaReplace

  // ---------------------------------------------------------------- steps and edges

  lemma StepSem(c: Ctx, run: Setting, v: Value, path: seq<nat>, b: nat, k: nat)
    requires GoodDefs(c) && PathTo(c.f, path, b) && k < Len(c, b)
    requires AlwaysAvail(c, v, b, k)
    ensures Sem(c, run, v, path, k + 1) == Sem(c, run, v, path, k)
  {
    assert Avail(c, v, path, k);
    if v.Const? || v.Arg? {
      SemOfLeaf(c, run, v, path, k + 1, path, k);
    } else {
      AvailBefore(c, v, b, k, path);
      var k' := k + 1;
      var i := LastDef(c, v, path, k, |path|);
      assert DefinedAt(c, v, path, k', i);
      forall j | i < j < |path|
        ensures !DefinedAt(c, v, path, k', j)
      {
        assert !DefinedAt(c, v, path, k, j);
      }
      if v.NewPhi? {
        NewPhiStable(c, run, v, path, k', i);
        NewPhiStable(c, run, v, path, k, i);
      } else {
        StepStable(c, run, v, path, k', i);
      }
    }
  }

  lemma StepAvail(c: Ctx, v: Value, path: seq<nat>, b: nat, k: nat)
    requires PathTo(c.f, path, b) && Avail(c, v, path, k)
    ensures Avail(c, v, path, k + 1)
  {
    if !v.Const? && !v.Arg? {
      var i :| DefinedAt(c, v, path, k, i);
      assert DefinedAt(c, v, path, k + 1, i);
    }
  }

  lemma EdgeAvail(c: Ctx, v: Value, path: seq<nat>)
    requires IsPath(c.f, path) && |path| > 1 && Avail(c, v, path[..|path| - 1], Len(c, path[|path| - 2]))
    ensures Avail(c, v, path, 0)
  {
    if !v.Const? && !v.Arg? {
      var i :| DefinedAt(c, v, path[..|path| - 1], Len(c, path[|path| - 2]), i);
      assert DefinedAt(c, v, path, 0, i);
    }
  }

  lemma EdgeSem(c: Ctx, run: Setting, v: Value, path: seq<nat>)
    requires GoodDefs(c) && IsPath(c.f, path) && |path| > 1
    requires IsPath(c.f, path[..|path| - 1])
    requires Avail(c, v, path[..|path| - 1], Len(c, path[|path| - 2]))
    requires HasDef(c, v) ==> DefBlock(c, v) != path[|path| - 1]
    ensures Sem(c, run, v, path, 0) == Sem(c, run, v, path[..|path| - 1], Len(c, path[|path| - 2]))
  {
    var front, e := path[..|path| - 1], Len(c, path[|path| - 2]);
    if v.Const? || v.Arg? {
      SemOfLeaf(c, run, v, path, 0, front, e);
    } else {
      var i := LastDef(c, v, front, e, |front|);
      assert DefinedAt(c, v, path, 0, i);
      forall j | i < j < |path|
        ensures !DefinedAt(c, v, path, 0, j)
      {
        if j < |front| {
          assert !DefinedAt(c, v, front, e, j);
        }
      }
      if v.NewPhi? {
        NewPhiStable(c, run, v, path, 0, i);
        NewPhiStable(c, run, v, front, e, i);
        assert path[..i + 1] == front[..i + 1];
      } else {
        EdgeStable(c, run, v, path, i);
      }
    }
  }

  lemma SlotAtEdge(c: Ctx, run: Setting, path: seq<nat>, a: nat)
    requires IsPath(c.f, path) && |path| > 1
    ensures IsPath(c.f, path[..|path| - 1])
    ensures Slot(At(c, run, path, 0).slots, a) ==
              Slot(At(c, run, path[..|path| - 1], Len(c, path[|path| - 2])).slots, a)
  {
    AtEdge(c, run, path);
  }

  predicate StoresTo(i: Instruction, a: nat) {
    i.Store? && i.addr == Instr(a)
  }

  ghost predicate NoStores(c: Ctx, b: nat, a: nat, k: nat) {
    k <= Len(c, b) && forall j :: 0 <= j < k ==> !StoresTo(c.f.blocks[b].body[j], a)
  }

  lemma SlotStep(c: Ctx, run: Setting, path: seq<nat>, b: nat, k: nat, a: nat)
    requires PathTo(c.f, path, b) && k < Len(c, b)
    requires !StoresTo(c.f.blocks[b].body[k], a)
    ensures Slot(At(c, run, path, k + 1).slots, a) == Slot(At(c, run, path, k).slots, a)
  {
  }

  lemma {:induction false} SlotUnchanged(c: Ctx, run: Setting, path: seq<nat>, b: nat, k: nat, a: nat)
    requires PathTo(c.f, path, b) && NoStores(c, b, a, k)
    ensures Slot(At(c, run, path, k).slots, a) == Slot(At(c, run, path, 0).slots, a)
  {
    hide At;
    if k > 0 {
      SlotStep(c, run, path, b, k - 1, a);
      SlotUnchanged(c, run, path, b, k - 1, a);
    }
  }

  /** One instruction further down, if it does not store to the slot. */
  lemma SoundStep(c: Ctx, v: Value, a: nat, b: nat, k: nat)
    requires GoodDefs(c) && k < Len(c, b)
    requires Sound(c, v, SlotOf(a), b, k)
    requires !StoresTo(c.f.blocks[b].body[k], a)
    ensures Sound(c, v, SlotOf(a), b, k + 1)
  {
    hide At, Sem;
    assert AlwaysAvail(c, v, b, k) by { SoundIsAvail(c, v, SlotOf(a), b, k); }
    forall path | PathTo(c.f, path, b)
      ensures SoundOn(c, v, SlotOf(a), path, k + 1)
    {
      assert SoundOn(c, v, SlotOf(a), path, k);
      StepAvail(c, v, path, b, k);
      var k' := k + 1;
      forall run: Setting | c.machines(run.m)
        ensures Sem(c, run, v, path, k') == Meaning(c, run, SlotOf(a), path, k')
      {
        StepSem(c, run, v, path, b, k);
        SlotStep(c, run, path, b, k, a);
        assert Sem(c, run, v, path, k) == Meaning(c, run, SlotOf(a), path, k);
      }
    }
  }

  lemma SoundIsAvail(c: Ctx, v: Value, t: Target, b: nat, k: nat)
    requires Sound(c, v, t, b, k)
    ensures AlwaysAvail(c, v, b, k)
  {
    hide At, Sem;
    forall path | PathTo(c.f, path, b)
      ensures Avail(c, v, path, k)
    {
      assert SoundOn(c, v, t, path, k);
    }
  }

  lemma {:induction false} SoundDown(c: Ctx, v: Value, a: nat, b: nat, k: nat)
    requires GoodDefs(c)
    requires Sound(c, v, SlotOf(a), b, 0)
    requires NoStores(c, b, a, k)
    ensures Sound(c, v, SlotOf(a), b, k)
  {
    hide At, Sem, Sound, GoodDefs;
    if k > 0 {
      SoundDown(c, v, a, b, k - 1);
      SoundStep(c, v, a, b, k - 1);
    }
  }

  // ---------------------------------------------------------------- stores and loads

  lemma SoundSelf(c: Ctx, v: Value, b: nat, k: nat)
    requires AlwaysAvail(c, v, b, k) && k <= Len(c, b)
    ensures Sound(c, v, ValueOf(v), b, k)
  {
  }

  /** After a store the slot holds the stored value. */
  lemma SoundStore(c: Ctx, v: Value, a: nat, u: Value, b: nat, k: nat)
    requires GoodDefs(c) && k < Len(c, b) && a in c.P && !u.NewPhi?
    requires c.f.blocks[b].body[k].Store? && c.f.blocks[b].body[k].addr == Instr(a) && c.f.blocks[b].body[k].val == u
    requires Sound(c, v, ValueOf(u), b, k)
    ensures Sound(c, v, SlotOf(a), b, k + 1)
  {
    hide At, Sem;
    SoundIsAvail(c, v, ValueOf(u), b, k);
    forall path | PathTo(c.f, path, b)
      ensures SoundOn(c, v, SlotOf(a), path, k + 1)
    {
      assert SoundOn(c, v, ValueOf(u), path, k);
      StepAvail(c, v, path, b, k);
      var k' := k + 1;
      forall run: Setting | c.machines(run.m)
        ensures Sem(c, run, v, path, k') == Meaning(c, run, SlotOf(a), path, k')
      {
        StoreEffect(c, run, path, b, k, a, u);
        StepSem(c, run, v, path, b, k);
        assert Sem(c, run, v, path, k) == Meaning(c, run, ValueOf(u), path, k);
      }
    }
  }

  lemma StoreEffect(c: Ctx, run: Setting, path: seq<nat>, b: nat, k: nat, a: nat, u: Value)
    requires PathTo(c.f, path, b) && k < Len(c, b) && a in c.P && !u.NewPhi?
    requires c.f.blocks[b].body[k].Store? && c.f.blocks[b].body[k].addr == Instr(a) && c.f.blocks[b].body[k].val == u
    ensures Slot(At(c, run, path, k + 1).slots, a) == Sem(c, run, u, path, k)
  {
  }

  lemma LoadEffect(c: Ctx, run: Setting, path: seq<nat>, b: nat, k: nat, a: nat)
    requires PathTo(c.f, path, b) && k < Len(c, b) && a in c.P
    requires c.f.blocks[b].body[k].Load? && c.f.blocks[b].body[k].addr == Instr(a)
    ensures Sem(c, run, Instr(c.f.blocks[b].body[k].id), path, k + 1) == Slot(At(c, run, path, k).slots, a)
  {
  }

  /** A value equal to the slot before a load may replace the load. */
  lemma LoadReplace(c: Ctx, v: Value, a: nat, b: nat, k: nat)
    requires GoodDefs(c) && b < |c.f.blocks| && k < Len(c, b) && a in c.P
    requires c.f.blocks[b].body[k].Load? && c.f.blocks[b].body[k].addr == Instr(a)
    requires Sound(c, v, SlotOf(a), b, k)
    ensures MayReplace(c, Instr(c.f.blocks[b].body[k].id), v)
  {
    hide At, Sem;
    var x := Instr(c.f.blocks[b].body[k].id);
    assert c.defs[x] == (b, k + 1);
    SoundIsAvail(c, v, SlotOf(a), b, k);
    forall path | PathTo(c.f, path, b)
      ensures SameWhenDefined(c, x, v, path)
    {
      assert SoundOn(c, v, SlotOf(a), path, k);
      StepAvail(c, v, path, b, k);
      var k' := k + 1;
      forall run: Setting | c.machines(run.m)
        ensures Sem(c, run, v, path, k') == Sem(c, run, x, path, k')
      {
        StepSem(c, run, v, path, b, k);
        LoadEffect(c, run, path, b, k, a);
        assert Sem(c, run, v, path, k) == Meaning(c, run, SlotOf(a), path, k);
      }
    }
  }

  // ---------------------------------------------------------------- phis

  predicate IsPhiOf(c: Ctx, phi: Value, b: nat) {
    if phi.NewPhi? then phi.block == b else phi in c.f.phis && c.f.phis[phi].block == b
  }

  /** What the phi's operand for predecessor p has to be equal to at the end of p. */
  function PhiTarget(c: Ctx, phi: Value, p: nat): Target {
    if phi.NewPhi? then SlotOf(phi.slot)
    else if phi in c.f.phis then ValueOf(Incoming(c.f.phis[phi].ops, p))
    else ValueOf(phi)
  }

  /** A new phi is sound by what it stands for. */
  lemma PhiSound(c: Ctx, phi: Value, k: nat)
    requires phi.NewPhi? && NoStores(c, phi.block, phi.slot, k)
    ensures Sound(c, phi, SlotOf(phi.slot), phi.block, k)
  {
    forall path | PathTo(c.f, path, phi.block)
      ensures SoundOn(c, phi, SlotOf(phi.slot), path, k)
    {
      var last := |path| - 1;
      assert DefinedAt(c, phi, path, k, last);
      assert LastIndex(path, phi.block) == last;
      assert path[..last + 1] == path;
      hide At;
      forall run: Setting | c.machines(run.m)
        ensures Sem(c, run, phi, path, k) == Meaning(c, run, SlotOf(phi.slot), path, k)
      {
        SlotUnchanged(c, run, path, phi.block, k, phi.slot);
      }
    }
  }

  lemma PhiDef(c: Ctx, phi: Value, b: nat)
    requires GoodDefs(c) && IsPhiOf(c, phi, b)
    ensures HasDef(c, phi) && DefBlock(c, phi) == b && DefIndex(c, phi) == 0 && (phi.Instr? || phi.NewPhi?)
  {
    if !phi.NewPhi? {
      assert DefPlace(c.f, phi, c.defs[phi]);
    }
  }

  lemma OwnOperand(c: Ctx, phi: Value, p: nat)
    requires GoodUses(c)
    ensures phi in c.f.phis ==> !Incoming(c.f.phis[phi].ops, p).NewPhi?
  {
    if phi in c.f.phis && Incoming(c.f.phis[phi].ops, p) != Const(0) {
      var i :| 0 <= i < |c.f.phis[phi].ops| && c.f.phis[phi].ops[i] == (Incoming(c.f.phis[phi].ops, p), p);
      assert GoodUse(c, c.f.phis[phi].ops[i].0, c.f.phis[phi].ops[i].1, |c.f.blocks[c.f.phis[phi].ops[i].1].body|);
    }
  }

  lemma OwnPhiAtEdge(c: Ctx, run: Setting, phi: Value, path: seq<nat>)
    requires GoodUses(c) && phi in c.f.phis && phi.Instr? && IsPath(c.f, path) && |path| > 1
    requires c.f.phis[phi].block == path[|path| - 1]
    ensures IsPath(c.f, path[..|path| - 1])
    ensures Sem(c, run, phi, path, 0) ==
            Sem(c, run, Incoming(c.f.phis[phi].ops, path[|path| - 2]), path[..|path| - 1], Len(c, path[|path| - 2]))
  {
    hide At, GoodUses, Incoming, IsPath;
    AtEdge(c, run, path);
    OwnOperand(c, phi, path[|path| - 2]);
  }

  lemma NewPhiAtEdge(c: Ctx, run: Setting, phi: Value, path: seq<nat>)
    requires phi.NewPhi? && IsPath(c.f, path) && |path| > 1 && phi.block == path[|path| - 1]
    ensures Sem(c, run, phi, path, 0) == Slot(At(c, run, path, 0).slots, phi.slot)
  {
    hide At;
    var last := |path| - 1;
    assert LastIndex(path, phi.block) == last;
    assert path[..last + 1] == path;
  }

  /** On entry through p a phi has the value of its target at the end of p. */
  lemma PhiAtEdge(c: Ctx, run: Setting, phi: Value, b: nat, path: seq<nat>)
    requires GoodUses(c) && GoodDefs(c) && IsPhiOf(c, phi, b) && PathTo(c.f, path, b) && |path| > 1
    ensures IsPath(c.f, path[..|path| - 1])
    ensures Sem(c, run, phi, path, 0) ==
            Meaning(c, run, PhiTarget(c, phi, path[|path| - 2]), path[..|path| - 1], Len(c, path[|path| - 2]))
  {
    hide Sem, At;
    PhiDef(c, phi, b);
    hide GoodUses, GoodDefs;
    PathPrefix(c, path);
    if phi.NewPhi? {
      NewPhiAtEdge(c, run, phi, path);
      SlotAtEdge(c, run, path, phi.slot);
    } else {
      OwnPhiAtEdge(c, run, phi, path);
    }
  }

  lemma PathPrefix(c: Ctx, path: seq<nat>)
    requires IsPath(c.f, path) && |path| > 1
    ensures IsPath(c.f, path[..|path| - 1])
  {
    PrefixIsPath(c.f, path, |path| - 2);
    assert path[..|path| - 2 + 1] == path[..|path| - 1];
  }

  /** The operands of a phi are what they should be, and there is one for each edge. */
  ghost predicate GoodOps(c: Ctx, phi: Value, b: nat, ops: seq<(Value, nat)>) {
    && b < |c.preds|
    && IsPhiOf(c, phi, b)
    && (forall i :: 0 <= i < |ops| ==> SoundOp(c, phi, b, ops[i]))
  }

  ghost predicate SoundOp(c: Ctx, phi: Value, b: nat, op: (Value, nat)) {
    b < |c.preds| && op.1 in c.preds[b] && op.1 < |c.f.blocks| &&
      Sound(c, op.0, PhiTarget(c, phi, op.1), op.1, Len(c, op.1))
  }

  ghost predicate CoversEdges(c: Ctx, b: nat, ops: seq<(Value, nat)>)
    requires b < |c.preds|
  {
    forall p :: p in c.preds[b] ==> exists i :: 0 <= i < |ops| && ops[i].1 == p
  }

  /** The operands hold at most one value besides the phi itself. */
  predicate OnlyOperand(phi: Value, ops: seq<(Value, nat)>, same: Value) {
    forall i :: 0 <= i < |ops| ==> ops[i].0 == phi || ops[i].0 == same
  }

  lemma PathHasPred(c: Ctx, path: seq<nat>, b: nat)
    requires GoodEdges(c) && PathTo(c.f, path, b)
    ensures b < |c.preds|
    ensures b == 0 <==> |path| == 1
    ensures |path| > 1 ==> path[|path| - 2] in c.preds[b] && PathTo(c.f, path[..|path| - 1], path[|path| - 2])
  {
    if |path| > 1 {
      assert Step(c.f, path, |path| - 2);
      PrefixIsPath(c.f, path, |path| - 2);
      assert path[..|path| - 2 + 1] == path[..|path| - 1];
    }
  }

  lemma PathInto(c: Ctx, b: nat) returns (path: seq<nat>)
    requires GoodEdges(c) && Reachable(c.f, b)
    ensures PathTo(c.f, path, b) && forall j :: 0 <= j < |path| - 1 ==> path[j] != b
  {
    var p :| PathTo(c.f, p, b);
    var i := FirstIndex(p, b);
    PrefixIsPath(c.f, p, i);
    path := p[..i + 1];
  }

  lemma OperandOnPath(c: Ctx, phi: Value, b: nat, op: (Value, nat), front: seq<nat>)
    requires SoundOp(c, phi, b, op) && PathTo(c.f, front, op.1)
    ensures SoundOn(c, op.0, PhiTarget(c, phi, op.1), front, Len(c, op.1))
    ensures AlwaysAvail(c, op.0, op.1, Len(c, op.1))
  {
    hide Sem, At;
    SoundIsAvail(c, op.0, PhiTarget(c, phi, op.1), op.1, Len(c, op.1));
  }

  /** What flows in over every edge of b was not computed in b: on the first arrival
      it could not have been. */
  lemma ComesFromElsewhere(c: Ctx, phi: Value, b: nat, ops: seq<(Value, nat)>, same: Value) returns (i: nat)
    requires GoodEdges(c) && GoodDefs(c) && GoodOps(c, phi, b, ops) && CoversEdges(c, b, ops)
    requires OnlyOperand(phi, ops, same) && b != 0 && Reachable(c.f, b)
    ensures HasDef(c, same) && !same.Const? && !same.Arg? ==> DefBlock(c, same) != b
    ensures i < |ops| && ops[i].0 == same && ops[i].0 != phi
  {
    hide Sem, At, Sound, GoodDefs;
    var path := PathInto(c, b);
    PathHasPred(c, path, b);
    var front := path[..|path| - 1];
    i :| 0 <= i < |ops| && ops[i].1 == path[|path| - 2];
    assert SoundOp(c, phi, b, ops[i]);
    OperandOnPath(c, phi, b, ops[i], front);
    PhiDef(c, phi, b);
    hide GoodEdges, SoundOp, GoodOps, CoversEdges;
    assert forall j :: 0 <= j < |front| ==> front[j] != b;
  }

  lemma TrivialPhiEdge(c: Ctx, phi: Value, b: nat, same: Value, path: seq<nat>)
    requires GoodEdges(c) && GoodDefs(c) && GoodUses(c) && IsPhiOf(c, phi, b) && b != 0
    requires PathTo(c.f, path, b) && |path| > 1
    requires HasDef(c, same) && !same.Const? && !same.Arg? ==> DefBlock(c, same) != b
    requires IsPath(c.f, path[..|path| - 1])
    requires SoundOn(c, same, PhiTarget(c, phi, path[|path| - 2]), path[..|path| - 1], Len(c, path[|path| - 2]))
    ensures SoundOn(c, same, ValueOf(phi), path, 0)
  {
    hide Sem, At;
    EdgeAvail(c, same, path);
    forall run: Setting | c.machines(run.m)
      ensures Sem(c, run, same, path, 0) == Sem(c, run, phi, path, 0)
    {
      EdgeSem(c, run, same, path);
      PhiAtEdge(c, run, phi, b, path);
    }
  }

  /** A phi with at most one operand besides itself equals that operand. */
  lemma {:induction false} TrivialPhiOn(c: Ctx, phi: Value, b: nat, ops: seq<(Value, nat)>, same: Value, path: seq<nat>)
    requires GoodEdges(c) && GoodDefs(c) && GoodUses(c)
    requires GoodOps(c, phi, b, ops) && CoversEdges(c, b, ops)
    requires OnlyOperand(phi, ops, same) && b != 0
    requires PathTo(c.f, path, b)
    ensures SoundOn(c, same, ValueOf(phi), path, 0)
    decreases |path|
  {
    hide Sem, At, Sound;
    PathHasPred(c, path, b);
    var p, front := path[|path| - 2], path[..|path| - 1];
    var i :| 0 <= i < |ops| && ops[i].1 == p;
    assert SoundOp(c, phi, b, ops[i]);
    var _ := ComesFromElsewhere(c, phi, b, ops, same);
    OperandOnPath(c, phi, b, ops[i], front);
    if ops[i].0 == phi {
      forall j {:trigger front[j]} | 0 <= j < |front| && front[j] == b && PathTo(c.f, front[..j + 1], b)
        ensures SoundOn(c, same, ValueOf(phi), front[..j + 1], 0)
      {
        TrivialPhiOn(c, phi, b, ops, same, front[..j + 1]);
      }
      PhiDef(c, phi, b);
      ReplaceOn(c, phi, same, front, p, Len(c, p));
    }
    TrivialPhiEdge(c, phi, b, same, path);
  }

  /** The value that a phi is trivially equal to: its one other operand, or zero if it
      has none, as happens when the slot was never written. */
  predicate TrivialValue(phi: Value, ops: seq<(Value, nat)>, same: Value) {
    && OnlyOperand(phi, ops, same)
    && (same == Const(0) || exists i :: 0 <= i < |ops| && ops[i].0 == same)
    && same != phi
  }

  lemma TrivialPhiReplace(c: Ctx, phi: Value, b: nat, ops: seq<(Value, nat)>, same: Value)
    requires GoodEdges(c) && GoodDefs(c) && GoodUses(c) && GoodPhis(c)
    requires GoodOps(c, phi, b, ops) && CoversEdges(c, b, ops)
    requires TrivialValue(phi, ops, same)
    ensures MayReplace(c, phi, same)
  {
    PhiDef(c, phi, b);
    if b == 0 {
      forall path | PathTo(c.f, path, b)
        ensures SameWhenDefined(c, phi, same, path)
      {
        EntryPhiIsZero(c, phi, ops, same, path);
      }
    } else {
      hide Sem, At, GoodEdges, GoodDefs, GoodUses, GoodPhis, GoodOps, CoversEdges;
      forall path | PathTo(c.f, path, b)
        ensures SameWhenDefined(c, phi, same, path)
      {
        TrivialPhiOn(c, phi, b, ops, same, path);
      }
    }
  }

  lemma EntryPhiIsZero(c: Ctx, phi: Value, ops: seq<(Value, nat)>, same: Value, path: seq<nat>)
    requires GoodEdges(c) && GoodPhis(c)
    requires GoodOps(c, phi, 0, ops) && TrivialValue(phi, ops, same)
    requires PathTo(c.f, path, 0)
    ensures SoundOn(c, same, ValueOf(phi), path, 0)
  {
    PathHasPred(c, path, 0);
    assert path == [0];
    assert path[..1] == path;
  }

  /** If b is entered from one other block only, what holds there holds here. */
  lemma OnlyPred(c: Ctx, path: seq<nat>, b: nat, p: nat)
    requires GoodEdges(c) && b < |c.preds| && c.preds[b] == [p] && PathTo(c.f, path, b)
    ensures |path| > 1 && path[|path| - 2] == p && PathTo(c.f, path[..|path| - 1], p)
  {
    PathHasPred(c, path, b);
  }

  /** A value that is there at the end of the only predecessor is not defined in b. */
  lemma NotDefinedBelow(c: Ctx, v: Value, a: nat, b: nat, p: nat)
    requires GoodEdges(c) && GoodDefs(c) && Reachable(c.f, b)
    requires b < |c.preds| && c.preds[b] == [p] && p != b
    requires Sound(c, v, SlotOf(a), p, Len(c, p))
    ensures HasDef(c, v) ==> DefBlock(c, v) != b
  {
    hide Sem, At, Sound;
    var first := PathInto(c, b);
    OnlyPred(c, first, b, p);
    SoundIsAvail(c, v, SlotOf(a), p, Len(c, p));
    assert Avail(c, v, first[..|first| - 1], Len(c, p));
    if HasDef(c, v) {
      HasDefIs(c, v);
    }
  }

  lemma HasDefIs(c: Ctx, v: Value)
    requires GoodDefs(c) && HasDef(c, v)
    ensures !v.Const? && !v.Arg?
  {
    if v in c.defs {
      assert DefPlace(c.f, v, c.defs[v]);
    }
  }

  lemma SoundFromPred(c: Ctx, v: Value, a: nat, b: nat, p: nat)
    requires GoodEdges(c) && GoodDefs(c)
    requires b < |c.preds| && c.preds[b] == [p] && p != b
    requires Sound(c, v, SlotOf(a), p, Len(c, p))
    ensures Sound(c, v, SlotOf(a), b, 0)
  {
    hide GoodDefs, GoodEdges, SoundOn, HasDef, DefBlock;
    forall path | PathTo(c.f, path, b)
      ensures SoundOn(c, v, SlotOf(a), path, 0)
    {
      NotDefinedBelow(c, v, a, b, p);
      OnlyPred(c, path, b, p);
      assert SoundOn(c, v, SlotOf(a), path[..|path| - 1], Len(c, p));
      SoundOverEdge(c, v, a, path);
    }
  }

  lemma SoundOverEdge(c: Ctx, v: Value, a: nat, path: seq<nat>)
    requires GoodDefs(c) && IsPath(c.f, path) && |path| > 1 && IsPath(c.f, path[..|path| - 1])
    requires SoundOn(c, v, SlotOf(a), path[..|path| - 1], Len(c, path[|path| - 2]))
    requires HasDef(c, v) ==> DefBlock(c, v) != path[|path| - 1]
    ensures SoundOn(c, v, SlotOf(a), path, 0)
  {
    hide Sem, At, GoodDefs, IsPath, Avail;
    EdgeAvail(c, v, path);
    forall run: Setting | c.machines(run.m)
      ensures Sem(c, run, v, path, 0) == Meaning(c, run, SlotOf(a), path, 0)
    {
      EdgeSem(c, run, v, path);
      SlotAtEdge(c, run, path, a);
    }
  }
}
