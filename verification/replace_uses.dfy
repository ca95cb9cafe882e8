/** Replacing all uses of one value by another in a function, and what that means. */
module ReplaceUses {
  import opened IR
  import opened SsaPaths
  import opened SsaState
  import opened InlineDef

  /** All uses of u become uses of v. */
  function ReplaceIn(u: Value, v: Value, blk: Block): (r: Block)
    ensures |r.body| == |blk.body|
  {
    Block(seq(|blk.body|, k requires 0 <= k < |blk.body| => Rename(blk.body[k].id, blk.body[k], w => Subst(u, v, w))),
          RenameTerm(blk.term, w => Subst(u, v, w)))
  }

  ghost predicate SameValue(u: Value, v: Value, args: seq<int>, s: State) {
    Eval(u, s.env, args) == Eval(v, s.env, args)
  }

  ghost predicate SameStep(u: Value, v: Value, i: Instruction, i': Instruction) {
    forall m: Machine, args: seq<int>, s: State :: SameValue(u, v, args, s) ==>
      ExecInstr(m, args, {}, i', s) == ExecInstr(m, args, {}, i, s)
  }

  ghost predicate SameExit(u: Value, v: Value, t: Terminator, t': Terminator) {
    (t.Ret? <==> t'.Ret?) &&
    forall args: seq<int>, s: State :: SameValue(u, v, args, s) ==>
      if t.Ret? then Eval(t'.val, s.env, args) == Eval(t.val, s.env, args) else Next(t', s, args) == Next(t, s, args)
  }

  ghost predicate SameEntry(u: Value, v: Value, phi: Phi, phi': Phi) {
    phi'.block == phi.block && Preds(phi'.ops) == Preds(phi.ops) &&
    forall args: seq<int>, s: State, p: nat :: SameValue(u, v, args, s) ==>
      Eval(Incoming(phi'.ops, p), s.env, args) == Eval(Incoming(phi.ops, p), s.env, args)
  }

  /** Wherever u and v have one value, each instruction, terminator and phi of g does what
      the one at its place in f does. */
  ghost predicate SameWhereEqual(u: Value, v: Value, f: Func, g: Func) {
    && |g.blocks| == |f.blocks|
    && (forall b :: 0 <= b < |f.blocks| ==> |g.blocks[b].body| == |f.blocks[b].body|)
    && (forall b, k :: 0 <= b < |f.blocks| && 0 <= k < |f.blocks[b].body| ==>
          SameStep(u, v, f.blocks[b].body[k], g.blocks[b].body[k]))
    && (forall b :: 0 <= b < |f.blocks| ==> SameExit(u, v, f.blocks[b].term, g.blocks[b].term))
    && g.phis.Keys == f.phis.Keys
    && (forall w :: w in f.phis ==> SameEntry(u, v, f.phis[w], g.phis[w]))
  }

  /** Whether w is used after u has been replaced by v, given what was used before. */
  predicate Moved(u: Value, v: Value, w: Value, usedU: bool, usedV: bool, usedW: bool) {
    if w == v then usedU || usedV else w != u && usedW
  }

  /** g names v where f names u, and every other value where f does. */
  ghost predicate OnlyUseMoved(u: Value, v: Value, f: Func, g: Func) {
    forall w :: UsedIn(g, w) <==> Moved(u, v, w, UsedIn(f, u), UsedIn(f, v), UsedIn(f, w))
  }

  lemma StepSame(u: Value, v: Value, i: Instruction)
    ensures SameStep(u, v, i, Rename(i.id, i, w => Subst(u, v, w)))
  {
    var i' := Rename(i.id, i, w => Subst(u, v, w));
    forall m: Machine, args: seq<int>, s: State | SameValue(u, v, args, s)
      ensures ExecInstr(m, args, {}, i', s) == ExecInstr(m, args, {}, i, s)
    {
      hide Eval;
      if i.Op? {
        assert EvalAll(i'.args, s.env, args) == EvalAll(i.args, s.env, args);
      }
    }
  }

  lemma ExitSame(u: Value, v: Value, t: Terminator)
    ensures SameExit(u, v, t, RenameTerm(t, w => Subst(u, v, w)))
  {
    hide Eval;
  }

  lemma {:induction false} IncomingSubst(u: Value, v: Value, ops: seq<(Value, nat)>, args: seq<int>, s: State, p: nat)
    requires SameValue(u, v, args, s)
    ensures Eval(Incoming(SubstOps(u, v, ops), p), s.env, args) == Eval(Incoming(ops, p), s.env, args)
  {
    hide Eval;
    if ops != [] {
      IncomingSubst(u, v, ops[1..], args, s, p);
      assert SubstOps(u, v, ops)[1..] == SubstOps(u, v, ops[1..]);
    }
  }

  lemma EntrySame(u: Value, v: Value, phi: Phi)
    ensures SameEntry(u, v, phi, Phi(phi.block, SubstOps(u, v, phi.ops)))
  {
    hide Incoming, Eval;
    forall args: seq<int>, s: State, p: nat | SameValue(u, v, args, s)
      ensures Eval(Incoming(SubstOps(u, v, phi.ops), p), s.env, args) == Eval(Incoming(phi.ops, p), s.env, args)
    {
      IncomingSubst(u, v, phi.ops, args, s, p);
    }
  }

  ghost predicate ReplacedIn(u: Value, v: Value, f: Func, g: Func) {
    && |g.blocks| == |f.blocks|
    && (forall b :: 0 <= b < |f.blocks| ==> g.blocks[b] == ReplaceIn(u, v, f.blocks[b]))
    && g.phis.Keys == f.phis.Keys
    && (forall w :: w in f.phis ==> g.phis[w] == Phi(f.phis[w].block, SubstOps(u, v, f.phis[w].ops)))
  }

  lemma ReplacedMeans(u: Value, v: Value, f: Func, g: Func)
    requires ReplacedIn(u, v, f, g)
    ensures SameWhereEqual(u, v, f, g)
  {
    hide SameStep, SameExit, SameEntry, Rename, RenameTerm, SubstOps, Subst;
    forall b, k | 0 <= b < |f.blocks| && 0 <= k < |f.blocks[b].body|
      ensures SameStep(u, v, f.blocks[b].body[k], g.blocks[b].body[k])
    {
      StepSame(u, v, f.blocks[b].body[k]);
    }
    forall b | 0 <= b < |f.blocks|
      ensures SameExit(u, v, f.blocks[b].term, g.blocks[b].term)
    {
      ExitSame(u, v, f.blocks[b].term);
    }
    forall w | w in f.phis
      ensures SameEntry(u, v, f.phis[w], g.phis[w])
    {
      EntrySame(u, v, f.phis[w]);
    }
  }

  // ---------------------------------------------------------------- where values are used

  lemma InstrUses(u: Value, v: Value, i: Instruction, w: Value)
    ensures UsedBy(Rename(i.id, i, x => Subst(u, v, x)), w) <==>
              Moved(u, v, w, UsedBy(i, u), UsedBy(i, v), UsedBy(i, w))
  {
    if i.Op? {
      var args := Rename(i.id, i, x => Subst(u, v, x)).args;
      assert forall j :: 0 <= j < |args| ==> args[j] == Subst(u, v, i.args[j]);
      if w == v && (u in i.args || v in i.args) {
        var j :| 0 <= j < |args| && (i.args[j] == u || i.args[j] == v);
        assert args[j] == v;
      } else if w != u && w in i.args {
        var j :| 0 <= j < |args| && i.args[j] == w;
        assert args[j] == w;
      }
    }
  }

  lemma InstrAt(u: Value, v: Value, f: Func, g: Func, b: nat, k: nat, w: Value)
    requires ReplacedIn(u, v, f, g) && b < |f.blocks|
    ensures |g.blocks[b].body| == |f.blocks[b].body|
    ensures k < |f.blocks[b].body| ==>
              var i := f.blocks[b].body[k];
                UsedBy(g.blocks[b].body[k], w) <==> Moved(u, v, w, UsedBy(i, u), UsedBy(i, v), UsedBy(i, w))
  {
    if k < |f.blocks[b].body| {
      InstrUses(u, v, f.blocks[b].body[k], w);
    }
  }

  lemma TermAt(u: Value, v: Value, f: Func, g: Func, b: nat, w: Value)
    requires ReplacedIn(u, v, f, g) && b < |f.blocks|
    ensures var t := f.blocks[b].term;
            UsedByTerm(g.blocks[b].term, w) <==> Moved(u, v, w, UsedByTerm(t, u), UsedByTerm(t, v), UsedByTerm(t, w))
  {
  }

  lemma OperandAt(u: Value, v: Value, f: Func, g: Func, p: Value, j: nat)
    requires ReplacedIn(u, v, f, g) && p in f.phis
    ensures p in g.phis && |g.phis[p].ops| == |f.phis[p].ops|
    ensures j < |f.phis[p].ops| ==> g.phis[p].ops[j].0 == Subst(u, v, f.phis[p].ops[j].0)
  {
  }

  /** What g uses comes from a use in f. */
  lemma UsesFrom(u: Value, v: Value, f: Func, g: Func, w: Value)
    requires ReplacedIn(u, v, f, g) && UsedIn(g, w)
    ensures Moved(u, v, w, UsedIn(f, u), UsedIn(f, v), UsedIn(f, w))
  {
    hide UsedBy, UsedByTerm, ReplaceIn, SubstOps;
    if b, k :| 0 <= b < |g.blocks| && 0 <= k < |g.blocks[b].body| && UsedBy(g.blocks[b].body[k], w) {
      InstrAt(u, v, f, g, b, k, w);
    } else if b :| 0 <= b < |g.blocks| && UsedByTerm(g.blocks[b].term, w) {
      TermAt(u, v, f, g, b, w);
    } else {
      var p, j :| p in g.phis && 0 <= j < |g.phis[p].ops| && g.phis[p].ops[j].0 == w;
      OperandAt(u, v, f, g, p, j);
    }
  }

  /** A use of x in f is one of what replaces it in g. */
  lemma UsesTo(u: Value, v: Value, f: Func, g: Func, x: Value)
    requires ReplacedIn(u, v, f, g) && UsedIn(f, x)
    ensures UsedIn(g, Subst(u, v, x))
  {
    hide UsedBy, UsedByTerm, ReplaceIn, SubstOps;
    var w := Subst(u, v, x);
    if b, k :| 0 <= b < |f.blocks| && 0 <= k < |f.blocks[b].body| && UsedBy(f.blocks[b].body[k], x) {
      InstrAt(u, v, f, g, b, k, w);
      assert UsedBy(g.blocks[b].body[k], w);
    } else if b :| 0 <= b < |f.blocks| && UsedByTerm(f.blocks[b].term, x) {
      TermAt(u, v, f, g, b, w);
    } else {
      var p, j :| p in f.phis && 0 <= j < |f.phis[p].ops| && f.phis[p].ops[j].0 == x;
      OperandAt(u, v, f, g, p, j);
    }
  }

  lemma UsesMoved(u: Value, v: Value, f: Func, g: Func)
    requires ReplacedIn(u, v, f, g)
    ensures OnlyUseMoved(u, v, f, g)
  {
    hide UsedIn, ReplacedIn;
    forall w
      ensures UsedIn(g, w) <==> Moved(u, v, w, UsedIn(f, u), UsedIn(f, v), UsedIn(f, w))
    {
      if UsedIn(g, w) {
        UsesFrom(u, v, f, g, w);
      }
      if UsedIn(f, u) {
        UsesTo(u, v, f, g, u);
      }
      if UsedIn(f, v) {
        UsesTo(u, v, f, g, v);
      }
      if UsedIn(f, w) {
        UsesTo(u, v, f, g, w);
      }
    }
  }
}
