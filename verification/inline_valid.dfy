/** A module stays well-formed when a call is inlined. */
module InlineValid {
  import opened IR
  import opened SsaPaths
  import opened Calls
  import opened InlineDef
  import opened InlineSim

  /** Nobody uses the result of a call to a function that has none. */
  ghost predicate VoidCallsUnused(mod: Module, f: Func) {
    forall b, k :: 0 <= b < |f.blocks| && 0 <= k < |f.blocks[b].body| ==> VoidCallUnused(mod, f, f.blocks[b].body[k])
  }

  ghost predicate VoidCallUnused(mod: Module, f: Func, i: Instruction) {
    IsCall(mod, i) && !mod[i.code.callee].hasResult ==> !UsedIn(f, Instr(i.id))
  }

  ghost predicate FunctionOk(mod: Module, f: Func) {
    GoodShape(f) && VoidCallsUnused(mod, f)
  }

  ghost predicate ModuleOk(mod: Module) {
    forall g :: 0 <= g < |mod| ==> FunctionOk(mod, mod[g].body)
  }

  // ---------------------------------------------------------------- where code comes from

  /** Instruction k' of block b' of the result is one of the caller's or a clone. */
  ghost predicate FromCaller(x: Site, b': nat, k': nat, b: nat, k: nat) {
    && b < |x.f.blocks| && k < |x.f.blocks[b].body|
    && if b == x.b && k > x.i then b' == Cont(x) && k' == k - x.i - 1 else b' == b && k' == k && (b == x.b ==> k < x.i)
  }

  ghost predicate FromCallee(x: Site, b': nat, k': nat, b: nat, k: nat) {
    && b < |x.callee.body.blocks| && k < |x.callee.body.blocks[b].body|
    && b' == Clones(x) + b && k' == k
  }

  /** The origin of an instruction of the result. */
  lemma Origin(x: Site, g: Func, b': nat, k': nat) returns (own: bool, b: nat, k: nat)
    requires AtCall(x) && g.blocks == NewBlocks(x) && b' < |g.blocks| && k' < |g.blocks[b'].body|
    ensures own ==> FromCaller(x, b', k', b, k) && g.blocks[b'].body[k'] == OwnInstr(x, x.f.blocks[b].body[k])
    ensures !own ==>
              FromCallee(x, b', k', b, k) && g.blocks[b'].body[k'] == CloneInstr(x, x.callee.body.blocks[b].body[k])
  {
    hide OwnInstr, CloneInstr;
    if b' < Clones(x) {
      OwnBlockAt(x, g, b');
      own, b, k := true, b', k';
    } else if b' < Cont(x) {
      CloneBlockAt(x, g, b' - Clones(x));
      own, b, k := false, b' - Clones(x), k';
    } else {
      ContBlockAt(x, g);
      own, b, k := true, x.b, k' + x.i + 1;
    }
  }

  /** Every other instruction of the caller and every one of the callee is there. */
  lemma OwnIsThere(x: Site, g: Func, b: nat, k: nat) returns (b': nat, k': nat)
    requires AtCall(x) && g.blocks == NewBlocks(x) && b < |x.f.blocks| && k < |x.f.blocks[b].body|
    requires b != x.b || k != x.i
    ensures b' < |g.blocks| && k' < |g.blocks[b'].body| && g.blocks[b'].body[k'] == OwnInstr(x, x.f.blocks[b].body[k])
  {
    hide OwnInstr;
    OwnBlockAt(x, g, b);
    ContBlockAt(x, g);
    if b == x.b && k > x.i {
      b', k' := Cont(x), k - x.i - 1;
    } else {
      b', k' := b, k;
    }
  }

  lemma CloneIsThere(x: Site, g: Func, b: nat, k: nat)
    requires AtCall(x) && g.blocks == NewBlocks(x) && b < |x.callee.body.blocks| && k < |x.callee.body.blocks[b].body|
    ensures Clones(x) + b < |g.blocks| && k < |g.blocks[Clones(x) + b].body|
    ensures g.blocks[Clones(x) + b].body[k] == CloneInstr(x, x.callee.body.blocks[b].body[k])
  {
    CloneBlockAt(x, g, b);
  }

  // ---------------------------------------------------------------- definitions

  lemma DefinesIn(f: Func, b: nat, k: nat)
    requires b < |f.blocks| && k < |f.blocks[b].body| && !f.blocks[b].body[k].Store?
    ensures DefinedIn(f, Instr(f.blocks[b].body[k].id))
  {
    assert Defines(f.blocks[b].body[k], Instr(f.blocks[b].body[k].id));
  }

  lemma CloneName(x: Site, v: Value)
    requires MayInline(x) && DefinedIn(x.callee.body, v)
    ensures v in x.vm && x.vm[v].Instr? && x.vm[v] != x.phi && !DefinedIn(x.f, x.vm[v])
  {
  }

  lemma CloneIdIs(x: Site, b: nat, k: nat)
    requires MayInline(x) && b < |x.callee.body.blocks| && k < |x.callee.body.blocks[b].body|
    requires !x.callee.body.blocks[b].body[k].Store?
    ensures var i := x.callee.body.blocks[b].body[k]; Instr(i.id) in x.vm && Instr(CloneId(x, i)) == x.vm[Instr(i.id)]
  {
    hide MayInline;
    DefinesIn(x.callee.body, b, k);
    CloneName(x, Instr(x.callee.body.blocks[b].body[k].id));
  }

  lemma SameIdSamePlace(f: Func, b: nat, k: nat, b': nat, k': nat)
    requires GoodShape(f) && b < |f.blocks| && k < |f.blocks[b].body| && b' < |f.blocks| && k' < |f.blocks[b'].body|
    ensures DistinctDefs(f, b, k, b', k')
  {
  }

  lemma InlineFacts(x: Site)
    requires MayInline(x)
    ensures AtCall(x) && GoodShape(x.f) && GoodShape(x.callee.body) && Injective(x.vm)
    ensures x.phi.Instr? && !DefinedIn(x.f, x.phi)
    ensures !x.callee.hasResult ==> !UsedIn(x.f, CallValue(x))
  {
  }

  lemma StillOneDef(x: Site, g: Func, b1: nat, k1: nat, b2: nat, k2: nat)
    requires MayInline(x) && AtCall(x) && g.blocks == NewBlocks(x)
    requires b1 < |g.blocks| && k1 < |g.blocks[b1].body| && b2 < |g.blocks| && k2 < |g.blocks[b2].body|
    ensures DistinctDefs(g, b1, k1, b2, k2)
  {
    hide MayInline, GoodShape, OwnValue, CloneValue, NewBlocks, DefinedIn, CloneId;
    InlineFacts(x);
    var i1, i2 := g.blocks[b1].body[k1], g.blocks[b2].body[k2];
    if !i1.Store? && !i2.Store? && i1.id == i2.id {
      var own1, c1, j1 := Origin(x, g, b1, k1);
      var own2, c2, j2 := Origin(x, g, b2, k2);
      if own1 && own2 {
        SameIdSamePlace(x.f, c1, j1, c2, j2);
      } else if !own1 && !own2 {
        CloneIdIs(x, c1, j1);
        CloneIdIs(x, c2, j2);
        SameIdSamePlace(x.callee.body, c1, j1, c2, j2);
      } else if own1 {
        NameClash(x, c1, j1, c2, j2);
      } else {
        NameClash(x, c2, j2, c1, j1);
      }
    }
  }

  /** Clones do not share names with the caller's values. */
  lemma NameClash(x: Site, b: nat, k: nat, c: nat, j: nat)
    requires MayInline(x) && b < |x.f.blocks| && k < |x.f.blocks[b].body| && !x.f.blocks[b].body[k].Store?
    requires c < |x.callee.body.blocks| && j < |x.callee.body.blocks[c].body| && !x.callee.body.blocks[c].body[j].Store?
    ensures x.f.blocks[b].body[k].id != CloneId(x, x.callee.body.blocks[c].body[j])
  {
    hide MayInline, DefinedIn;
    DefinesIn(x.f, b, k);
    DefinesIn(x.callee.body, c, j);
    CloneName(x, Instr(x.callee.body.blocks[c].body[j].id));
  }

  /** What a phi of the result is. */
  lemma PhiOrigin(x: Site, g: Func, u: Value)
    requires MayInline(x) && IsInlined(x, g) && u in g.phis
    ensures AtCall(x) && (u in x.f.phis ==> DefinedIn(x.f, u))
    ensures (u in x.f.phis && DefinedIn(x.f, u) && g.phis[u] == OwnPhi(x, x.f.phis[u])) ||
            (x.callee.hasResult && u == x.phi && g.phis[u] == ResultPhi(x)) ||
            (exists v :: v in x.callee.body.phis && v in x.vm && x.vm[v] == u && DefinedIn(x.callee.body, v) &&
              g.phis[u] == ClonePhi(x, x.callee.body.phis[v]))
  {
    hide OwnPhi, ClonePhi, ResultPhi, GoodShape, VoidUnused, NewBlocks;
    if u in x.f.phis {
    } else if x.callee.hasResult && u == x.phi {
    } else {
      assert ClonedPhi(x, u);
      var v :| v in x.callee.body.phis && v in x.vm && x.vm[v] == u;
      assert DefinedIn(x.callee.body, v);
    }
  }

  lemma OwnPhiNoInstr(f: Func, b: nat, k: nat, v: Value)
    requires GoodShape(f) && b < |f.blocks| && k < |f.blocks[b].body| && v in f.phis
    ensures !Defines(f.blocks[b].body[k], v)
  {
  }

  lemma StillPhiNoInstr(x: Site, g: Func, b': nat, k': nat, u: Value)
    requires MayInline(x) && AtCall(x) && IsInlined(x, g) && u in g.phis && b' < |g.blocks| && k' < |g.blocks[b'].body|
    requires g.blocks == NewBlocks(x)
    ensures !Defines(g.blocks[b'].body[k'], u)
  {
    hide MayInline, IsInlined, GoodShape, OwnValue, CloneValue, NewBlocks, DefinedIn, OwnPhi, ClonePhi, ResultPhi,
      CloneId;
    InlineFacts(x);
    PhiOrigin(x, g, u);
    var i := g.blocks[b'].body[k'];
    if Defines(i, u) {
      var own, b, k := Origin(x, g, b', k');
      if own {
        OwnNotPhi(x, g, b, k, u);
      } else {
        CloneNotPhi(x, g, b, k, u);
      }
    }
  }

  lemma OwnNotPhi(x: Site, g: Func, b: nat, k: nat, u: Value)
    requires MayInline(x) && IsInlined(x, g) && u in g.phis && b < |x.f.blocks| && k < |x.f.blocks[b].body| &&
               !x.f.blocks[b].body[k].Store?
    ensures u != Instr(x.f.blocks[b].body[k].id)
  {
    hide MayInline, IsInlined, GoodShape, DefinedIn, OwnPhi, ClonePhi, ResultPhi;
    InlineFacts(x);
    PhiOrigin(x, g, u);
    DefinesIn(x.f, b, k);
    if u in x.f.phis {
      OwnPhiNoInstr(x.f, b, k, u);
    } else if u != x.phi {
      var v :| v in x.callee.body.phis && v in x.vm && x.vm[v] == u && DefinedIn(x.callee.body, v);
      CloneName(x, v);
    }
  }

  lemma CloneNotPhi(x: Site, g: Func, b: nat, k: nat, u: Value)
    requires MayInline(x) && IsInlined(x, g) && u in g.phis && b < |x.callee.body.blocks| &&
               k < |x.callee.body.blocks[b].body|
    requires !x.callee.body.blocks[b].body[k].Store?
    ensures u != Instr(CloneId(x, x.callee.body.blocks[b].body[k]))
  {
    hide MayInline, IsInlined, GoodShape, DefinedIn, OwnPhi, ClonePhi, ResultPhi, CloneId;
    InlineFacts(x);
    PhiOrigin(x, g, u);
    CloneIdIs(x, b, k);
    DefinesIn(x.callee.body, b, k);
    CloneName(x, Instr(x.callee.body.blocks[b].body[k].id));
    if u !in x.f.phis && u != x.phi {
      var v :| v in x.callee.body.phis && v in x.vm && x.vm[v] == u && DefinedIn(x.callee.body, v);
      OwnPhiNoInstr(x.callee.body, b, k, v);
    }
  }

  lemma InlinedOneDef(x: Site, g: Func)
    requires MayInline(x) && AtCall(x) && IsInlined(x, g)
    ensures OneDef(g)
  {
    hide MayInline, IsInlined, NewBlocks, DistinctDefs, Defines;
    BlocksAre(x, g);
    forall b, k, b', k' | 0 <= b < |g.blocks| && 0 <= k < |g.blocks[b].body| && 0 <= b' < |g.blocks| &&
      0 <= k' < |g.blocks[b'].body|
      ensures DistinctDefs(g, b, k, b', k')
    {
      StillOneDef(x, g, b, k, b', k');
    }
    forall b, k, v | 0 <= b < |g.blocks| && 0 <= k < |g.blocks[b].body| && v in g.phis
      ensures !Defines(g.blocks[b].body[k], v)
    {
      StillPhiNoInstr(x, g, b, k, v);
    }
  }

  lemma BlocksAre(x: Site, g: Func)
    requires AtCall(x) && IsInlined(x, g)
    ensures g.blocks == NewBlocks(x) && |g.blocks| == Cont(x) + 1
  {
  }

  // ---------------------------------------------------------------- shape

  lemma TargetsIn(f: Func, b: nat)
    requires GoodShape(f) && b < |f.blocks|
    ensures forall t :: t in Succs(f.blocks[b].term) ==> t < |f.blocks|
  {
  }

  lemma OwnSuccs(x: Site, t: Terminator)
    requires AtCall(x)
    ensures Succs(OwnTerm(x, t)) == Succs(t)
  {
  }

  lemma CloneSuccs(x: Site, t: Terminator, s: nat)
    requires AtCall(x) && s in Succs(CloneTerm(x, t))
    ensures s == Cont(x) || (s >= Clones(x) && s - Clones(x) in Succs(t))
  {
    if t.BranchIf? {
      assert t.thn in Succs(t) && t.els in Succs(t);
    }
  }

  lemma InlinedTargets(x: Site, g: Func)
    requires MayInline(x) && AtCall(x) && IsInlined(x, g)
    ensures ValidTargets(g)
  {
    hide MayInline, IsInlined, NewBlocks, GoodShape, OwnValue, CloneValue;
    InlineFacts(x);
    BlocksAre(x, g);
    forall b, t | 0 <= b < |g.blocks| && t in Succs(g.blocks[b].term)
      ensures t < |g.blocks|
    {
      if b < Clones(x) {
        OwnBlockAt(x, g, b);
        TargetsIn(x.f, b);
        OwnSuccs(x, x.f.blocks[b].term);
      } else if b < Cont(x) {
        CloneBlockAt(x, g, b - Clones(x));
        TargetsIn(x.callee.body, b - Clones(x));
        CloneSuccs(x, x.callee.body.blocks[b - Clones(x)].term, t);
      } else {
        ContBlockAt(x, g);
        TargetsIn(x.f, x.b);
        OwnSuccs(x, x.f.blocks[x.b].term);
      }
    }
  }

  lemma {:induction false} DropPredFrom(ops: seq<(Value, nat)>, p: nat)
    ensures forall o :: o in DropPred(ops, p) ==> o in ops
    ensures CountPred(ops, p) > 0 ==> (Incoming(ops, p), p) in ops
  {
    if ops != [] {
      DropPredFrom(ops[1..], p);
    }
  }

  /** Pairs of a phi after the split: old pairs, or the value of the split block for the
      new one. */
  lemma MovedFrom(ops: seq<(Value, nat)>, p: nat, q: nat, o: (Value, nat))
    requires o in MovePred(ops, p, q)
    ensures o in ops || (o.1 == q && (o.0, p) in ops)
  {
    DropPredFrom(ops, p);
  }

  lemma PhiPlacedIn(f: Func, v: Value)
    requires GoodShape(f) && v in f.phis
    ensures PhiPlaced(f, v)
  {
  }

  lemma OwnOpsFrom(x: Site, ops: seq<(Value, nat)>, o: (Value, nat))
    requires AtCall(x) && o in OwnOps(x, ops)
    ensures exists v :: (v, o.1) in ops && OwnValue(x, v) == o.0
  {
    var j :| 0 <= j < |ops| && OwnOps(x, ops)[j] == o;
    assert ops[j] == (ops[j].0, o.1);
  }

  lemma CloneOpsFrom(x: Site, ops: seq<(Value, nat)>, o: (Value, nat))
    requires AtCall(x) && o in CloneOps(x, ops)
    ensures exists v, p :: (v, p) in ops && CloneValue(x, v) == o.0 && o.1 == Clones(x) + p
  {
    var j :| 0 <= j < |ops| && CloneOps(x, ops)[j] == o;
    assert ops[j] == (ops[j].0, ops[j].1);
  }

  lemma {:induction false} ReturnsFrom(x: Site, n: nat, o: (Value, nat)) returns (j: nat)
    requires AtCall(x) && n <= |x.callee.body.blocks| && o in Returns(x, n)
    ensures j < n && x.callee.body.blocks[j].term.Ret? &&
              o == (CloneValue(x, x.callee.body.blocks[j].term.val), Clones(x) + j)
  {
    if o in Returns(x, n - 1) {
      j := ReturnsFrom(x, n - 1, o);
    } else {
      j := n - 1;
    }
  }

  lemma InlinedPhiPlaced(x: Site, g: Func, u: Value)
    requires MayInline(x) && IsInlined(x, g) && u in g.phis && AtCall(x)
    ensures PhiPlaced(g, u)
  {
    hide MayInline, IsInlined, NewBlocks, GoodShape, OwnValue, CloneValue, MovePred, Returns, DefinedIn;
    InlineFacts(x);
    BlocksAre(x, g);
    PhiOrigin(x, g, u);
    forall j | 0 <= j < |g.phis[u].ops|
      ensures g.phis[u].ops[j].1 < |g.blocks|
    {
      PhiOpFrom(x, g, u, g.phis[u].ops[j]);
    }
    if u in x.f.phis && g.phis[u] == OwnPhi(x, x.f.phis[u]) {
      PhiPlacedIn(x.f, u);
    } else if !(u == x.phi && g.phis[u] == ResultPhi(x)) {
      var v :| v in x.callee.body.phis && v in x.vm && x.vm[v] == u && DefinedIn(x.callee.body, v) &&
        g.phis[u] == ClonePhi(x, x.callee.body.phis[v]);
      PhiPlacedIn(x.callee.body, v);
      CloneName(x, v);
    }
  }

  ghost predicate ComesFrom(x: Site, w: Value)
    requires AtCall(x)
  {
    || (exists u :: UsedIn(x.f, u) && OwnValue(x, u) == w)
    || (exists u :: UsedIn(x.callee.body, u) && CloneValue(x, u) == w)
  }

  /** An operand of a phi of the result. */
  lemma PhiOpFrom(x: Site, g: Func, u: Value, o: (Value, nat))
    requires MayInline(x) && IsInlined(x, g) && u in g.phis && o in g.phis[u].ops && AtCall(x)
    ensures o.1 < |g.blocks| && ComesFrom(x, o.0)
  {
    hide MayInline, IsInlined, NewBlocks, GoodShape, OwnValue, CloneValue, MovePred, Returns, OwnOps, CloneOps,
      DefinedIn, UsedIn;
    InlineFacts(x);
    BlocksAre(x, g);
    PhiOrigin(x, g, u);
    if u in x.f.phis && g.phis[u] == OwnPhi(x, x.f.phis[u]) {
      OwnPhiOpFrom(x, u, o);
    } else if u == x.phi && g.phis[u] == ResultPhi(x) {
      var j := ReturnsFrom(x, |x.callee.body.blocks|, o);
      TermUseIn(x.callee.body, j, x.callee.body.blocks[j].term.val);
    } else {
      var v :| v in x.callee.body.phis && v in x.vm && x.vm[v] == u && g.phis[u] == ClonePhi(x, x.callee.body.phis[v]);
      ClonePhiOpFrom(x, v, o);
    }
  }

  lemma OpUsed(f: Func, u: Value, v: Value, p: nat)
    requires GoodShape(f) && u in f.phis && (v, p) in f.phis[u].ops
    ensures UsedIn(f, v) && p < |f.blocks|
  {
    hide UsedIn, OneDef, DefinedIn;
    var j :| 0 <= j < |f.phis[u].ops| && f.phis[u].ops[j] == (v, p);
    PhiUseIn(f, u, j);
    assert PhiPlaced(f, u);
  }

  lemma OwnPhiOpFrom(x: Site, u: Value, o: (Value, nat))
    requires MayInline(x) && AtCall(x) && u in x.f.phis && o in OwnPhi(x, x.f.phis[u]).ops
    ensures o.1 <= Cont(x) && ComesFrom(x, o.0)
  {
    hide MayInline, GoodShape, OwnValue, CloneValue, MovePred, OwnOps, DefinedIn, UsedIn;
    InlineFacts(x);
    var ops := x.f.phis[u].ops;
    var moved := MovePred(ops, x.b, Cont(x));
    OwnOpsFrom(x, moved, o);
    var v :| (v, o.1) in moved && OwnValue(x, v) == o.0;
    MovedFrom(ops, x.b, Cont(x), (v, o.1));
    OpUsed(x.f, u, v, if (v, o.1) in ops then o.1 else x.b);
  }

  lemma ClonePhiOpFrom(x: Site, v: Value, o: (Value, nat))
    requires MayInline(x) && AtCall(x) && v in x.callee.body.phis && o in ClonePhi(x, x.callee.body.phis[v]).ops
    ensures o.1 <= Cont(x) && ComesFrom(x, o.0)
  {
    hide MayInline, GoodShape, OwnValue, CloneValue, CloneOps, DefinedIn, UsedIn;
    InlineFacts(x);
    CloneOpsFrom(x, x.callee.body.phis[v].ops, o);
    var u, p :| (u, p) in x.callee.body.phis[v].ops && CloneValue(x, u) == o.0 && o.1 == Clones(x) + p;
    OpUsed(x.callee.body, v, u, p);
  }

  // ---------------------------------------------------------------- uses

  lemma InstrUseFrom(x: Site, g: Func, b': nat, k': nat, w: Value)
    requires AtCall(x) && g.blocks == NewBlocks(x) && b' < |g.blocks| && k' < |g.blocks[b'].body| &&
               UsedBy(g.blocks[b'].body[k'], w)
    ensures ComesFrom(x, w)
  {
    hide NewBlocks, OwnValue, CloneValue, UsedIn, UsedBy, Rename;
    var own, b, k := Origin(x, g, b', k');
    if own {
      RenameUses(x.f.blocks[b].body[k].id, x.f.blocks[b].body[k], v => OwnValue(x, v), w);
      var v :| UsedBy(x.f.blocks[b].body[k], v) && OwnValue(x, v) == w;
      UseIn(x.f, b, k, v);
    } else {
      var i := x.callee.body.blocks[b].body[k];
      RenameUses(CloneId(x, i), i, v => CloneValue(x, v), w);
      var v :| UsedBy(i, v) && CloneValue(x, v) == w;
      UseIn(x.callee.body, b, k, v);
    }
  }

  lemma TermUseFrom(x: Site, g: Func, b': nat, w: Value)
    requires AtCall(x) && g.blocks == NewBlocks(x) && b' < |g.blocks| && UsedByTerm(g.blocks[b'].term, w)
    ensures ComesFrom(x, w)
  {
    hide NewBlocks, OwnValue, CloneValue, UsedIn;
    if b' < Clones(x) {
      OwnBlockAt(x, g, b');
      OwnTermUse(x, b', w);
    } else if b' < Cont(x) {
      CloneBlockAt(x, g, b' - Clones(x));
      CloneTermUse(x, b' - Clones(x), w);
    } else {
      ContBlockAt(x, g);
      OwnTermUse(x, x.b, w);
    }
  }

  lemma OwnTermUse(x: Site, b: nat, w: Value)
    requires AtCall(x) && b < |x.f.blocks| && UsedByTerm(OwnTerm(x, x.f.blocks[b].term), w)
    ensures ComesFrom(x, w)
  {
    hide OwnValue, UsedIn;
    var t := x.f.blocks[b].term;
    TermUseIn(x.f, b, if t.Ret? then t.val else t.cond);
  }

  lemma CloneTermUse(x: Site, b: nat, w: Value)
    requires AtCall(x) && b < |x.callee.body.blocks| && UsedByTerm(CloneTerm(x, x.callee.body.blocks[b].term), w)
    ensures ComesFrom(x, w)
  {
    hide CloneValue, UsedIn;
    TermUseIn(x.callee.body, b, x.callee.body.blocks[b].term.cond);
  }

  /** Every operand of the result is a renamed operand. */
  lemma UseFrom(x: Site, g: Func, w: Value)
    requires MayInline(x) && AtCall(x) && IsInlined(x, g) && UsedIn(g, w)
    ensures ComesFrom(x, w)
  {
    hide MayInline, IsInlined, NewBlocks, ComesFrom, UsedBy, UsedByTerm;
    BlocksAre(x, g);
    if b, k :| 0 <= b < |g.blocks| && 0 <= k < |g.blocks[b].body| && UsedBy(g.blocks[b].body[k], w) {
      InstrUseFrom(x, g, b, k, w);
    } else if b :| 0 <= b < |g.blocks| && UsedByTerm(g.blocks[b].term, w) {
      TermUseFrom(x, g, b, w);
    } else {
      var u, j :| u in g.phis && 0 <= j < |g.phis[u].ops| && g.phis[u].ops[j].0 == w;
      PhiOpFrom(x, g, u, g.phis[u].ops[j]);
    }
  }

  lemma UsedDefined(f: Func, v: Value)
    requires GoodShape(f) && UsedIn(f, v)
    ensures v.Const? || v.Arg? || DefinedIn(f, v)
  {
  }

  lemma OwnDefinedStays(x: Site, g: Func, v: Value)
    requires MayInline(x) && AtCall(x) && IsInlined(x, g) && DefinedIn(x.f, v) && v != CallValue(x)
    ensures DefinedIn(g, v)
  {
    hide MayInline, NewBlocks, OwnValue, OwnPhi;
    BlocksAre(x, g);
    if b, k :| 0 <= b < |x.f.blocks| && 0 <= k < |x.f.blocks[b].body| && Defines(x.f.blocks[b].body[k], v) {
      var b', k' := OwnIsThere(x, g, b, k);
      assert Defines(g.blocks[b'].body[k'], v);
    }
  }

  lemma CloneDefinedStays(x: Site, g: Func, v: Value)
    requires MayInline(x) && AtCall(x) && IsInlined(x, g) && DefinedIn(x.callee.body, v)
    ensures v in x.vm && DefinedIn(g, x.vm[v])
  {
    hide MayInline, NewBlocks, CloneValue, ClonePhi, CloneId;
    BlocksAre(x, g);
    CloneName(x, v);
    if b, k :|
      0 <= b < |x.callee.body.blocks| && 0 <= k < |x.callee.body.blocks[b].body| &&
      Defines(x.callee.body.blocks[b].body[k], v) {
      CloneIsThere(x, g, b, k);
      CloneIdIs(x, b, k);
      assert Defines(g.blocks[Clones(x) + b].body[k], x.vm[v]);
    }
  }

  lemma OwnUseDefined(x: Site, g: Func, u: Value)
    requires MayInline(x) && AtCall(x) && IsInlined(x, g) && UsedIn(x.f, u)
    ensures var w := OwnValue(x, u); w.Const? || w.Arg? || DefinedIn(g, w)
  {
    hide MayInline, GoodShape, NewBlocks, UsedIn;
    InlineFacts(x);
    UsedDefined(x.f, u);
    if u == CallValue(x) {
      assert x.callee.hasResult && x.phi in g.phis;
    } else if !u.Const? && !u.Arg? {
      OwnDefinedStays(x, g, u);
    }
  }

  /** The result's operands are its own values. */
  lemma InlinedUsesDefined(x: Site, g: Func, w: Value)
    requires MayInline(x) && AtCall(x) && IsInlined(x, g) && UsedIn(g, w)
    ensures w.Const? || w.Arg? || DefinedIn(g, w)
  {
    hide MayInline, IsInlined, GoodShape, OwnValue, UsedIn, DefinedIn;
    InlineFacts(x);
    UseFrom(x, g, w);
    if u :| UsedIn(x.f, u) && OwnValue(x, u) == w {
      OwnUseDefined(x, g, u);
    } else {
      var u :| UsedIn(x.callee.body, u) && CloneValue(x, u) == w;
      UsedDefined(x.callee.body, u);
      if u.Arg? {
        ArgUse(x, g, u);
      } else if !u.Const? {
        CloneDefinedStays(x, g, u);
        CloneName(x, u);
        CallIsDefined(x);
        CloneOwn(x, u);
      } else {
        CloneOwn(x, u);
      }
    }
  }

  lemma CloneOwn(x: Site, u: Value)
    requires MayInline(x) && AtCall(x) && (u.Const? || DefinedIn(x.callee.body, u)) && !u.Arg?
    ensures u.Const? ==> CloneValue(x, u) == u
    ensures !u.Const? ==> u in x.vm && CloneValue(x, u) == x.vm[u]
  {
    hide MayInline, DefinedIn;
    CallIsDefined(x);
    if !u.Const? {
      CloneName(x, u);
    }
  }

  lemma ArgUse(x: Site, g: Func, u: Value)
    requires MayInline(x) && AtCall(x) && IsInlined(x, g) && u.Arg?
    ensures var w := CloneValue(x, u); w.Const? || w.Arg? || DefinedIn(g, w)
  {
    hide MayInline, IsInlined, DefinedIn, UsedIn;
    if u.index < |TheCall(x).args| {
      UseIn(x.f, x.b, x.i, TheCall(x).args[u.index]);
      OwnUseDefined(x, g, TheCall(x).args[u.index]);
    }
  }

  lemma InlinedShape(x: Site, g: Func)
    requires MayInline(x) && AtCall(x) && IsInlined(x, g)
    ensures GoodShape(g)
  {
    hide MayInline, IsInlined, OneDef, ValidTargets, PhiPlaced, UsedIn, DefinedIn, NewBlocks;
    BlocksAre(x, g);
    InlinedTargets(x, g);
    InlinedOneDef(x, g);
    forall u | u in g.phis
      ensures PhiPlaced(g, u)
    {
      InlinedPhiPlaced(x, g, u);
    }
    forall w | UsedIn(g, w)
      ensures w.Const? || w.Arg? || DefinedIn(g, w)
    {
      InlinedUsesDefined(x, g, w);
    }
  }

  // ---------------------------------------------------------------- calls without result

  /** A value of the caller that nobody uses is not used after inlining. */
  lemma OwnStaysUnused(x: Site, g: Func, v: Value)
    requires MayInline(x) && AtCall(x) && IsInlined(x, g)
    requires v.Instr? && DefinedIn(x.f, v) && !UsedIn(x.f, v)
    ensures !UsedIn(g, v)
  {
    hide MayInline, IsInlined, GoodShape, UsedIn, DefinedIn, OwnValue;
    InlineFacts(x);
    if UsedIn(g, v) {
      UseFrom(x, g, v);
      if u :| UsedIn(x.f, u) && OwnValue(x, u) == v {
        OwnValueIs(x, u);
      } else {
        var u :| UsedIn(x.callee.body, u) && CloneValue(x, u) == v;
        CloneNotOwn(x, u, v);
      }
    }
  }

  lemma OwnValueIs(x: Site, u: Value)
    requires AtCall(x)
    ensures OwnValue(x, u) == u || (u == CallValue(x) && OwnValue(x, u) == x.phi)
  {
  }

  lemma CloneNotOwn(x: Site, u: Value, v: Value)
    requires MayInline(x) && AtCall(x) && UsedIn(x.callee.body, u)
    requires v.Instr? && v != x.phi && !UsedIn(x.f, v) && DefinedIn(x.f, v)
    ensures CloneValue(x, u) != v
  {
    hide MayInline, GoodShape, UsedIn, DefinedIn, OwnValue;
    InlineFacts(x);
    UsedDefined(x.callee.body, u);
    if u.Arg? {
      OwnValueIs(x, MapValue(x, u));
      if u.index < |TheCall(x).args| {
        UseIn(x.f, x.b, x.i, TheCall(x).args[u.index]);
      }
    } else {
      CloneOwn(x, u);
      if !u.Const? {
        CloneName(x, u);
      }
    }
  }

  /** Neither is the clone of a value that the callee does not use. */
  lemma CloneStaysUnused(x: Site, g: Func, v: Value)
    requires MayInline(x) && AtCall(x) && IsInlined(x, g)
    requires DefinedIn(x.callee.body, v) && !UsedIn(x.callee.body, v)
    ensures v in x.vm && !UsedIn(g, x.vm[v])
  {
    hide MayInline, IsInlined, GoodShape, UsedIn, DefinedIn, OwnValue, CloneValue;
    InlineFacts(x);
    CloneName(x, v);
    if UsedIn(g, x.vm[v]) {
      UseFrom(x, g, x.vm[v]);
      if u :| UsedIn(x.f, u) && OwnValue(x, u) == x.vm[v] {
        OwnValueIs(x, u);
        UsedDefined(x.f, u);
      } else {
        var u :| UsedIn(x.callee.body, u) && CloneValue(x, u) == x.vm[v];
        CloneNotClone(x, u, v);
      }
    }
  }

  lemma CloneNotClone(x: Site, u: Value, v: Value)
    requires MayInline(x) && AtCall(x) && UsedIn(x.callee.body, u)
    requires DefinedIn(x.callee.body, v) && u != v
    ensures v in x.vm && CloneValue(x, u) != x.vm[v]
  {
    hide MayInline, GoodShape, UsedIn, DefinedIn, OwnValue, CloneValue;
    InlineFacts(x);
    CloneName(x, v);
    UsedDefined(x.callee.body, u);
    if u.Arg? {
      CloneOfArg(x, u);
      OwnValueIs(x, MapValue(x, u));
      if u.index < |TheCall(x).args| {
        UseIn(x.f, x.b, x.i, TheCall(x).args[u.index]);
        UsedDefined(x.f, TheCall(x).args[u.index]);
      }
    } else {
      CloneOwn(x, u);
    }
  }

  lemma CloneOfArg(x: Site, u: Value)
    requires AtCall(x)
    ensures CloneValue(x, u) == OwnValue(x, MapValue(x, u))
  {
  }

  lemma InlinedVoidCalls(mod: Module, x: Site, g: Func)
    requires MayInline(x) && AtCall(x) && IsInlined(x, g)
    requires VoidCallsUnused(mod, x.f) && VoidCallsUnused(mod, x.callee.body)
    ensures VoidCallsUnused(mod, g)
  {
    hide MayInline, IsInlined, NewBlocks, UsedIn, OwnValue, CloneValue, CloneId, DefinedIn;
    BlocksAre(x, g);
    forall b', k' | 0 <= b' < |g.blocks| && 0 <= k' < |g.blocks[b'].body|
      ensures VoidCallUnused(mod, g, g.blocks[b'].body[k'])
    {
      var own, b, k := Origin(x, g, b', k');
      if own {
        var i := x.f.blocks[b].body[k];
        assert VoidCallUnused(mod, x.f, i);
        if IsCall(mod, i) && !mod[i.code.callee].hasResult {
          DefinesIn(x.f, b, k);
          OwnStaysUnused(x, g, Instr(i.id));
        }
      } else {
        var i := x.callee.body.blocks[b].body[k];
        assert VoidCallUnused(mod, x.callee.body, i);
        if IsCall(mod, i) && !mod[i.code.callee].hasResult {
          DefinesIn(x.callee.body, b, k);
          CloneIdIs(x, b, k);
          CloneStaysUnused(x, g, Instr(i.id));
        }
      }
    }
  }

  lemma VoidCallsSame(mod: Module, mod': Module, f: Func)
    requires VoidCallsUnused(mod, f) && |mod| == |mod'|
    requires forall g :: 0 <= g < |mod| ==> mod'[g].hasResult == mod[g].hasResult
    ensures VoidCallsUnused(mod', f)
  {
    hide UsedIn;
    forall b, k | 0 <= b < |f.blocks| && 0 <= k < |f.blocks[b].body|
      ensures VoidCallUnused(mod', f, f.blocks[b].body[k])
    {
      assert VoidCallUnused(mod, f, f.blocks[b].body[k]);
    }
  }

  /** The whole module stays well-formed. */
  lemma InliningKeepsOk(mod: Module, mod': Module, c: nat, x: Site)
    requires ModuleOk(mod) && Inlines(mod, mod', c, x)
    requires mod'[c].hasResult == mod[c].hasResult
    ensures ModuleOk(mod')
  {
    hide MayInline, IsInlined, GoodShape, VoidCallsUnused;
    NotItself(mod, mod', c, x);
    assert FunctionOk(mod, mod[c].body) && FunctionOk(mod, mod[Callee(x)].body);
    InlinedShape(x, mod'[c].body);
    InlinedVoidCalls(mod, x, mod'[c].body);
    forall g | 0 <= g < |mod'|
      ensures FunctionOk(mod', mod'[g].body)
    {
      assert FunctionOk(mod, mod[g].body);
      VoidCallsSame(mod, mod', mod'[g].body);
    }
  }
}
