/** Inlining one call preserves meaning: the two modules run in lock step.  A step into
    the callee matches the branch to its clone, a return matches the branch to the
    continuation, and all other steps match one to one. */
module InlineSim {
  import opened IR
  import opened SsaPaths
  import opened SsaState
  import opened Calls
  import opened InlineDef

  // ---------------------------------------------------------------- operand pairs

  ghost predicate NoPred(ops: seq<(Value, nat)>, p: nat) {
    forall j :: 0 <= j < |ops| ==> ops[j].1 != p
  }

  lemma {:induction false} IncomingConcat(a: seq<(Value, nat)>, b: seq<(Value, nat)>, p: nat)
    ensures Incoming(a + b, p) == if NoPred(a, p) then Incoming(b, p) else Incoming(a, p)
  {
    if a == [] {
      assert a + b == b;
    } else {
      assert (a + b)[1..] == a[1..] + b;
      IncomingConcat(a[1..], b, p);
      assert NoPred(a, p) <==> a[0].1 != p && NoPred(a[1..], p);
    }
  }

  lemma {:induction false} IncomingDrop(ops: seq<(Value, nat)>, p: nat, q: nat)
    ensures NoPred(DropPred(ops, p), p)
    ensures q != p ==> Incoming(DropPred(ops, p), q) == Incoming(ops, q)
    ensures NoPred(ops, q) ==> NoPred(DropPred(ops, p), q)
    ensures NoPred(ops, p) <==> CountPred(ops, p) == 0
  {
    if ops != [] {
      IncomingDrop(ops[1..], p, q);
      assert NoPred(ops, q) ==> NoPred(ops[1..], q);
      assert NoPred(ops, p) <==> ops[0].1 != p && NoPred(ops[1..], p);
      var d := DropPred(ops[1..], p);
      assert ([ops[0]] + d)[1..] == d;
    }
  }

  /** After the pairs of p have moved to q, q has p's value and others have theirs. */
  lemma IncomingMove(ops: seq<(Value, nat)>, p: nat, q: nat, r: nat)
    requires NoPred(ops, q) && p != q && r != q
    ensures Incoming(MovePred(ops, p, q), if r == p then q else r) == Incoming(ops, r)
  {
    var d, tail := DropPred(ops, p), seq(CountPred(ops, p), _ => (Incoming(ops, p), q));
    IncomingDrop(ops, p, r);
    IncomingDrop(ops, p, q);
    IncomingConcat(d, tail, if r == p then q else r);
    if r != p {
      assert NoPred(tail, r);
      if NoPred(d, r) {
        assert Incoming(d, r) == Const(0) && Incoming(tail, r) == Const(0);
      }
    }
  }

  lemma {:induction false} IncomingMap(ops: seq<(Value, nat)>, ops': seq<(Value, nat)>, p: nat, p': nat,
                                       r: Value -> Value)
    requires |ops| == |ops'| && r(Const(0)) == Const(0)
    requires forall j :: 0 <= j < |ops| ==> ops'[j].0 == r(ops[j].0) && (ops'[j].1 == p' <==> ops[j].1 == p)
    ensures Incoming(ops', p') == r(Incoming(ops, p))
  {
    if ops != [] {
      IncomingMap(ops[1..], ops'[1..], p, p', r);
    }
  }

  lemma IncomingOne(v: Value, p: nat)
    ensures Incoming([(v, p)], p) == v
  {
  }

  lemma {:induction false} IncomingReturn(x: Site, n: nat, j: nat)
    requires AtCall(x) && j < n <= |x.callee.body.blocks| && x.callee.body.blocks[j].term.Ret?
    ensures Incoming(Returns(x, n), Clones(x) + j) == CloneValue(x, x.callee.body.blocks[j].term.val)
  {
    hide CloneValue, NoPred, Incoming;
    IncomingOne(CloneValue(x, x.callee.body.blocks[j].term.val), Clones(x) + j);
    var t := x.callee.body.blocks[n - 1].term;
    var tail := if t.Ret? then [(CloneValue(x, t.val), Clones(x) + n - 1)] else [];
    IncomingConcat(Returns(x, n - 1), tail, Clones(x) + j);
    if j < n - 1 {
      IncomingReturn(x, n - 1, j);
      ReturnsHas(x, n - 1, j);
    } else {
      ReturnsOld(x, j);
    }
  }

  lemma ReturnsOld(x: Site, n: nat)
    requires AtCall(x) && n <= |x.callee.body.blocks|
    ensures NoPred(Returns(x, n), Clones(x) + n)
  {
    ReturnsPreds(x, n);
  }

  lemma {:induction false} ReturnsPreds(x: Site, n: nat)
    requires AtCall(x) && n <= |x.callee.body.blocks|
    ensures forall i :: 0 <= i < |Returns(x, n)| ==> Clones(x) <= Returns(x, n)[i].1 < Clones(x) + n
  {
    if n > 0 {
      ReturnsPreds(x, n - 1);
    }
  }

  lemma {:induction false} ReturnsHas(x: Site, n: nat, j: nat)
    requires AtCall(x) && j < n <= |x.callee.body.blocks| && x.callee.body.blocks[j].term.Ret?
    ensures !NoPred(Returns(x, n), Clones(x) + j)
  {
    var r := Returns(x, n - 1);
    var t := x.callee.body.blocks[n - 1].term;
    var tail := if t.Ret? then [(CloneValue(x, t.val), Clones(x) + n - 1)] else [];
    if j < n - 1 {
      ReturnsHas(x, n - 1, j);
      var i :| 0 <= i < |r| && r[i].1 == Clones(x) + j;
      assert (r + tail)[i] == r[i];
    } else {
      assert (r + tail)[|r|].1 == Clones(x) + j;
    }
  }

  // ---------------------------------------------------------------- the two modules

  function Callee(x: Site): nat
    requires AtCall(x)
  {
    TheCall(x).code.callee
  }

  ghost predicate Inlines(mod: Module, mod': Module, c: nat, x: Site) {
    && c < |mod| && mod[c].body == x.f
    && MayInline(x)
    && Callee(x) < |mod| && Callee(x) != c && mod[Callee(x)] == x.callee
    && |mod'| == |mod|
    && (forall g :: 0 <= g < |mod| && g != c ==> mod'[g] == mod[g])
    && mod'[c].numArgs == mod[c].numArgs
    && IsInlined(x, mod'[c].body)
  }

  /** The caller's values, before and after. */
  ghost predicate SameEnv(x: Site, e: map<Value, int>, e': map<Value, int>)
    requires AtCall(x)
  {
    forall v :: v in e ==> SameValue(x, e, e', v)
  }

  ghost predicate SameValue(x: Site, e: map<Value, int>, e': map<Value, int>, v: Value)
    requires AtCall(x) && v in e
  {
    && DefinedIn(x.f, v)
    && ((v == CallValue(x) && !x.callee.hasResult) || (OwnValue(x, v) in e' && e'[OwnValue(x, v)] == e[v]))
  }

  /** The callee's values and their clones. */
  ghost predicate ClonedEnv(x: Site, e: map<Value, int>, e': map<Value, int>) {
    forall v :: v in e ==> ClonedValue(x, e, e', v)
  }

  ghost predicate ClonedValue(x: Site, e: map<Value, int>, e': map<Value, int>, v: Value)
    requires v in e
  {
    DefinedIn(x.callee.body, v) && v in x.vm && x.vm[v] in e' && e'[x.vm[v]] == e[v]
  }

  ghost predicate ArgsPassed(x: Site, wait: Frame, args: seq<int>)
    requires AtCall(x)
  {
    && |args| == |TheCall(x).args|
    && forall j :: 0 <= j < |args| ==>
         Computed(TheCall(x).args[j], wait.env, wait.args) && args[j] == Eval(TheCall(x).args[j], wait.env, wait.args)
  }

  /** Where an instruction of the caller has gone. */
  predicate AtPlace(x: Site, fr: Frame, fr': Frame) {
    if fr.block == x.b && fr.k > x.i then fr'.block == Cont(x) && fr'.k == fr.k - x.i - 1
    else fr'.block == fr.block && fr'.k == fr.k
  }

  ghost predicate OwnFrame(x: Site, fr: Frame, fr': Frame)
    requires AtCall(x)
  {
    && fr'.fn == fr.fn && fr'.args == fr.args
    && fr.block < |x.f.blocks| && fr.k <= |x.f.blocks[fr.block].body|
    && AtPlace(x, fr, fr')
    && SameEnv(x, fr.env, fr'.env)
  }

  ghost predicate PlainFrame(c: nat, x: Site, fr: Frame, fr': Frame)
    requires AtCall(x)
  {
    if fr.fn == c then OwnFrame(x, fr, fr') else fr == fr'
  }

  /** A callee frame on top of the caller's, waiting at the call, is one frame in the
      clone. */
  ghost predicate FusedFrame(c: nat, x: Site, fr: Frame, wait: Frame, fr': Frame)
    requires AtCall(x)
  {
    && fr.fn == Callee(x) && wait.fn == c && fr'.fn == c && fr'.args == wait.args
    && wait.block == x.b && wait.k == x.i
    && fr.block < |x.callee.body.blocks| && fr.k <= |x.callee.body.blocks[fr.block].body|
    && fr'.block == Clones(x) + fr.block && fr'.k == fr.k
    && SameEnv(x, wait.env, fr'.env) && ClonedEnv(x, fr.env, fr'.env)
    && ArgsPassed(x, wait, fr.args)
  }

  ghost predicate InlinedCall(c: nat, x: Site, fr: Frame) {
    fr.fn == c && fr.block == x.b && fr.k == x.i
  }

  /** Frames correspond one to one, except that a frame waiting at the inlined call and
      the callee's frame above it are one.  Below the running frame no other frame waits
      there. */
  ghost predicate SameStack(c: nat, x: Site, s: seq<Frame>, s': seq<Frame>, running: bool)
    requires AtCall(x)
    decreases |s|
  {
    if s == [] then s' == []
    else
      s' != [] &&
      if s[0].fn == s'[0].fn then
        PlainFrame(c, x, s[0], s'[0]) && (running || !InlinedCall(c, x, s[0])) &&
          SameStack(c, x, s[1..], s'[1..], false)
      else
        |s| > 1 && FusedFrame(c, x, s[0], s[1], s'[0]) && SameStack(c, x, s[2..], s'[1..], false)
  }

  ghost predicate SameConfig(c: nat, x: Site, a: Config, b: Config)
    requires AtCall(x)
  {
    match a
    case Exec(s, w) => b.Exec? && b.world == w && s != [] && SameStack(c, x, s, b.stack, true)
    case Done(_, _) => b == a
    case Stuck => true
  }

  // ---------------------------------------------------------------- values

  lemma OwnEval(x: Site, v: Value, e: map<Value, int>, e': map<Value, int>, args: seq<int>)
    requires AtCall(x) && x.phi.Instr? && SameEnv(x, e, e') && Computed(v, e, args)
    requires v == CallValue(x) ==> x.callee.hasResult
    ensures Computed(OwnValue(x, v), e', args) && Eval(OwnValue(x, v), e', args) == Eval(v, e, args)
  {
    if v in e {
      assert SameValue(x, e, e', v);
    }
  }

  /** The call's own operands are never the result of a call without one. */
  lemma OperandOk(x: Site, j: nat)
    requires MayInline(x) && j < |TheCall(x).args|
    ensures TheCall(x).args[j] == CallValue(x) ==> x.callee.hasResult
  {
    assert UsedBy(x.f.blocks[x.b].body[x.i], TheCall(x).args[j]);
  }

  lemma CloneEval(c: nat, x: Site, v: Value, fr: Frame, wait: Frame, fr': Frame)
    requires MayInline(x) && FusedFrame(c, x, fr, wait, fr') && Computed(v, fr.env, fr.args)
    ensures Computed(CloneValue(x, v), fr'.env, fr'.args)
    ensures Eval(CloneValue(x, v), fr'.env, fr'.args) == Eval(v, fr.env, fr.args)
  {
    match v
    case Const(_) =>
    case Arg(j) =>
      OperandOk(x, j);
      OwnEval(x, TheCall(x).args[j], wait.env, fr'.env, wait.args);
    case _ =>
      assert ClonedValue(x, fr.env, fr'.env, v);
      assert DefinedIn(x.f, CallValue(x)) by { CallIsDefined(x); }
  }

  lemma CallIsDefined(x: Site)
    requires AtCall(x)
    ensures DefinedIn(x.f, CallValue(x))
  {
    assert Defines(x.f.blocks[x.b].body[x.i], CallValue(x));
  }

  // ---------------------------------------------------------------- one instruction

  ghost predicate SameOperands(i: Instruction, r: Value -> Value, fr: Frame, fr': Frame) {
    forall v :: UsedBy(i, v) ==>
      Computed(r(v), fr'.env, fr'.args) && Eval(r(v), fr'.env, fr'.args) == Eval(v, fr.env, fr.args)
  }

  lemma RenameUses(id: nat, i: Instruction, r: Value -> Value, u: Value)
    requires UsedBy(Rename(id, i, r), u)
    ensures exists v :: UsedBy(i, v) && r(v) == u
  {
    match i
    case Alloca(_) =>
    case Load(_, addr) => assert UsedBy(i, addr);
    case Store(_, addr, val) => assert UsedBy(i, addr) && UsedBy(i, val);
    case Op(_, _, args) =>
      var j :| 0 <= j < |args| && r(args[j]) == u;
      assert UsedBy(i, args[j]);
  }

  function Assigned(i: Instruction, id: nat, env: map<Value, int>, val: int): map<Value, int> {
    if i.Store? then env else env[Instr(id) := val]
  }

  /** The renamed instruction computes the same and has the same effect. */
  lemma SameAct(m: Machine, mod: Module, mod': Module, i: Instruction, id: nat, r: Value -> Value, fr: Frame,
                fr': Frame, w: int)
      returns (val: int, w2: int)
    requires |mod| == |mod'| && (forall g :: 0 <= g < |mod| ==> mod'[g].numArgs == mod[g].numArgs)
    requires Ready(i, fr) && SameOperands(i, r, fr, fr')
    ensures var a, a' := ActInstr(m, mod, i, fr, w), ActInstr(m, mod', Rename(id, i, r), fr', w);
            if IsCall(mod, i) then
              a == a' && (a.Push? ==> |a.args| == |i.args| && forall j :: 0 <= j < |a.args| ==>
                a.args[j] == Eval(i.args[j], fr.env, fr.args))
            else
              a == Goto(fr.(k := fr.k + 1, env := Assigned(i, i.id, fr.env, val)), w2) &&
              a' == Goto(fr'.(k := fr'.k + 1, env := Assigned(i, id, fr'.env, val)), w2)
  {
    var i' := Rename(id, i, r);
    forall u | UsedBy(i', u)
      ensures Computed(u, fr'.env, fr'.args)
    {
      RenameUses(id, i, r, u);
    }
    if i.Op? {
      assert forall j :: 0 <= j < |i.args| ==> UsedBy(i, i.args[j]);
      assert EvalAll(i'.args, fr'.env, fr'.args) == EvalAll(i.args, fr.env, fr.args);
    }
    if i.Load? {
      assert UsedBy(i, i.addr);
    }
    if i.Store? {
      assert UsedBy(i, i.addr) && UsedBy(i, i.val);
    }
    var s := ExecInstr(m, fr.args, {}, i, State(fr.env, map[], w));
    val := if i.Store? then 0 else s.env[Instr(i.id)];
    w2 := s.world;
  }

  // ---------------------------------------------------------------- where things are

  lemma OwnBlockAt(x: Site, g: Func, b: nat)
    requires AtCall(x) && g.blocks == NewBlocks(x) && b < |x.f.blocks|
    ensures b < |g.blocks| && g.blocks[b] == OwnBlock(x, b)
  {
  }

  lemma CloneBlockAt(x: Site, g: Func, b: nat)
    requires AtCall(x) && g.blocks == NewBlocks(x) && b < |x.callee.body.blocks|
    ensures Clones(x) + b < |g.blocks| && g.blocks[Clones(x) + b] == CloneBlock(x, b)
  {
  }

  lemma ContBlockAt(x: Site, g: Func)
    requires AtCall(x) && g.blocks == NewBlocks(x)
    ensures Cont(x) < |g.blocks| && g.blocks[Cont(x)] == ContBlock(x)
  {
  }

  /** The instruction or terminator of the caller that a frame is at, after inlining. */
  lemma OwnCodeAt(x: Site, g: Func, fr: Frame, fr': Frame)
    requires AtCall(x) && g.blocks == NewBlocks(x) && OwnFrame(x, fr, fr')
    ensures fr'.block < |g.blocks|
    ensures var body, body' := x.f.blocks[fr.block].body, g.blocks[fr'.block].body;
            if fr.block == x.b && fr.k == x.i then fr'.k == |body'| && g.blocks[fr'.block].term == Branch(Clones(x))
            else if fr.k < |body| then fr'.k < |body'| && body'[fr'.k] == OwnInstr(x, body[fr.k])
            else fr'.k == |body'| && g.blocks[fr'.block].term == OwnTerm(x, x.f.blocks[fr.block].term)
  {
    OwnBlockAt(x, g, fr.block);
    ContBlockAt(x, g);
  }

  lemma UseIn(f: Func, b: nat, k: nat, v: Value)
    requires b < |f.blocks| && k < |f.blocks[b].body| && UsedBy(f.blocks[b].body[k], v)
    ensures UsedIn(f, v)
  {
  }

  lemma TermUseIn(f: Func, b: nat, v: Value)
    requires b < |f.blocks| && UsedByTerm(f.blocks[b].term, v)
    ensures UsedIn(f, v)
  {
  }

  lemma PhiUseIn(f: Func, u: Value, j: nat)
    requires u in f.phis && j < |f.phis[u].ops|
    ensures UsedIn(f, f.phis[u].ops[j].0)
  {
  }

  /** What an edge does to one value. */
  lemma EnterAt(f: Func, args: seq<int>, p: nat, t: nat, s: State, v: Value)
    ensures var e := Enter(f, args, p, t, s).env;
            if v in f.phis && f.phis[v].block == t then v in e && e[v] == Eval(Incoming(f.phis[v].ops, p), s.env, args)
            else (v in e <==> v in s.env) && (v in e ==> e[v] == s.env[v])
  {
  }

  /** A frame at the end of its block. */
  lemma ActAtEnd(m: Machine, mod: Module, fr: Frame, w: int)
    requires fr.fn < |mod| && fr.block < |mod[fr.fn].body.blocks| && fr.k == |mod[fr.fn].body.blocks[fr.block].body|
    ensures Act(m, mod, fr, w) == ActTerm(mod[fr.fn].body, mod[fr.fn].body.blocks[fr.block].term, fr, w)
  {
  }

  lemma ActBranch(f: Func, fr: Frame, t: nat, w: int)
    ensures ActTerm(f, Branch(t), fr, w) == ActEdge(f, fr, t, w)
  {
  }

  // ---------------------------------------------------------------- plain frames

  lemma OwnAssign(x: Site, e: map<Value, int>, e': map<Value, int>, b: nat, k: nat, val: int)
    requires MayInline(x) && SameEnv(x, e, e') && b < |x.f.blocks| && k < |x.f.blocks[b].body|
    requires b != x.b || k != x.i
    ensures var i := x.f.blocks[b].body[k]; SameEnv(x, Assigned(i, i.id, e, val), Assigned(i, i.id, e', val))
  {
    var i := x.f.blocks[b].body[k];
    if !i.Store? {
      assert Defines(i, Instr(i.id));
      assert DefinedIn(x.f, Instr(i.id));
      assert DistinctDefs(x.f, b, k, x.b, x.i);
      assert Instr(i.id) != x.phi && Instr(i.id) != CallValue(x);
      var e2, e2' := e[Instr(i.id) := val], e'[Instr(i.id) := val];
      forall v | v in e2
        ensures SameValue(x, e2, e2', v)
      {
        if v != Instr(i.id) {
          assert SameValue(x, e, e', v);
        }
      }
    }
  }

  lemma OwnOperands(x: Site, fr: Frame, fr': Frame)
    requires MayInline(x) && OwnFrame(x, fr, fr') && fr.k < |x.f.blocks[fr.block].body|
    requires Ready(x.f.blocks[fr.block].body[fr.k], fr)
    ensures SameOperands(x.f.blocks[fr.block].body[fr.k], v => OwnValue(x, v), fr, fr')
  {
    var i := x.f.blocks[fr.block].body[fr.k];
    forall v | UsedBy(i, v)
      ensures var u := OwnValue(x, v);
                Computed(u, fr'.env, fr'.args) && Eval(u, fr'.env, fr'.args) == Eval(v, fr.env, fr.args)
    {
      UseIn(x.f, fr.block, fr.k, v);
      OwnEval(x, v, fr.env, fr'.env, fr.args);
    }
  }

  /** An instruction of the caller other than the call. */
  lemma OwnInstrStep(m: Machine, mod: Module, mod': Module, c: nat, x: Site, fr: Frame, fr': Frame, w: int)
    requires Inlines(mod, mod', c, x) && fr.fn == c && OwnFrame(x, fr, fr')
    requires fr.k < |x.f.blocks[fr.block].body| && !InlinedCall(c, x, fr)
    requires !Act(m, mod, fr, w).Error?
    ensures var a, a' := Act(m, mod, fr, w), Act(m, mod', fr', w);
            (a.Push? && a' == a) ||
            (a.Goto? && a'.Goto? && a'.world == a.world && a.fr.fn == c && OwnFrame(x, a.fr, a'.fr))
  {
    OwnCodeAt(x, mod'[c].body, fr, fr');
    var i := x.f.blocks[fr.block].body[fr.k];
    OwnOperands(x, fr, fr');
    var val, w2 := SameAct(m, mod, mod', i, i.id, v => OwnValue(x, v), fr, fr', w);
    OwnAssign(x, fr.env, fr'.env, fr.block, fr.k, val);
  }

  /** The phis of block t of the caller on the way from p, which is now p'. */
  lemma OwnIncoming(x: Site, v: Value, p: nat)
    requires MayInline(x) && v in x.f.phis && p < |x.f.blocks|
    ensures Incoming(OwnPhi(x, x.f.phis[v]).ops, if p == x.b then Cont(x) else p) ==
              OwnValue(x, Incoming(x.f.phis[v].ops, p))
  {
    var ops := x.f.phis[v].ops;
    assert PhiPlaced(x.f, v);
    var q := if p == x.b then Cont(x) else p;
    var moved := MovePred(ops, x.b, Cont(x));
    IncomingMove(ops, x.b, Cont(x), p);
    IncomingMap(moved, OwnOps(x, moved), q, q, u => OwnValue(x, u));
  }

  lemma {:induction false} IncomingUsed(f: Func, v: Value, p: nat)
    requires v in f.phis
    ensures Incoming(f.phis[v].ops, p) == Const(0) || UsedIn(f, Incoming(f.phis[v].ops, p))
  {
    var u := Incoming(f.phis[v].ops, p);
    if (u, p) in f.phis[v].ops {
      var j :| 0 <= j < |f.phis[v].ops| && f.phis[v].ops[j] == (u, p);
      PhiUseIn(f, v, j);
    }
  }

  lemma OwnPhiEval(x: Site, fr: Frame, env': map<Value, int>, v: Value)
    requires MayInline(x) && v in x.f.phis && fr.block < |x.f.blocks| && SameEnv(x, fr.env, env')
    requires Computed(Incoming(x.f.phis[v].ops, fr.block), fr.env, fr.args)
    ensures var u := Incoming(OwnPhi(x, x.f.phis[v]).ops, if fr.block == x.b then Cont(x) else fr.block);
            Computed(u, env', fr.args) &&
              Eval(u, env', fr.args) == Eval(Incoming(x.f.phis[v].ops, fr.block), fr.env, fr.args)
  {
    OwnIncoming(x, v, fr.block);
    IncomingUsed(x.f, v, fr.block);
    OwnEval(x, Incoming(x.f.phis[v].ops, fr.block), fr.env, env', fr.args);
  }

  /** The phis of a block of the caller are the same as before. */
  lemma OwnPhisAt(x: Site, g: Func, t: nat)
    requires MayInline(x) && IsInlined(x, g) && t < |x.f.blocks|
    ensures forall v :: v in g.phis && g.phis[v].block == t <==> v in x.f.phis && x.f.phis[v].block == t
  {
    assert forall u :: u in x.callee.body.phis && u in x.vm ==>
      x.vm[u] in g.phis && g.phis[x.vm[u]].block >= |x.f.blocks|;
  }

  lemma OwnEdge(x: Site, g: Func, fr: Frame, fr': Frame, t: nat, w: int)
    requires MayInline(x) && IsInlined(x, g) && fr.block < |x.f.blocks| && t < |x.f.blocks|
    requires fr'.block == (if fr.block == x.b then Cont(x) else fr.block) && fr'.args == fr.args && fr'.fn == fr.fn
    requires SameEnv(x, fr.env, fr'.env) && ReadyPhis(x.f, fr, t)
    ensures var a, a' := ActEdge(x.f, fr, t, w), ActEdge(g, fr', t, w);
            a.Goto? && a'.Goto? && a'.world == a.world && a.fr.fn == fr.fn && OwnFrame(x, a.fr, a'.fr)
  {
    hide MayInline, IsInlined, SameEnv, Incoming, Computed, Eval, OwnPhi, Enter;
    OwnPhisAt(x, g, t);
    NewPhiName(x);
    OwnPhiIs(x, g);
    forall v | v in x.f.phis && x.f.phis[v].block == t
      ensures var u, u' := Incoming(x.f.phis[v].ops, fr.block), Incoming(g.phis[v].ops, fr'.block);
              Computed(u', fr'.env, fr'.args) && Eval(u', fr'.env, fr'.args) == Eval(u, fr.env, fr.args)
    {
      OwnPhiEval(x, fr, fr'.env, v);
    }
    OwnEnter(x, g, fr, fr', t, w);
  }

  lemma OwnEnter(x: Site, g: Func, fr: Frame, fr': Frame, t: nat, w: int)
    requires MayInline(x) && SameEnv(x, fr.env, fr'.env)
    requires forall v :: v in g.phis && g.phis[v].block == t <==> v in x.f.phis && x.f.phis[v].block == t
    requires forall v :: v in x.f.phis && x.f.phis[v].block == t ==>
      v in g.phis && Eval(Incoming(g.phis[v].ops, fr'.block), fr'.env, fr'.args) ==
        Eval(Incoming(x.f.phis[v].ops, fr.block), fr.env, fr.args)
    ensures SameEnv(x, Enter(x.f, fr.args, fr.block, t, State(fr.env, map[], w)).env,
              Enter(g, fr'.args, fr'.block, t, State(fr'.env, map[], w)).env)
  {
    hide MayInline, Eval, Incoming;
    NewPhiName(x);
    OwnPhisDefined(x);
    var e := Enter(x.f, fr.args, fr.block, t, State(fr.env, map[], w)).env;
    var e' := Enter(g, fr'.args, fr'.block, t, State(fr'.env, map[], w)).env;
    forall v | v in e
      ensures SameValue(x, e, e', v)
    {
      if !(v in x.f.phis && x.f.phis[v].block == t) {
        assert SameValue(x, fr.env, fr'.env, v);
      }
    }
  }

  lemma OwnPhisDefined(x: Site)
    requires MayInline(x)
    ensures AtCall(x) && x.phi !in x.f.phis
    ensures forall v :: v in x.f.phis ==> DefinedIn(x.f, v) && v != CallValue(x)
  {
    forall v | v in x.f.phis
      ensures v != CallValue(x)
    {
      assert !Defines(x.f.blocks[x.b].body[x.i], v);
    }
  }

  lemma OwnPhiIs(x: Site, g: Func)
    requires MayInline(x) && IsInlined(x, g)
    ensures AtCall(x) && |g.blocks| == Cont(x) + 1
    ensures forall v :: v in x.f.phis ==> v in g.phis && g.phis[v] == OwnPhi(x, x.f.phis[v])
  {
  }

  lemma InlinedParts(mod: Module, mod': Module, c: nat, x: Site)
    requires Inlines(mod, mod', c, x)
    ensures AtCall(x) && x.phi.Instr?
    ensures mod'[c].body.blocks == NewBlocks(x)
    ensures forall b, t :: 0 <= b < |x.callee.body.blocks| && t in Succs(x.callee.body.blocks[b].term) ==>
              t < |x.callee.body.blocks|
  {
  }

  lemma WellShaped(x: Site, b: nat)
    requires MayInline(x) && b < |x.f.blocks|
    ensures AtCall(x) && x.phi.Instr?
    ensures forall t :: t in Succs(x.f.blocks[b].term) ==> t < |x.f.blocks|
    ensures !x.callee.hasResult ==> !UsedIn(x.f, CallValue(x))
  {
  }

  /** A terminator of the caller. */
  lemma OwnTermStep(m: Machine, mod: Module, mod': Module, c: nat, x: Site, fr: Frame, fr': Frame, w: int)
    requires Inlines(mod, mod', c, x) && fr.fn == c && OwnFrame(x, fr, fr')
    requires fr.k == |x.f.blocks[fr.block].body|
    requires !Act(m, mod, fr, w).Error?
    ensures var a, a' := Act(m, mod, fr, w), Act(m, mod', fr', w);
            (a.Pop? && a' == a) ||
            (a.Goto? && a'.Goto? && a'.world == a.world && a.fr.fn == c && OwnFrame(x, a.fr, a'.fr))
  {
    hide IsInlined, MayInline, SameEnv, ReadyPhis, ActEdge, Act, NewBlocks, UsedIn, OwnValue, Computed, Eval;
    WellShaped(x, fr.block);
    InlinedParts(mod, mod', c, x);
    OwnCodeAt(x, mod'[c].body, fr, fr');
    ActAtEnd(m, mod, fr, w);
    ActAtEnd(m, mod', fr', w);
    var t := x.f.blocks[fr.block].term;
    forall v | UsedByTerm(t, v)
      ensures var u := OwnValue(x, v);
                Computed(u, fr'.env, fr'.args) && Eval(u, fr'.env, fr'.args) == Eval(v, fr.env, fr.args)
    {
      TermUseIn(x.f, fr.block, v);
      OwnEval(x, v, fr.env, fr'.env, fr.args);
    }
    if !t.Ret? {
      var n := Next(t, State(fr.env, map[], w), fr.args);
      assert n in Succs(t);
      EdgeReady(x.f, fr, n, w);
      OwnEdge(x, mod'[c].body, fr, fr', n, w);
    }
  }

  // ---------------------------------------------------------------- fused frames

  lemma CloneAssign(x: Site, e: map<Value, int>, e': map<Value, int>, b: nat, k: nat, val: int)
    requires MayInline(x) && ClonedEnv(x, e, e') && b < |x.callee.body.blocks| && k < |x.callee.body.blocks[b].body|
    ensures var i := x.callee.body.blocks[b].body[k];
              ClonedEnv(x, Assigned(i, i.id, e, val), Assigned(i, CloneId(x, i), e', val))
  {
    var i := x.callee.body.blocks[b].body[k];
    if !i.Store? {
      assert Defines(i, Instr(i.id));
      assert DefinedIn(x.callee.body, Instr(i.id));
      var e2, e2' := e[Instr(i.id) := val], e'[Instr(CloneId(x, i)) := val];
      forall v | v in e2
        ensures ClonedValue(x, e2, e2', v)
      {
        if v != Instr(i.id) {
          assert ClonedValue(x, e, e', v);
        }
      }
    }
  }

  /** A clone's result does not touch the caller's values. */
  lemma CloneAssignOwn(x: Site, e: map<Value, int>, e': map<Value, int>, b: nat, k: nat, val: int)
    requires MayInline(x) && SameEnv(x, e, e') && b < |x.callee.body.blocks| && k < |x.callee.body.blocks[b].body|
    ensures var i := x.callee.body.blocks[b].body[k]; SameEnv(x, e, Assigned(i, CloneId(x, i), e', val))
  {
    var i := x.callee.body.blocks[b].body[k];
    if !i.Store? {
      assert Defines(i, Instr(i.id));
      assert DefinedIn(x.callee.body, Instr(i.id));
      var e2' := e'[Instr(CloneId(x, i)) := val];
      forall v | v in e
        ensures SameValue(x, e, e2', v)
      {
        assert SameValue(x, e, e', v);
      }
    }
  }

  lemma CloneInstrStep(m: Machine, mod: Module, mod': Module, c: nat, x: Site, fr: Frame, wait: Frame, fr': Frame,
                       w: int)
    requires Inlines(mod, mod', c, x) && FusedFrame(c, x, fr, wait, fr')
    requires fr.k < |x.callee.body.blocks[fr.block].body|
    requires !Act(m, mod, fr, w).Error?
    ensures var a, a' := Act(m, mod, fr, w), Act(m, mod', fr', w);
            (a.Push? && a' == a) ||
            (a.Goto? && a'.Goto? && a'.world == a.world && FusedFrame(c, x, a.fr, wait, a'.fr))
  {
    hide MayInline, SameEnv, ClonedEnv, IsInlined;
    InlinedParts(mod, mod', c, x);
    CloneBlockAt(x, mod'[c].body, fr.block);
    var i := x.callee.body.blocks[fr.block].body[fr.k];
    forall v | UsedBy(i, v)
      ensures var u := CloneValue(x, v);
                Computed(u, fr'.env, fr'.args) && Eval(u, fr'.env, fr'.args) == Eval(v, fr.env, fr.args)
    {
      CloneEval(c, x, v, fr, wait, fr');
    }
    var val, w2 := SameAct(m, mod, mod', i, CloneId(x, i), v => CloneValue(x, v), fr, fr', w);
    CloneAssign(x, fr.env, fr'.env, fr.block, fr.k, val);
    CloneAssignOwn(x, wait.env, fr'.env, fr.block, fr.k, val);
  }

  lemma CloneConst(x: Site)
    requires AtCall(x)
    ensures CloneValue(x, Const(0)) == Const(0)
  {
  }

  lemma CloneIncoming(x: Site, v: Value, p: nat)
    requires AtCall(x) && v in x.callee.body.phis
    ensures Incoming(ClonePhi(x, x.callee.body.phis[v]).ops, Clones(x) + p) ==
              CloneValue(x, Incoming(x.callee.body.phis[v].ops, p))
  {
    hide CloneValue;
    var ops := x.callee.body.phis[v].ops;
    CloneConst(x);
    IncomingMap(ops, CloneOps(x, ops), p, Clones(x) + p, u => CloneValue(x, u));
  }

  /** The phis of a cloned block are the clones of the callee's. */
  lemma ClonePhisAt(x: Site, g: Func, t: nat)
    requires MayInline(x) && IsInlined(x, g) && t < |x.callee.body.blocks|
    ensures forall v :: v in x.callee.body.phis && x.callee.body.phis[v].block == t ==>
              v in x.vm && x.vm[v] in g.phis && g.phis[x.vm[v]].block == Clones(x) + t
    ensures forall u :: u in g.phis && g.phis[u].block == Clones(x) + t ==>
              ClonedPhi(x, u) && forall v :: v in x.callee.body.phis && v in x.vm && x.vm[v] == u ==>
                x.callee.body.phis[v].block == t
  {
    forall u | u in g.phis && u in x.f.phis
      ensures g.phis[u].block < |x.f.blocks|
    {
      assert PhiPlaced(x.f, u);
    }
  }

  lemma ClonePhiIs(x: Site, g: Func, v: Value)
    requires MayInline(x) && IsInlined(x, g) && v in x.callee.body.phis
    ensures AtCall(x) && v in x.vm && x.vm[v] in g.phis && g.phis[x.vm[v]] == ClonePhi(x, x.callee.body.phis[v])
  {
  }

  lemma FusedPlace(c: nat, x: Site, fr: Frame, wait: Frame, fr': Frame)
    requires AtCall(x) && FusedFrame(c, x, fr, wait, fr')
    ensures fr'.block == Clones(x) + fr.block
  {
  }

  lemma ClonePhiEval(c: nat, x: Site, g: Func, fr: Frame, wait: Frame, fr': Frame, v: Value)
    requires MayInline(x) && IsInlined(x, g) && FusedFrame(c, x, fr, wait, fr') && v in x.callee.body.phis
    requires Computed(Incoming(x.callee.body.phis[v].ops, fr.block), fr.env, fr.args)
    ensures v in x.vm && x.vm[v] in g.phis
    ensures var u, u' := Incoming(x.callee.body.phis[v].ops, fr.block), Incoming(g.phis[x.vm[v]].ops, fr'.block);
            Computed(u', fr'.env, fr'.args) && Eval(u', fr'.env, fr'.args) == Eval(u, fr.env, fr.args)
  {
    hide MayInline, IsInlined, FusedFrame, Computed, Eval, Incoming, CloneValue, CloneOps;
    ClonePhiIs(x, g, v);
    CloneIncoming(x, v, fr.block);
    FusedPlace(c, x, fr, wait, fr');
    CloneEval(c, x, Incoming(x.callee.body.phis[v].ops, fr.block), fr, wait, fr');
  }

  ghost predicate PhiAgrees(x: Site, g: Func, fr: Frame, fr': Frame, v: Value)
    requires v in x.callee.body.phis
  {
    v in x.vm && x.vm[v] in g.phis &&
    Eval(Incoming(g.phis[x.vm[v]].ops, fr'.block), fr'.env, fr'.args) ==
      Eval(Incoming(x.callee.body.phis[v].ops, fr.block), fr.env, fr.args)
  }

  lemma CloneEdge(c: nat, x: Site, g: Func, fr: Frame, wait: Frame, fr': Frame, t: nat, w: int)
    requires MayInline(x) && IsInlined(x, g) && FusedFrame(c, x, fr, wait, fr') && t < |x.callee.body.blocks|
    requires ReadyPhis(x.callee.body, fr, t)
    ensures var a, a' := ActEdge(x.callee.body, fr, t, w), ActEdge(g, fr', Clones(x) + t, w);
            a.Goto? && a'.Goto? && a'.world == a.world && FusedFrame(c, x, a.fr, wait, a'.fr)
  {
    hide MayInline, IsInlined, SameEnv, ClonedEnv, Enter, ArgsPassed;
    ClonePhisAt(x, g, t);
    OwnPhiIs(x, g);
    var t' := Clones(x) + t;
    forall v | v in x.callee.body.phis && x.callee.body.phis[v].block == t
      ensures var u, u' := Incoming(x.callee.body.phis[v].ops, fr.block), Incoming(g.phis[x.vm[v]].ops, fr'.block);
              Computed(u', fr'.env, fr'.args) && PhiAgrees(x, g, fr, fr', v)
    {
      ClonePhiEval(c, x, g, fr, wait, fr', v);
    }
    forall u | u in g.phis && g.phis[u].block == t'
      ensures Computed(Incoming(g.phis[u].ops, fr'.block), fr'.env, fr'.args)
    {
      var v :| v in x.callee.body.phis && v in x.vm && x.vm[v] == u;
    }
    CloneEnter(c, x, g, fr, wait, fr', t, w);
  }

  lemma CloneEnter(c: nat, x: Site, g: Func, fr: Frame, wait: Frame, fr': Frame, t: nat, w: int)
    requires MayInline(x) && IsInlined(x, g) && FusedFrame(c, x, fr, wait, fr') && t < |x.callee.body.blocks|
    requires forall v :: v in x.callee.body.phis && x.callee.body.phis[v].block == t ==> PhiAgrees(x, g, fr, fr', v)
    ensures var e := Enter(x.callee.body, fr.args, fr.block, t, State(fr.env, map[], w)).env;
            var e' := Enter(g, fr'.args, fr'.block, Clones(x) + t, State(fr'.env, map[], w)).env;
            ClonedEnv(x, e, e') && SameEnv(x, wait.env, e')
  {
    CloneEnterCloned(c, x, g, fr, wait, fr', t, w);
    CloneEnterOwn(c, x, g, fr, wait, fr', t, w);
  }

  lemma CloneEnterCloned(c: nat, x: Site, g: Func, fr: Frame, wait: Frame, fr': Frame, t: nat, w: int)
    requires MayInline(x) && IsInlined(x, g) && FusedFrame(c, x, fr, wait, fr') && t < |x.callee.body.blocks|
    requires forall v :: v in x.callee.body.phis && x.callee.body.phis[v].block == t ==> PhiAgrees(x, g, fr, fr', v)
    ensures var e := Enter(x.callee.body, fr.args, fr.block, t, State(fr.env, map[], w)).env;
            var e' := Enter(g, fr'.args, fr'.block, Clones(x) + t, State(fr'.env, map[], w)).env;
            ClonedEnv(x, e, e')
  {
    hide MayInline, IsInlined, Computed, Eval, Incoming, SameEnv, ArgsPassed, Enter;
    ClonePhisAt(x, g, t);
    CloneNames(x);
    var e := Enter(x.callee.body, fr.args, fr.block, t, State(fr.env, map[], w)).env;
    var e' := Enter(g, fr'.args, fr'.block, Clones(x) + t, State(fr'.env, map[], w)).env;
    forall v | v in e
      ensures ClonedValue(x, e, e', v)
    {
      EnterAt(x.callee.body, fr.args, fr.block, t, State(fr.env, map[], w), v);
      EnterAt(g, fr'.args, fr'.block, Clones(x) + t, State(fr'.env, map[], w), if v in x.vm then x.vm[v] else v);
      if v in x.callee.body.phis && x.callee.body.phis[v].block == t {
        assert PhiAgrees(x, g, fr, fr', v);
      } else {
        assert ClonedValue(x, fr.env, fr'.env, v);
      }
    }
  }

  lemma CloneEnterOwn(c: nat, x: Site, g: Func, fr: Frame, wait: Frame, fr': Frame, t: nat, w: int)
    requires MayInline(x) && IsInlined(x, g) && FusedFrame(c, x, fr, wait, fr') && t < |x.callee.body.blocks|
    ensures SameEnv(x, wait.env, Enter(g, fr'.args, fr'.block, Clones(x) + t, State(fr'.env, map[], w)).env)
  {
    hide MayInline, IsInlined, Computed, Eval, Incoming, ClonedEnv, ArgsPassed;
    NewPhiName(x);
    ClonePhisAt(x, g, t);
    var e' := Enter(g, fr'.args, fr'.block, Clones(x) + t, State(fr'.env, map[], w)).env;
    forall v | v in wait.env
      ensures SameValue(x, wait.env, e', v)
    {
      assert SameValue(x, wait.env, fr'.env, v);
      OwnIsNoClone(x, v);
    }
  }

  lemma CloneNames(x: Site)
    requires MayInline(x)
    ensures AtCall(x) && Injective(x.vm)
    ensures forall v :: v in x.callee.body.phis ==> DefinedIn(x.callee.body, v)
  {
  }

  lemma OwnIsNoClone(x: Site, v: Value)
    requires MayInline(x) && DefinedIn(x.f, v)
    ensures forall u :: u in x.callee.body.phis && u in x.vm ==> x.vm[u] != OwnValue(x, v)
  {
    forall u | u in x.callee.body.phis && u in x.vm
      ensures x.vm[u] != OwnValue(x, v)
    {
      assert DefinedIn(x.callee.body, u);
    }
  }

  /** The phi takes the place of the call's result. */
  lemma ReturnEnv(x: Site, g: Func, e: map<Value, int>, fr': Frame, val: int, w: int)
    requires MayInline(x) && IsInlined(x, g) && SameEnv(x, e, fr'.env)
    requires x.callee.hasResult ==> Eval(Incoming(ResultPhi(x).ops, fr'.block), fr'.env, fr'.args) == val
    ensures SameEnv(x, e[CallValue(x) := val], Enter(g, fr'.args, fr'.block, Cont(x), State(fr'.env, map[], w)).env)
  {
    hide MayInline, IsInlined, Enter, Incoming, Eval, ResultPhi;
    NewPhiName(x);
    ContPhis(x, g);
    CallIsDefined(x);
    var e2 := e[CallValue(x) := val];
    var e2' := Enter(g, fr'.args, fr'.block, Cont(x), State(fr'.env, map[], w)).env;
    forall v | v in e2
      ensures SameValue(x, e2, e2', v)
    {
      EnterAt(g, fr'.args, fr'.block, Cont(x), State(fr'.env, map[], w), OwnValue(x, v));
      if v != CallValue(x) {
        assert SameValue(x, e, fr'.env, v);
      }
    }
  }

  /** A return: the caller goes on behind the call. */
  lemma ReturnStep(c: nat, x: Site, g: Func, fr: Frame, wait: Frame, fr': Frame, val: int, w: int)
    requires MayInline(x) && IsInlined(x, g) && FusedFrame(c, x, fr, wait, fr')
    requires x.callee.body.blocks[fr.block].term.Ret?
    requires var u := CloneValue(x, x.callee.body.blocks[fr.block].term.val);
             Computed(u, fr'.env, fr'.args) && Eval(u, fr'.env, fr'.args) == val
    ensures var a' := ActEdge(g, fr', Cont(x), w);
            a'.Goto? && a'.world == w &&
            OwnFrame(x, wait.(k := wait.k + 1, env := wait.env[CallValue(x) := val]), a'.fr)
  {
    hide MayInline, IsInlined, ClonedEnv, ArgsPassed, SameEnv, Computed, Eval, Enter, Incoming, CloneValue, Returns;
    NewPhiName(x);
    OwnPhiIs(x, g);
    ContPhis(x, g);
    IncomingReturn(x, |x.callee.body.blocks|, fr.block);
    ReturnEnv(x, g, wait.env, fr', val, w);
  }

  lemma NewPhiName(x: Site)
    requires MayInline(x)
    ensures AtCall(x) && x.phi.Instr? && !DefinedIn(x.f, x.phi) && x.phi != CallValue(x)
    ensures x.i < |x.f.blocks[x.b].body|
  {
    CallIsDefined(x);
  }

  lemma ContPhis(x: Site, g: Func)
    requires MayInline(x) && IsInlined(x, g)
    ensures forall u :: u in g.phis && g.phis[u].block == Cont(x) <==> x.callee.hasResult && u == x.phi
    ensures x.callee.hasResult ==> g.phis[x.phi] == ResultPhi(x)
  {
    forall u | u in g.phis && u in x.f.phis
      ensures g.phis[u].block < |x.f.blocks|
    {
      assert PhiPlaced(x.f, u);
    }
    forall v | v in x.callee.body.phis && v in x.vm
      ensures x.vm[v] in g.phis && g.phis[x.vm[v]].block < Cont(x)
    {
      assert PhiPlaced(x.callee.body, v);
    }
  }

  lemma CloneTermStep(m: Machine, mod: Module, mod': Module, c: nat, x: Site, fr: Frame, wait: Frame, fr': Frame,
                      w: int)
    requires Inlines(mod, mod', c, x) && FusedFrame(c, x, fr, wait, fr')
    requires fr.k == |x.callee.body.blocks[fr.block].body|
    requires !Act(m, mod, fr, w).Error?
    ensures var a, a' := Act(m, mod, fr, w), Act(m, mod', fr', w);
            a'.Goto? &&
            ((a.Goto? && a'.world == a.world && FusedFrame(c, x, a.fr, wait, a'.fr)) ||
             (a.Pop? && a'.world == w &&
               OwnFrame(x, wait.(k := wait.k + 1, env := wait.env[CallValue(x) := a.val]), a'.fr)))
  {
    hide MayInline, SameEnv, ClonedEnv, IsInlined, ReadyPhis, ActEdge, Act, NewBlocks, ArgsPassed, CloneValue,
      Computed, Eval;
    InlinedParts(mod, mod', c, x);
    CloneBlockAt(x, mod'[c].body, fr.block);
    ContBlockAt(x, mod'[c].body);
    ActAtEnd(m, mod, fr, w);
    ActAtEnd(m, mod', fr', w);
    ActBranch(mod'[c].body, fr', Cont(x), w);
    var t := x.callee.body.blocks[fr.block].term;
    forall v | UsedByTerm(t, v)
      ensures var u := CloneValue(x, v);
                Computed(u, fr'.env, fr'.args) && Eval(u, fr'.env, fr'.args) == Eval(v, fr.env, fr.args)
    {
      CloneEval(c, x, v, fr, wait, fr');
    }
    if t.Ret? {
      ReturnStep(c, x, mod'[c].body, fr, wait, fr', Eval(t.val, fr.env, fr.args), w);
    } else {
      var n := Next(t, State(fr.env, map[], w), fr.args);
      assert n in Succs(t);
      EdgeReady(x.callee.body, fr, n, w);
      CloneEdge(c, x, mod'[c].body, fr, wait, fr', n, w);
    }
  }

  lemma EdgeReady(f: Func, fr: Frame, t: nat, w: int)
    requires !ActEdge(f, fr, t, w).Error?
    ensures t < |f.blocks| && ReadyPhis(f, fr, t)
  {
  }

  // ---------------------------------------------------------------- calls and returns

  /** Other functions are what they were. */
  lemma OtherAct(m: Machine, mod: Module, mod': Module, c: nat, x: Site, fr: Frame, w: int)
    requires Inlines(mod, mod', c, x) && fr.fn != c
    ensures Act(m, mod', fr, w) == Act(m, mod, fr, w)
    ensures forall val :: Assign(mod', fr, val) == Assign(mod, fr, val)
  {
    hide MayInline, IsInlined, Ready, ReadyTerm, ReadyPhis, ActTerm, ExecInstr;
  }

  /** The inlined call: the callee's frame on the waiting one is a frame at its clone. */
  lemma CallStep(m: Machine, mod: Module, mod': Module, c: nat, x: Site, fr: Frame, fr': Frame, w: int)
    requires Inlines(mod, mod', c, x) && InlinedCall(c, x, fr) && OwnFrame(x, fr, fr')
    requires !Act(m, mod, fr, w).Error?
    ensures var a, a' := Act(m, mod, fr, w), Act(m, mod', fr', w);
            a.Push? && a'.Goto? && a'.world == w && FusedFrame(c, x, Frame(a.callee, 0, 0, map[], a.args), fr, a'.fr)
  {
    hide MayInline, IsInlined, SameEnv, Enter, Computed, Eval, NewBlocks, ActEdge, Incoming;
    NewPhiName(x);
    InlinedParts(mod, mod', c, x);
    OwnCodeAt(x, mod'[c].body, fr, fr');
    ActAtEnd(m, mod', fr', w);
    ActBranch(mod'[c].body, fr', Clones(x), w);
    CloneEntry(x, mod'[c].body, fr', w);
    CallArgs(x, fr);
  }

  lemma CallArgs(x: Site, fr: Frame)
    requires AtCall(x) && Ready(TheCall(x), fr)
    ensures ArgsPassed(x, fr, EvalAll(TheCall(x).args, fr.env, fr.args))
  {
    hide Computed;
    forall j | 0 <= j < |TheCall(x).args|
      ensures Computed(TheCall(x).args[j], fr.env, fr.args)
    {
      assert UsedBy(TheCall(x), TheCall(x).args[j]);
    }
  }

  /** The cloned entry has no phis. */
  lemma NoEntryPhis(x: Site, g: Func)
    requires MayInline(x) && IsInlined(x, g)
    ensures AtCall(x) && |x.callee.body.blocks| > 0
    ensures forall u :: u in g.phis ==> g.phis[u].block != Clones(x)
  {
    hide ClonePhi, OwnPhi, ResultPhi;
    ClonePhisAt(x, g, 0);
    forall v | v in x.callee.body.phis
      ensures x.callee.body.phis[v].block != 0
    {
      assert PhiPlaced(x.callee.body, v);
    }
  }

  lemma CloneEntry(x: Site, g: Func, fr': Frame, w: int)
    requires MayInline(x) && IsInlined(x, g)
    ensures AtCall(x) && |x.callee.body.blocks| > 0
    ensures ActEdge(g, fr', Clones(x), w) == Goto(fr'.(block := Clones(x), k := 0), w)
  {
    hide Computed, Incoming, Eval, MayInline, IsInlined;
    NoEntryPhis(x, g);
    OwnPhiIs(x, g);
    assert Enter(g, fr'.args, fr'.block, Clones(x), State(fr'.env, map[], w)).env == fr'.env;
  }

  lemma OwnResume(mod: Module, mod': Module, c: nat, x: Site, fr: Frame, fr': Frame, val: int)
    requires Inlines(mod, mod', c, x) && fr.fn == c && !InlinedCall(c, x, fr) && OwnFrame(x, fr, fr')
    ensures OwnFrame(x, Assign(mod, fr, val), Assign(mod', fr', val))
    ensures Assign(mod, fr, val).fn == c
  {
    hide MayInline, IsInlined, SameEnv, NewBlocks;
    InlinedParts(mod, mod', c, x);
    OwnCodeAt(x, mod'[c].body, fr, fr');
    if fr.k < |x.f.blocks[fr.block].body| {
      OwnAssign(x, fr.env, fr'.env, fr.block, fr.k, val);
    }
  }

  lemma CloneResume(mod: Module, mod': Module, c: nat, x: Site, fr: Frame, wait: Frame, fr': Frame, val: int)
    requires Inlines(mod, mod', c, x) && FusedFrame(c, x, fr, wait, fr')
    ensures FusedFrame(c, x, Assign(mod, fr, val), wait, Assign(mod', fr', val))
  {
    hide MayInline, IsInlined, SameEnv, ClonedEnv, ArgsPassed, NewBlocks;
    InlinedParts(mod, mod', c, x);
    CloneBlockAt(x, mod'[c].body, fr.block);
    if fr.k < |x.callee.body.blocks[fr.block].body| {
      CloneAssign(x, fr.env, fr'.env, fr.block, fr.k, val);
      CloneAssignOwn(x, wait.env, fr'.env, fr.block, fr.k, val);
    }
  }

  lemma ResumeSame(mod: Module, mod': Module, c: nat, x: Site, s: seq<Frame>, s': seq<Frame>, val: int, w: int)
    requires Inlines(mod, mod', c, x) && SameStack(c, x, s, s', false)
    ensures SameConfig(c, x, Resume(mod, s, val, w), Resume(mod', s', val, w))
  {
    hide Inlines, OwnFrame, FusedFrame, Assign;
    NotItself(mod, mod', c, x);
    if s != [] {
      var fr, fr' := s[0], s'[0];
      var t, t' := Resume(mod, s, val, w).stack, Resume(mod', s', val, w).stack;
      assert t[1..] == s[1..] && t'[1..] == s'[1..];
      if fr.fn != fr'.fn {
        CloneResume(mod, mod', c, x, fr, s[1], fr', val);
        assert t[2..] == s[2..];
        StackFused(c, x, t, t', true);
      } else {
        if fr.fn == c {
          OwnResume(mod, mod', c, x, fr, fr', val);
        } else {
          OtherResume(mod, mod', c, x, fr, val);
        }
        StackPlain(c, x, t, t', true);
      }
    }
  }

  lemma OtherResume(mod: Module, mod': Module, c: nat, x: Site, fr: Frame, val: int)
    requires Inlines(mod, mod', c, x) && fr.fn != c
    ensures Assign(mod', fr, val) == Assign(mod, fr, val) && Assign(mod, fr, val).fn == fr.fn
  {
  }

  lemma OwnSameFn(c: nat, x: Site, fr: Frame, fr': Frame)
    requires AtCall(x) && PlainFrame(c, x, fr, fr')
    ensures fr.fn == fr'.fn
  {
  }

  lemma StackPlain(c: nat, x: Site, s: seq<Frame>, s': seq<Frame>, running: bool)
    requires AtCall(x) && s != [] && s' != [] && PlainFrame(c, x, s[0], s'[0]) && (running || !InlinedCall(c, x, s[0]))
    requires SameStack(c, x, s[1..], s'[1..], false)
    ensures SameStack(c, x, s, s', running)
  {
    OwnSameFn(c, x, s[0], s'[0]);
  }

  lemma StackFused(c: nat, x: Site, s: seq<Frame>, s': seq<Frame>, running: bool)
    requires AtCall(x) && |s| > 1 && s' != [] && FusedFrame(c, x, s[0], s[1], s'[0]) && Callee(x) != c
    requires SameStack(c, x, s[2..], s'[1..], false)
    ensures SameStack(c, x, s, s', running)
  {
  }

  /** A new frame on top of two related stacks. */
  lemma PushSame(mod: Module, mod': Module, c: nat, x: Site, g: nat, args: seq<int>, s: seq<Frame>, s': seq<Frame>)
    requires Inlines(mod, mod', c, x) && SameStack(c, x, s, s', false)
    ensures SameStack(c, x, [Frame(g, 0, 0, map[], args)] + s, [Frame(g, 0, 0, map[], args)] + s', true)
  {
    var fr := Frame(g, 0, 0, map[], args);
    assert ([fr] + s)[1..] == s && ([fr] + s')[1..] == s';
    assert PlainFrame(c, x, fr, fr);
  }

  // ---------------------------------------------------------------- lock step

  lemma PlainStep(m: Machine, mod: Module, mod': Module, c: nat, x: Site, s: seq<Frame>, s': seq<Frame>, w: int)
    requires Inlines(mod, mod', c, x) && s != [] && SameStack(c, x, s, s', true) && s'[0].fn == s[0].fn
    requires !InlinedCall(c, x, s[0]) && !Act(m, mod, s[0], w).Error?
    ensures SameConfig(c, x, Step(m, mod, Exec(s, w)), Step(m, mod', Exec(s', w)))
  {
    hide Inlines, OwnFrame, FusedFrame, Assign, Act, Resume;
    NotItself(mod, mod', c, x);
    var fr, fr' := s[0], s'[0];
    var a, a' := Act(m, mod, fr, w), Act(m, mod', fr', w);
    if fr.fn == c {
      OwnStep(m, mod, mod', c, x, fr, fr', w);
    } else {
      OtherAct(m, mod, mod', c, x, fr, w);
      GotoKeepsFn(m, mod, fr, w);
    }
    match a
    case Goto(f2, w2) =>
      var t, t' := [f2] + s[1..], [a'.fr] + s'[1..];
      assert t[1..] == s[1..] && t'[1..] == s'[1..];
      StackPlain(c, x, t, t', true);
    case Push(g, args) => PushSame(mod, mod', c, x, g, args, s, s');
    case Pop(val) => ResumeSame(mod, mod', c, x, s[1..], s'[1..], val, w);
  }

  lemma GotoKeepsFn(m: Machine, mod: Module, fr: Frame, w: int)
    ensures Act(m, mod, fr, w).Goto? ==> Act(m, mod, fr, w).fr.fn == fr.fn
  {
  }

  lemma OwnStep(m: Machine, mod: Module, mod': Module, c: nat, x: Site, fr: Frame, fr': Frame, w: int)
    requires Inlines(mod, mod', c, x) && fr.fn == c && OwnFrame(x, fr, fr') && !InlinedCall(c, x, fr)
    requires !Act(m, mod, fr, w).Error?
    ensures var a, a' := Act(m, mod, fr, w), Act(m, mod', fr', w);
            (!a.Goto? && a' == a) ||
            (a.Goto? && a'.Goto? && a'.world == a.world && a.fr.fn == c && OwnFrame(x, a.fr, a'.fr))
  {
    hide Act, SameEnv, MayInline;
    if fr.k < |x.f.blocks[fr.block].body| {
      OwnInstrStep(m, mod, mod', c, x, fr, fr', w);
    } else {
      OwnTermStep(m, mod, mod', c, x, fr, fr', w);
    }
  }

  lemma InlinedStep(m: Machine, mod: Module, mod': Module, c: nat, x: Site, s: seq<Frame>, s': seq<Frame>, w: int)
    requires Inlines(mod, mod', c, x) && s != [] && SameStack(c, x, s, s', true) && s'[0].fn == s[0].fn
    requires InlinedCall(c, x, s[0]) && !Act(m, mod, s[0], w).Error?
    ensures SameConfig(c, x, Step(m, mod, Exec(s, w)), Step(m, mod', Exec(s', w)))
  {
    hide Inlines, OwnFrame, FusedFrame, Act;
    NotItself(mod, mod', c, x);
    CallStep(m, mod, mod', c, x, s[0], s'[0], w);
    var a, a' := Act(m, mod, s[0], w), Act(m, mod', s'[0], w);
    var t, t' := [Frame(a.callee, 0, 0, map[], a.args)] + s, [a'.fr] + s'[1..];
    assert t[2..] == s[1..] && t[1] == s[0] && t'[1..] == s'[1..];
    StackFused(c, x, t, t', true);
  }

  lemma NotItself(mod: Module, mod': Module, c: nat, x: Site)
    requires Inlines(mod, mod', c, x)
    ensures AtCall(x) && Callee(x) != c
  {
  }

  lemma FusedStep(m: Machine, mod: Module, mod': Module, c: nat, x: Site, s: seq<Frame>, s': seq<Frame>, w: int)
    requires Inlines(mod, mod', c, x) && s != [] && SameStack(c, x, s, s', true) && s'[0].fn != s[0].fn
    requires !Act(m, mod, s[0], w).Error?
    ensures SameConfig(c, x, Step(m, mod, Exec(s, w)), Step(m, mod', Exec(s', w)))
  {
    hide Inlines, OwnFrame, FusedFrame, Act, Assign;
    NotItself(mod, mod', c, x);
    var fr, wait, fr' := s[0], s[1], s'[0];
    CloneStep(m, mod, mod', c, x, fr, wait, fr', w);
    var a, a' := Act(m, mod, fr, w), Act(m, mod', fr', w);
    assert s[1..][1..] == s[2..];
    match a
    case Goto(f2, w2) =>
      var t, t' := [f2] + s[1..], [a'.fr] + s'[1..];
      assert t[2..] == s[2..] && t[1] == wait && t'[1..] == s'[1..];
      StackFused(c, x, t, t', true);
    case Push(g, args) =>
      StackFused(c, x, s, s', false);
      PushSame(mod, mod', c, x, g, args, s, s');
    case Pop(val) =>
      var t, t' := [Assign(mod, wait, val)] + s[2..], [a'.fr] + s'[1..];
      assert t[1..] == s[2..] && t'[1..] == s'[1..];
      StackPlain(c, x, t, t', true);
  }

  lemma CloneStep(m: Machine, mod: Module, mod': Module, c: nat, x: Site, fr: Frame, wait: Frame, fr': Frame, w: int)
    requires Inlines(mod, mod', c, x) && FusedFrame(c, x, fr, wait, fr')
    requires !Act(m, mod, fr, w).Error?
    ensures var a, a' := Act(m, mod, fr, w), Act(m, mod', fr', w);
            match a
            case Goto(f2, w2) => a'.Goto? && a'.world == w2 && FusedFrame(c, x, f2, wait, a'.fr)
            case Push(_, _) => a' == a
            case Pop(val) => a'.Goto? && a'.world == w && PlainFrame(c, x, Assign(mod, wait, val), a'.fr)
            case Error => false
  {
    hide Act, SameEnv, ClonedEnv, ArgsPassed, MayInline;
    NewPhiName(x);
    if fr.k < |x.callee.body.blocks[fr.block].body| {
      CloneInstrStep(m, mod, mod', c, x, fr, wait, fr', w);
    } else {
      CloneTermStep(m, mod, mod', c, x, fr, wait, fr', w);
    }
  }

  lemma StepSame(m: Machine, mod: Module, mod': Module, c: nat, x: Site, a: Config, b: Config)
    requires Inlines(mod, mod', c, x) && SameConfig(c, x, a, b)
    ensures SameConfig(c, x, Step(m, mod, a), Step(m, mod', b))
  {
    hide Inlines, OwnFrame, FusedFrame, Act, Assign, InlinedCall;
    if a.Exec? && !Act(m, mod, a.stack[0], a.world).Error? {
      if a.stack[0].fn != b.stack[0].fn {
        FusedStep(m, mod, mod', c, x, a.stack, b.stack, a.world);
      } else if InlinedCall(c, x, a.stack[0]) {
        InlinedStep(m, mod, mod', c, x, a.stack, b.stack, a.world);
      } else {
        PlainStep(m, mod, mod', c, x, a.stack, b.stack, a.world);
      }
    }
  }

  lemma {:induction false} StepsSame(m: Machine, mod: Module, mod': Module, c: nat, x: Site, g: nat, args: seq<int>,
                                     w: int, n: nat)
    requires Inlines(mod, mod', c, x) && g < |mod|
    ensures SameConfig(c, x, Steps(m, mod, Init(g, args, w), n), Steps(m, mod', Init(g, args, w), n))
  {
    hide SameConfig, SameStack, Inlines, Step;
    NotItself(mod, mod', c, x);
    if n == 0 {
      InitSame(mod, mod', c, x, g, args, w);
    } else {
      StepsSame(m, mod, mod', c, x, g, args, w, n - 1);
      StepSame(m, mod, mod', c, x, Steps(m, mod, Init(g, args, w), n - 1), Steps(m, mod', Init(g, args, w), n - 1));
    }
  }

  lemma InitSame(mod: Module, mod': Module, c: nat, x: Site, g: nat, args: seq<int>, w: int)
    requires Inlines(mod, mod', c, x)
    ensures SameConfig(c, x, Init(g, args, w), Init(g, args, w))
  {
    hide Inlines;
    NotItself(mod, mod', c, x);
    PushSame(mod, mod', c, x, g, args, [], []);
    assert [Frame(g, 0, 0, map[], args)] + [] == [Frame(g, 0, 0, map[], args)];
  }

  /** The main result: inlining one call changes no execution that does not go wrong. */
  lemma InliningRefines(mod: Module, mod': Module, c: nat, x: Site)
    requires Inlines(mod, mod', c, x)
    ensures Refines(mod, mod')
  {
    hide Steps, SameStack, MayInline, IsInlined;
    forall m: Machine, g: nat, args: seq<int>, w: int, n: nat | g < |mod|
      ensures AgreeOn(mod, mod', m, g, args, w, n)
    {
      StepsSame(m, mod, mod', c, x, g, args, w, n);
    }
  }
}
