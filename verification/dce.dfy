/** Dead code elimination: a walk from the entry that removes instructions without uses
    and marks blocks, after which the unmarked blocks are emptied and freed. */
module Dce {
  import opened IR
  import opened SsaPaths
  import opened CfgEdges
  import opened CfgUses
  import opened SimplifyCfg

  // ---------------------------------------------------------------- uses

  /** Stores, calls and terminators are never dead. */
  predicate HasNoEffect(i: Instruction) {
    !i.Store? && !(i.Op? && i.code.Call?)
  }

  predicate IsDead(g: Graph, i: Instruction) {
    HasNoEffect(i) && !HasUses(g, Instr(i.id))
  }

  // ---------------------------------------------------------------- removing one definition

  function WithoutInstr(g: Graph, b: nat, k: nat): (r: Graph)
    requires b < |g.blocks| && k < |g.blocks[b].body|
    ensures |r.blocks| == |g.blocks|
  {
    g.(blocks := g.blocks[b := g.blocks[b].(body := g.blocks[b].body[..k] + g.blocks[b].body[k + 1..])])
  }

  function WithoutPhi(g: Graph, v: Value): Graph {
    g.(phis := g.phis - {v})
  }

  /** Code may have gone, but no edge. */
  ghost predicate Shrunk(g: Graph, r: Graph) {
    && |r.blocks| == |g.blocks| && r.list == g.list && r.phis.Keys <= g.phis.Keys
    && (forall v :: v in r.phis ==> r.phis[v] == g.phis[v])
    && (forall b :: 0 <= b < |g.blocks| ==>
      r.blocks[b] == g.blocks[b].(body := r.blocks[b].body) && |r.blocks[b].body| <= |g.blocks[b].body|)
    && (forall b, i :: 0 <= b < |g.blocks| && i in r.blocks[b].body ==> i in g.blocks[b].body)
  }

  lemma ShrunkSound(g: Graph, r: Graph)
    requires CfgEdges.Sound(g) && Shrunk(g, r)
    ensures CfgEdges.Sound(r)
  {
    hide Agree, Preds;
    EdgesIgnoreCode(g, r);
    forall v | v in r.phis
      ensures PhiOk(r, v)
    {
      assert PhiOk(g, v);
    }
    forall b: nat | b < |r.blocks| && b !in r.list
      ensures Freed(r, b)
    {
      assert Freed(g, b);
    }
  }

  /** Removing code adds no use. */
  lemma ShrunkUses(g: Graph, r: Graph, v: Value)
    requires Shrunk(g, r)
    ensures HasUses(r, v) ==> HasUses(g, v)
  {
    hide UsedBy, UsedByTerm;
    if u :| u in r.phis && UsedByPhi(r.phis[u], v) {
    } else if HasUses(r, v) {
      var b :| 0 <= b < |r.blocks| && UsedInBlock(r.blocks[b], v);
      if i :| 0 <= i < |r.blocks[b].body| && UsedBy(r.blocks[b].body[i], v) {
        assert r.blocks[b].body[i] in g.blocks[b].body;
        var j :| 0 <= j < |g.blocks[b].body| && g.blocks[b].body[j] == r.blocks[b].body[i];
      }
      assert UsedInBlock(g.blocks[b], v);
    }
  }

  lemma ShrunkTrans(g: Graph, h: Graph, r: Graph)
    requires Shrunk(g, h) && Shrunk(h, r)
    ensures Shrunk(g, r)
  {
  }

  lemma WithoutInstrShrunk(g: Graph, b: nat, k: nat)
    requires b < |g.blocks| && k < |g.blocks[b].body|
    ensures Shrunk(g, WithoutInstr(g, b, k))
  {
  }

  // ---------------------------------------------------------------- runs without a definition

  /** Nothing but the value of v differs. */
  ghost predicate SameBut(v: Value, s: State, t: State) {
    s.slots == t.slots && s.world == t.world && SameEnvBut(v, s.env, t.env)
  }

  ghost predicate SameEnvBut(v: Value, e: map<Value, int>, e': map<Value, int>) {
    forall u :: u != v ==> (u in e <==> u in e') && (u in e ==> e[u] == e'[u])
  }

  /** Only stores, calls and allocas change the world. */
  ghost predicate Harmless(m: Machine) {
    && (forall args, w :: m(DoLoad, args, w).1 == w)
    && (forall n, args, w :: m(DoOp(Other(n)), args, w).1 == w)
  }

  lemma EvalSameBut(v: Value, s: State, t: State, u: Value, args: seq<int>)
    requires SameBut(v, s, t) && u != v
    ensures Eval(u, s.env, args) == Eval(u, t.env, args)
  {
  }

  lemma EvalAllSameBut(v: Value, s: State, t: State, us: seq<Value>, args: seq<int>)
    requires SameBut(v, s, t) && v !in us
    ensures EvalAll(us, s.env, args) == EvalAll(us, t.env, args)
  {
    forall i | 0 <= i < |us|
      ensures Eval(us[i], s.env, args) == Eval(us[i], t.env, args)
    {
      EvalSameBut(v, s, t, us[i], args);
    }
  }

  lemma InstrSameBut(c: Context, i: Instruction, v: Value, s: State, t: State)
    requires SameBut(v, s, t) && !UsedBy(i, v)
    ensures SameBut(v, ExecInstr(c.m, c.args, c.slots, i, s), ExecInstr(c.m, c.args, c.slots, i, t))
  {
    hide Eval, EvalAll, SameEnvBut;
    match i
    case Alloca(id) =>
      SetSameBut(v, s.env, t.env, Instr(id));
    case Load(id, addr) =>
      EvalSameBut(v, s, t, addr, c.args);
      SetSameBut(v, s.env, t.env, Instr(id));
    case Store(_, addr, val) =>
      EvalSameBut(v, s, t, addr, c.args);
      EvalSameBut(v, s, t, val, c.args);
    case Op(id, _, ops) =>
      EvalAllSameBut(v, s, t, ops, c.args);
      SetSameBut(v, s.env, t.env, Instr(id));
  }

  lemma SetSameBut(v: Value, e: map<Value, int>, e': map<Value, int>, u: Value)
    requires SameEnvBut(v, e, e')
    ensures forall x {:trigger e[u := x], e'[u := x]} :: SameEnvBut(v, e[u := x], e'[u := x])
  {
  }

  lemma {:induction false} BodySameBut(c: Context, body: seq<Instruction>, v: Value, s: State, t: State)
    requires SameBut(v, s, t) && forall i :: 0 <= i < |body| ==> !UsedBy(body[i], v)
    ensures SameBut(v, ExecBody(c.m, c.args, c.slots, body, s), ExecBody(c.m, c.args, c.slots, body, t))
  {
    hide SameBut, ExecInstr, UsedBy;
    if body != [] {
      var n := |body| - 1;
      BodySameBut(c, body[..n], v, s, t);
      InstrSameBut(c, body[n], v, ExecBody(c.m, c.args, c.slots, body[..n], s),
        ExecBody(c.m, c.args, c.slots, body[..n], t));
    }
  }

  /** A dead instruction changes nothing but its own result; a dead alloca must be a slot
      of its own. */
  lemma DeadInstr(c: Context, i: Instruction, s: State)
    requires HasNoEffect(i) && Harmless(c.m) && (i.Alloca? ==> i.id in c.slots)
    ensures SameBut(Instr(i.id), ExecInstr(c.m, c.args, c.slots, i, s), s)
  {
  }

  lemma SameButTrans(v: Value, s: State, t: State, u: State)
    requires SameBut(v, s, t) && SameBut(v, t, u)
    ensures SameBut(v, s, u)
  {
  }

  /** The body without a dead instruction. */
  lemma DeadInBody(c: Context, body: seq<Instruction>, k: nat, s: State, t: State)
    requires k < |body| && HasNoEffect(body[k]) && Harmless(c.m) && (body[k].Alloca? ==> body[k].id in c.slots)
    requires SameBut(Instr(body[k].id), s, t) && forall i :: 0 <= i < |body| ==> !UsedBy(body[i], Instr(body[k].id))
    ensures SameBut(Instr(body[k].id), ExecBody(c.m, c.args, c.slots, body, s),
              ExecBody(c.m, c.args, c.slots, body[..k] + body[k + 1..], t))
  {
    hide SameBut, ExecInstr, ExecBody, Harmless, HasNoEffect, UsedBy;
    var v := Instr(body[k].id);
    var s1 := ExecBody(c.m, c.args, c.slots, body[..k], s);
    var t1 := ExecBody(c.m, c.args, c.slots, body[..k], t);
    BodySameBut(c, body[..k], v, s, t);
    var s2 := ExecInstr(c.m, c.args, c.slots, body[k], s1);
    DeadInstr(c, body[k], s1);
    SameButTrans(v, s2, s1, t1);
    BodySameBut(c, body[k + 1..], v, s2, t1);
    ExecConcat(c.m, c.args, c.slots, body[..k], body[k + 1..], t);
    assert body == body[..k] + [body[k]] + body[k + 1..];
    ExecConcat(c.m, c.args, c.slots, body[..k] + [body[k]], body[k + 1..], s);
    ExecConcat(c.m, c.args, c.slots, body[..k], [body[k]], s);
    OneInstr(c, body[k], s1);
  }

  lemma OneInstr(c: Context, i: Instruction, s: State)
    ensures ExecBody(c.m, c.args, c.slots, [i], s) == ExecInstr(c.m, c.args, c.slots, i, s)
  {
    hide ExecInstr;
    assert [i][..0] == [];
  }

  /** v is defined in g only, used in neither, and the blocks of r do what those of g do. */
  ghost predicate Drops(g: Graph, r: Graph, v: Value, c: Context) {
    && EdgesOk(g) && EdgesOk(r) && |r.blocks| == |g.blocks|
    && !HasUses(g, v)
    && (forall u :: u in r.phis ==> u in g.phis && r.phis[u] == g.phis[u])
    && (forall u :: u in g.phis && u != v ==> u in r.phis)
    && (forall b: nat :: b < |g.blocks| ==> r.blocks[b].term == g.blocks[b].term)
    && (forall b: nat, s, t :: b < |g.blocks| && SameBut(v, s, t) ==>
      SameBut(v, BlockEnd(g, c, b, s), BlockEnd(r, c, b, t)))
  }

  lemma EnteredSameBut(g: Graph, r: Graph, v: Value, c: Context, p: nat, b: nat, s: State, t: State)
    requires Drops(g, r, v, c) && SameBut(v, s, t) && (v.Instr? || v.NewPhi?)
    ensures SameBut(v, Entered(g, c, p, b, s), Entered(r, c, p, b, t))
  {
    hide EdgesOk, BlockEnd, Eval, Incoming, HasUses, SameEnvBut;
    forall u | u in r.phis
      ensures Eval(Incoming(g.phis[u].ops, p), s.env, c.args) == Eval(Incoming(g.phis[u].ops, p), t.env, c.args)
    {
      IncomingUnused(g, u, v, p);
      EvalSameBut(v, s, t, Incoming(g.phis[u].ops, p), c.args);
    }
    var m := map u | u in g.phis && g.phis[u].block == b :: Eval(Incoming(g.phis[u].ops, p), s.env, c.args);
    var m' := map u | u in r.phis && r.phis[u].block == b :: Eval(Incoming(r.phis[u].ops, p), t.env, c.args);
    AddSameBut(v, s.env, t.env, m, m');
  }

  lemma AddSameBut(v: Value, e: map<Value, int>, e': map<Value, int>, m: map<Value, int>, m': map<Value, int>)
    requires SameEnvBut(v, e, e') && SameEnvBut(v, m, m')
    ensures SameEnvBut(v, e + m, e' + m')
  {
  }

  lemma IncomingUnused(g: Graph, u: Value, v: Value, p: nat)
    requires u in g.phis && !HasUses(g, v) && (v.Instr? || v.NewPhi?)
    ensures Incoming(g.phis[u].ops, p) != v
  {
    var w := Incoming(g.phis[u].ops, p);
    assert !UsedByPhi(g.phis[u], v);
  }

  lemma TermUnused(g: Graph, v: Value, b: nat)
    requires b < |g.blocks| && !HasUses(g, v) && (v.Instr? || v.NewPhi?)
    ensures !UsedByTerm(TermOf(g.blocks[b]), v)
  {
    assert !UsedInBlock(g.blocks[b], v);
  }

  /** Runs do not notice a missing definition that has no use. */
  lemma {:induction false} DropRuns(g: Graph, r: Graph, v: Value, c: Context, b: nat, s: State, t: State, n: nat)
    requires Drops(g, r, v, c) && b < |g.blocks| && SameBut(v, s, t) && (v.Instr? || v.NewPhi?)
    ensures RunFrom(r, c, b, t, n) == RunFrom(g, c, b, s, n)
    decreases n
  {
    hide EdgesOk, RunFrom, BlockEnd, Entered, Targets, HasUses;
    RunStep(g, c, b, s, n);
    RunStep(r, c, b, t, n);
    var s', t' := BlockEnd(g, c, b, s), BlockEnd(r, c, b, t);
    assert SameBut(v, s', t');
    TermUnused(g, v, b);
    var tm := TermOf(g.blocks[b]);
    if tm.Ret? {
      EvalSameBut(v, s', t', tm.val, c.args);
    } else {
      if tm.BranchIf? {
        EvalSameBut(v, s', t', tm.cond, c.args);
      }
      if n > 0 {
        var x := NextBlock(g, c, b, s);
        EnteredSameBut(g, r, v, c, b, x, s', t');
        DropRuns(g, r, v, c, x, Entered(g, c, b, x, s'), Entered(r, c, b, x, t'), n - 1);
      }
    }
  }

  // ---------------------------------------------------------------- contexts in which removal is allowed

  /** Removed allocas, by id, are private slots. */
  ghost predicate Allows(c: Context, removed: set<nat>) {
    Harmless(c.m) && removed <= c.slots
  }

  ghost predicate EqualRun(g: Graph, r: Graph, c: Context, s: State, n: nat)
    requires Runs(g) && Runs(r)
  {
    RunFrom(r, c, 0, s, n) == RunFrom(g, c, 0, s, n)
  }

  /** Every run is the same, block for block. */
  ghost predicate EqualRuns(g: Graph, r: Graph, removed: set<nat>) {
    Runs(g) && Runs(r) && forall c: Context, s: State, n: nat :: Allows(c, removed) ==> EqualRun(g, r, c, s, n)
  }

  lemma EqualRunsSelf(g: Graph)
    requires Runs(g)
    ensures EqualRuns(g, g, {})
  {
  }

  lemma EqualRunsTrans(g: Graph, h: Graph, r: Graph, a: set<nat>, b: set<nat>)
    requires EqualRuns(g, h, a) && EqualRuns(h, r, b)
    ensures EqualRuns(g, r, a + b)
  {
    hide RunFrom;
    forall c: Context, s: State, n: nat | Allows(c, a + b)
      ensures EqualRun(g, r, c, s, n)
    {
      assert Allows(c, a) && Allows(c, b);
      assert EqualRun(g, h, c, s, n) && EqualRun(h, r, c, s, n);
    }
  }

  function AllocaOf(i: Instruction): set<nat> {
    if i.Alloca? then {i.id} else {}
  }

  lemma DropInstr(g: Graph, b: nat, k: nat)
    requires CfgEdges.Sound(g) && b < |g.blocks| && k < |g.blocks[b].body| && IsDead(g, g.blocks[b].body[k])
    ensures var r := WithoutInstr(g, b, k);
            CfgEdges.Sound(r) && EqualRuns(g, r, AllocaOf(g.blocks[b].body[k]))
  {
    hide RunFrom, CfgEdges.Sound, EdgesOk, SameBut, HasUses, Harmless, HasNoEffect, Shrunk;
    var i, r := g.blocks[b].body[k], WithoutInstr(g, b, k);
    WithoutInstrShrunk(g, b, k);
    ShrunkSound(g, r);
    SoundRuns(g);
    SoundRuns(r);
    forall c: Context, s: State, n: nat | Allows(c, AllocaOf(i))
      ensures EqualRun(g, r, c, s, n)
    {
      DropsInstr(g, b, k, c);
      SameButSelf(Instr(i.id), s);
      DropRuns(g, r, Instr(i.id), c, 0, s, s, n);
    }
  }

  lemma SameButSelf(v: Value, s: State)
    ensures SameBut(v, s, s)
  {
  }

  lemma DropsInstr(g: Graph, b: nat, k: nat, c: Context)
    requires b < |g.blocks| && k < |g.blocks[b].body| && IsDead(g, g.blocks[b].body[k])
    requires EdgesOk(g) && EdgesOk(WithoutInstr(g, b, k)) && Allows(c, AllocaOf(g.blocks[b].body[k]))
    ensures Drops(g, WithoutInstr(g, b, k), Instr(g.blocks[b].body[k].id), c)
  {
    hide EdgesOk, SameBut, ExecBody, HasUses, HasNoEffect, Harmless, UsedBy;
    var i, r := g.blocks[b].body[k], WithoutInstr(g, b, k);
    var v := Instr(i.id);
    forall x: nat, s, t | x < |g.blocks| && SameBut(v, s, t)
      ensures SameBut(v, BlockEnd(g, c, x, s), BlockEnd(r, c, x, t))
    {
      BodyUnused(g, v, x);
      if x == b {
        DeadInBody(c, g.blocks[b].body, k, s, t);
      } else {
        BodySameBut(c, g.blocks[x].body, v, s, t);
      }
    }
  }

  lemma BodyUnused(g: Graph, v: Value, b: nat)
    requires b < |g.blocks| && !HasUses(g, v)
    ensures forall i :: 0 <= i < |g.blocks[b].body| ==> !UsedBy(g.blocks[b].body[i], v)
  {
    assert !UsedInBlock(g.blocks[b], v);
  }

  /** A phi's own name: an instruction's or a new phi's. */
  predicate IsName(v: Value) {
    v.Instr? || v.NewPhi?
  }

  lemma DropPhi(g: Graph, v: Value)
    requires CfgEdges.Sound(g) && v in g.phis && !HasUses(g, v) && IsName(v)
    ensures CfgEdges.Sound(WithoutPhi(g, v)) && EqualRuns(g, WithoutPhi(g, v), {})
  {
    hide RunFrom, CfgEdges.Sound, EdgesOk, SameBut, HasUses, ExecBody, Harmless, UsedBy;
    var r := WithoutPhi(g, v);
    assert Shrunk(g, r);
    ShrunkSound(g, r);
    SoundRuns(g);
    SoundRuns(r);
    forall c: Context, s: State, n: nat | Allows(c, {})
      ensures EqualRun(g, r, c, s, n)
    {
      forall x: nat, s, t | x < |g.blocks| && SameBut(v, s, t)
        ensures SameBut(v, BlockEnd(g, c, x, s), BlockEnd(r, c, x, t))
      {
        BodyUnused(g, v, x);
        BodySameBut(c, g.blocks[x].body, v, s, t);
      }
      assert Drops(g, r, v, c);
      SameButSelf(v, s);
      DropRuns(g, r, v, c, 0, s, s, n);
    }
  }

  // ---------------------------------------------------------------- what a walk leaves

  /** A value that has lost a definition is used nowhere. */
  ghost predicate NoDangling(g: Graph, r: Graph) {
    forall v, x :: DefinedIn(g, v, x) && !DefinedIn(r, v, x) ==> !HasUses(r, v)
  }

  ghost predicate PhiNames(g: Graph) {
    forall v :: v in g.phis ==> IsName(v)
  }

  ghost predicate Good(g: Graph) {
    CfgEdges.Sound(g) && PhiNames(g)
  }

  ghost predicate Cleaned(g: Graph, r: Graph, removed: set<nat>) {
    Good(r) && Shrunk(g, r) && NoDangling(g, r) && EqualRuns(g, r, removed) && EffectsStay(g, r) &&
    UnusedAllocas(g, r, removed)
  }

  /** Stores and calls stay where they are. */
  ghost predicate EffectsStay(g: Graph, r: Graph) {
    |r.blocks| == |g.blocks| && forall b, i ::
      0 <= b < |g.blocks| && i in g.blocks[b].body && (i.Store? || (i.Op? && i.code.Call?)) ==> i in r.blocks[b].body
  }

  /** The allocas that have gone were in g and have no use left. */
  ghost predicate UnusedAllocas(g: Graph, r: Graph, removed: set<nat>) {
    forall a :: a in removed ==>
      (exists b :: 0 <= b < |g.blocks| && Alloca(a) in g.blocks[b].body) && !HasUses(r, Instr(a))
  }

  lemma CleanedSelf(g: Graph)
    requires Good(g)
    ensures Cleaned(g, g, {})
  {
    hide RunFrom, HasUses, DefinedIn;
    SoundRuns(g);
    EqualRunsSelf(g);
  }

  lemma CleanedTrans(g: Graph, h: Graph, r: Graph, a: set<nat>, b: set<nat>)
    requires Cleaned(g, h, a) && Cleaned(h, r, b)
    ensures Cleaned(g, r, a + b)
  {
    hide EqualRuns, HasUses, DefinedIn, Shrunk, CfgEdges.Sound;
    EqualRunsTrans(g, h, r, a, b);
    ShrunkTrans(g, h, r);
    UnusedTrans(g, h, r, a, b);
    forall v, x | DefinedIn(g, v, x) && !DefinedIn(r, v, x)
      ensures !HasUses(r, v)
    {
      ShrunkUses(h, r, v);
      assert DefinedIn(h, v, x) || !HasUses(h, v);
    }
  }

  lemma UnusedTrans(g: Graph, h: Graph, r: Graph, a: set<nat>, b: set<nat>)
    requires Shrunk(g, h) && Shrunk(h, r) && UnusedAllocas(g, h, a) && UnusedAllocas(h, r, b)
    ensures UnusedAllocas(g, r, a + b)
  {
    hide HasUses;
    forall x | x in a + b
      ensures (exists y :: 0 <= y < |g.blocks| && Alloca(x) in g.blocks[y].body) && !HasUses(r, Instr(x))
    {
      ShrunkUses(h, r, Instr(x));
      if x !in a {
        var y :| 0 <= y < |h.blocks| && Alloca(x) in h.blocks[y].body;
      }
    }
  }

  lemma CleanInstr(g: Graph, b: nat, k: nat)
    requires Good(g) && b < |g.blocks| && k < |g.blocks[b].body| && IsDead(g, g.blocks[b].body[k])
    ensures Cleaned(g, WithoutInstr(g, b, k), AllocaOf(g.blocks[b].body[k]))
  {
    hide EqualRuns, HasUses, CfgEdges.Sound, Shrunk, UsedBy;
    DropInstr(g, b, k);
    WithoutInstrShrunk(g, b, k);
    WithoutInstrKeeps(g, b, k);
    var r, i := WithoutInstr(g, b, k), g.blocks[b].body[k];
    forall v, x | DefinedIn(g, v, x) && !DefinedIn(r, v, x)
      ensures !HasUses(r, v)
    {
      OnlyDef(g, b, k, v, x);
      ShrunkUses(g, r, v);
    }
  }

  lemma WithoutInstrKeeps(g: Graph, b: nat, k: nat)
    requires b < |g.blocks| && k < |g.blocks[b].body| && IsDead(g, g.blocks[b].body[k])
    ensures EffectsStay(g, WithoutInstr(g, b, k))
    ensures UnusedAllocas(g, WithoutInstr(g, b, k), AllocaOf(g.blocks[b].body[k]))
  {
    hide HasUses;
    var body, r := g.blocks[b].body, WithoutInstr(g, b, k);
    WithoutInstrShrunk(g, b, k);
    forall i | i in body && i != body[k]
      ensures i in r.blocks[b].body
    {
      var j :| 0 <= j < |body| && body[j] == i;
      assert r.blocks[b].body[if j < k then j else j - 1] == i;
    }
    ShrunkUses(g, r, Instr(body[k].id));
    assert body[k] in body;
  }

  lemma OnlyDef(g: Graph, b: nat, k: nat, v: Value, x: nat)
    requires b < |g.blocks| && k < |g.blocks[b].body| && DefinedIn(g, v, x)
    ensures v == Instr(g.blocks[b].body[k].id) || DefinedIn(WithoutInstr(g, b, k), v, x)
  {
    var r := WithoutInstr(g, b, k);
    if !(v in g.phis && g.phis[v].block == x) {
      var i :| 0 <= i < |g.blocks[x].body| && Defines(g.blocks[x].body[i], v);
      if x != b || i != k {
        var j := if x == b && i > k then i - 1 else i;
        assert r.blocks[x].body[j] == g.blocks[x].body[i];
      }
    }
  }

  lemma CleanPhi(g: Graph, v: Value)
    requires Good(g) && v in g.phis && !HasUses(g, v)
    ensures Cleaned(g, WithoutPhi(g, v), {})
  {
    hide EqualRuns, HasUses, CfgEdges.Sound, Defines;
    DropPhi(g, v);
    var r := WithoutPhi(g, v);
    forall u, x | DefinedIn(g, u, x) && !DefinedIn(r, u, x)
      ensures !HasUses(r, u)
    {
      assert u == v;
      ShrunkUses(g, r, u);
    }
  }
}
