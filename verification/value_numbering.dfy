/** Local value numbering: keys of instructions and phis, and why one with the key of an
    earlier one may be replaced by it.  Hashes are taken to be injective, so a key is the
    opcode with the operands. */
module ValueNumbering {
  import opened Options
  import opened IR
  import opened Cfg
  import opened SsaPaths
  import opened SsaReplace
  import opened SsaFacts

  /** The opcodes that are numbered, those of them that commute, and the order in which
      the operands of those are put. */
  datatype Opcodes = Opcodes(numbered: set<nat>, commutative: set<nat>, rank: Value -> int)

  datatype Key = OpKey(code: nat, args: seq<Value>) | LoadKey(addr: Value) | PhiKey(ops: seq<(Value, nat)>)

  /** The key of an instruction, if it is numbered at all. */
  function KeyOf(o: Opcodes, i: Instruction): Option<Key> {
    match i
    case Op(_, Other(n), args) =>
      if n !in o.numbered then None
      else if n in o.commutative && |args| == 2 &&
        o.rank(args[0]) < o.rank(args[1]) then Some(OpKey(n, [args[1], args[0]]))
      else Some(OpKey(n, args))
    case Load(_, addr) => Some(LoadKey(addr))
    case _ => None
  }

  /** Calls and stores may change what loads yield. */
  predicate Clobbers(i: Instruction) {
    i.Store? || (i.Op? && i.code.Call?)
  }

  // ---------------------------------------------------------------- renaming

  /** The value each dropped value is replaced by. */
  type Renaming = map<Value, Value>

  function Ren(ren: Renaming, v: Value): Value {
    if v in ren then ren[v] else v
  }

  function RenInstr(ren: Renaming, i: Instruction): Instruction {
    match i
    case Alloca(_) => i
    case Load(id, addr) => Load(id, Ren(ren, addr))
    case Store(id, addr, val) => Store(id, Ren(ren, addr), Ren(ren, val))
    case Op(id, code, args) => Op(id, code, seq(|args|, j requires 0 <= j < |args| => Ren(ren, args[j])))
  }

  function RenTerm(ren: Renaming, t: Terminator): Terminator {
    match t
    case Ret(v) => Ret(Ren(ren, v))
    case Branch(_) => t
    case BranchIf(v, b0, b1) => BranchIf(Ren(ren, v), b0, b1)
  }

  function RenOps(ren: Renaming, ops: seq<(Value, nat)>): (r: seq<(Value, nat)>)
    ensures |r| == |ops|
  {
    seq(|ops|, j requires 0 <= j < |ops| => (Ren(ren, ops[j].0), ops[j].1))
  }

  lemma {:induction false} IncomingRen(ren: Renaming, ops: seq<(Value, nat)>, p: nat)
    requires Const(0) !in ren
    ensures Incoming(RenOps(ren, ops), p) == Ren(ren, Incoming(ops, p))
  {
    if ops != [] {
      IncomingRen(ren, ops[1..], p);
      assert RenOps(ren, ops)[1..] == RenOps(ren, ops[1..]);
    }
  }

  // ---------------------------------------------------------------- the machine

  /** Numbered operations depend on their operands only; loads read the world without
      changing it, and a new alloca does not change what they read. */
  ghost predicate WellBehaved(m: Machine, o: Opcodes) {
    && (forall n, args, w, w' :: n in o.numbered ==> m(DoOp(Other(n)), args, w).0 == m(DoOp(Other(n)), args, w').0)
    && (forall n, args, w :: n in o.numbered ==> m(DoOp(Other(n)), args, w).1 == w)
    && (forall n, a, b, w :: n in o.commutative ==> m(DoOp(Other(n)), [a, b], w) == m(DoOp(Other(n)), [b, a], w))
    && (forall args, w :: m(DoLoad, args, w).1 == w)
    && (forall args, w :: m(DoLoad, args, m(DoAlloca, [], w).1).0 == m(DoLoad, args, w).0)
    && (forall n, args, a, w :: n !in o.numbered ==>
      m(DoLoad, args, m(DoOp(Other(n)), a, w).1).0 == m(DoLoad, args, w).0)
  }

  /** No alloca is private, and the machines are the well-behaved ones. */
  ghost predicate Suits(c: Ctx, o: Opcodes) {
    c.P == {} && forall m: Machine :: c.machines(m) <==> WellBehaved(m, o)
  }

  // ---------------------------------------------------------------- what a key stands for

  ghost function SemAll(c: Ctx, run: Setting, vs: seq<Value>, path: seq<nat>, k: nat): (r: seq<int>)
    requires IsPath(c.f, path) && k <= Len(c, path[|path| - 1])
    ensures |r| == |vs|
  {
    seq(|vs|, i requires 0 <= i < |vs| => Sem(c, run, vs[i], path, k))
  }

  /** What a key computes after the path and k instructions of its last block; for a phi,
      what flowed in over the last edge. */
  ghost function KeySem(c: Ctx, run: Setting, key: Key, path: seq<nat>, k: nat): int
    requires IsPath(c.f, path) && k <= Len(c, path[|path| - 1])
  {
    match key
    case OpKey(n, ops) => run.m(DoOp(Other(n)), SemAll(c, run, ops, path, k), At(c, run, path, k).world).0
    case LoadKey(addr) => run.m(DoLoad, [Sem(c, run, addr, path, k)], At(c, run, path, k).world).0
    case PhiKey(ops) =>
      if |path| > 1 then
        PathPrefix(c, path);
        Sem(c, run, Incoming(ops, path[|path| - 2]), path[..|path| - 1], Len(c, path[|path| - 2]))
      else 0
  }

  ghost predicate KeyUses(key: Key, v: Value) {
    match key
    case OpKey(_, ops) => v in ops
    case LoadKey(addr) => v == addr
    case PhiKey(_) => false
  }

  ghost predicate EntryOn(c: Ctx, run: Setting, key: Key, v: Value, path: seq<nat>, k: nat)
    requires IsPath(c.f, path) && k <= Len(c, path[|path| - 1])
  {
    Sem(c, run, v, path, k) == KeySem(c, run, key, path, k)
  }

  /** At instruction k of block b the value is there and is what the key computes now. */
  ghost predicate EntryOk(c: Ctx, o: Opcodes, key: Key, v: Value, b: nat, k: nat) {
    && k <= Len(c, b)
    && (key.OpKey? ==> key.code in o.numbered)
    && (forall u :: KeyUses(key, u) ==> AlwaysAvail(c, u, b, k))
    && AlwaysAvail(c, v, b, k)
    && forall path, run: Setting :: PathTo(c.f, path, b) && c.machines(run.m) ==> EntryOn(c, run, key, v, path, k)
  }

  // ---------------------------------------------------------------- entries stay right

  lemma AvailNext(c: Ctx, v: Value, b: nat, k: nat)
    requires AlwaysAvail(c, v, b, k)
    ensures AlwaysAvail(c, v, b, k + 1)
  {
    forall path | PathTo(c.f, path, b)
      ensures Avail(c, v, path, k + 1)
    {
      StepAvail(c, v, path, b, k);
    }
  }

  lemma SemAllNext(c: Ctx, run: Setting, vs: seq<Value>, path: seq<nat>, b: nat, k: nat)
    requires GoodDefs(c) && PathTo(c.f, path, b) && k < Len(c, b)
    requires forall j :: 0 <= j < |vs| ==> AlwaysAvail(c, vs[j], b, k)
    ensures SemAll(c, run, vs, path, k + 1) == SemAll(c, run, vs, path, k)
  {
    hide GoodDefs, Sem, AlwaysAvail;
    forall j | 0 <= j < |vs|
      ensures Sem(c, run, vs[j], path, k + 1) == Sem(c, run, vs[j], path, k)
    {
      StepSem(c, run, vs[j], path, b, k);
    }
  }

  /** What a load yields is the same after an instruction that does not clobber. */
  lemma LoadKept(m: Machine, args: seq<int>, o: Opcodes, i: Instruction, s: State, a: seq<int>)
    requires WellBehaved(m, o) && !Clobbers(i)
    ensures m(DoLoad, a, ExecInstr(m, args, {}, i, s).world).0 == m(DoLoad, a, s.world).0
  {
  }

  lemma NextState(c: Ctx, run: Setting, path: seq<nat>, b: nat, k: nat)
    requires PathTo(c.f, path, b) && k < Len(c, b)
    ensures At(c, run, path, k + 1) == ExecInstr(run.m, run.args, c.P, c.f.blocks[b].body[k], At(c, run, path, k))
  {
  }

  /** A key computes the same after one more instruction: a load unless that one clobbers. */
  lemma KeyNext(c: Ctx, run: Setting, o: Opcodes, key: Key, path: seq<nat>, b: nat, k: nat)
    requires GoodDefs(c) && Suits(c, o) && c.machines(run.m) && PathTo(c.f, path, b) && k < Len(c, b)
    requires key.OpKey? ==> key.code in o.numbered
    requires forall u :: KeyUses(key, u) ==> AlwaysAvail(c, u, b, k)
    requires Clobbers(c.f.blocks[b].body[k]) ==> !key.LoadKey?
    ensures KeySem(c, run, key, path, k + 1) == KeySem(c, run, key, path, k)
  {
    hide GoodDefs, Sem, SemAll, At, AlwaysAvail, ExecInstr, Clobbers;
    match key
    case OpKey(n, ops) =>
      assert forall j :: 0 <= j < |ops| ==> KeyUses(key, ops[j]);
      SemAllNext(c, run, ops, path, b, k);
    case LoadKey(addr) =>
      assert KeyUses(key, addr);
      StepSem(c, run, addr, path, b, k);
      NextState(c, run, path, b, k);
      LoadKept(run.m, run.args, o, c.f.blocks[b].body[k], At(c, run, path, k), [Sem(c, run, addr, path, k)]);
    case PhiKey(_) =>
  }

  lemma EntryNext(c: Ctx, o: Opcodes, key: Key, v: Value, b: nat, k: nat)
    requires GoodDefs(c) && Suits(c, o) && EntryOk(c, o, key, v, b, k) && k < Len(c, b)
    requires Clobbers(c.f.blocks[b].body[k]) ==> !key.LoadKey?
    ensures EntryOk(c, o, key, v, b, k + 1)
  {
    hide GoodDefs, Suits, Sem, KeySem, AlwaysAvail, Clobbers, KeyUses;
    AvailNext(c, v, b, k);
    forall u | KeyUses(key, u)
      ensures AlwaysAvail(c, u, b, k + 1)
    {
      AvailNext(c, u, b, k);
    }
    var k' := k + 1;
    forall path, run: Setting | PathTo(c.f, path, b) && c.machines(run.m)
      ensures EntryOn(c, run, key, v, path, k')
    {
      assert EntryOn(c, run, key, v, path, k);
      StepSem(c, run, v, path, b, k);
      KeyNext(c, run, o, key, path, b, k);
    }
  }

  // ---------------------------------------------------------------- renamed operands

  /** Every dropped value may be replaced by its representative, which stays. */
  ghost predicate RenOk(c: Ctx, ren: Renaming) {
    forall x :: x in ren ==> x.Instr? && !ren[x].NewPhi? && ren[x] !in ren && MayReplace(c, x, ren[x])
  }

  lemma RenSame(c: Ctx, ren: Renaming, u: Value, b: nat, k: nat)
    requires GoodEdges(c) && GoodDefs(c) && RenOk(c, ren) && AlwaysAvail(c, u, b, k) && k <= Len(c, b)
    ensures Sound(c, Ren(ren, u), ValueOf(u), b, k) && AlwaysAvail(c, Ren(ren, u), b, k)
  {
    hide GoodEdges, GoodDefs, MayReplace, Sound, AlwaysAvail;
    SoundSelf(c, u, b, k);
    if u in ren {
      ReplaceSound(c, u, ren[u], ValueOf(u), b, k);
    }
    SoundIsAvail(c, Ren(ren, u), ValueOf(u), b, k);
  }

  lemma RenSem(c: Ctx, run: Setting, ren: Renaming, u: Value, path: seq<nat>, b: nat, k: nat)
    requires GoodEdges(c) && GoodDefs(c) && RenOk(c, ren) && AlwaysAvail(c, u, b, k) && k <= Len(c, b)
    requires PathTo(c.f, path, b) && c.machines(run.m)
    ensures Sem(c, run, Ren(ren, u), path, k) == Sem(c, run, u, path, k) && Avail(c, Ren(ren, u), path, k)
  {
    hide GoodEdges, GoodDefs, RenOk, Sem, AlwaysAvail;
    RenSame(c, ren, u, b, k);
    assert SoundOn(c, Ren(ren, u), ValueOf(u), path, k);
  }

  // ---------------------------------------------------------------- instructions

  lemma InstrUse(c: Ctx, b: nat, k: nat, u: Value)
    requires GoodUses(c) && b < |c.f.blocks| && k < Len(c, b) && UsedBy(c.f.blocks[b].body[k], u)
    ensures AlwaysAvail(c, u, b, k) && !u.NewPhi?
  {
    assert GoodUse(c, u, b, k);
  }

  lemma ResultSem(c: Ctx, run: Setting, path: seq<nat>, b: nat, k: nat)
    requires PathTo(c.f, path, b) && k < Len(c, b) && !c.f.blocks[b].body[k].Store?
    ensures var i := c.f.blocks[b].body[k];
            Sem(c, run, Instr(i.id), path, k + 1) ==
            Eval(Instr(i.id), ExecInstr(run.m, run.args, c.P, i, At(c, run, path, k)).env, run.args)
  {
    hide ExecInstr;
  }

  lemma OwnSem(c: Ctx, run: Setting, u: Value, path: seq<nat>, k: nat)
    requires IsPath(c.f, path) && k <= Len(c, path[|path| - 1]) && !u.NewPhi?
    ensures Sem(c, run, u, path, k) == Eval(u, At(c, run, path, k).env, run.args)
  {
  }

  /** The arguments of an operation, with or without renaming. */
  lemma ArgsSem(c: Ctx, run: Setting, ren: Renaming, path: seq<nat>, b: nat, k: nat)
    requires GoodEdges(c) && GoodDefs(c) && GoodUses(c) && RenOk(c, ren) && c.machines(run.m)
    requires PathTo(c.f, path, b) && k < Len(c, b) && c.f.blocks[b].body[k].Op?
    ensures SemAll(c, run, RenInstr(ren, c.f.blocks[b].body[k]).args, path, k) ==
            EvalAll(c.f.blocks[b].body[k].args, At(c, run, path, k).env, run.args)
  {
    hide GoodEdges, GoodDefs, GoodUses, RenOk, Sem, At, Eval;
    var i := c.f.blocks[b].body[k];
    forall j | 0 <= j < |i.args|
      ensures Sem(c, run, Ren(ren, i.args[j]), path, k) == Eval(i.args[j], At(c, run, path, k).env, run.args)
    {
      assert UsedBy(i, i.args[j]);
      InstrUse(c, b, k, i.args[j]);
      RenSem(c, run, ren, i.args[j], path, b, k);
      OwnSem(c, run, i.args[j], path, k);
    }
  }

  lemma SwapSem(c: Ctx, run: Setting, args: seq<Value>, path: seq<nat>, k: nat)
    requires IsPath(c.f, path) && k <= Len(c, path[|path| - 1]) && |args| == 2
    ensures SemAll(c, run, [args[1], args[0]], path, k) ==
              [SemAll(c, run, args, path, k)[1], SemAll(c, run, args, path, k)[0]]
    ensures SemAll(c, run, args, path, k) == [SemAll(c, run, args, path, k)[0], SemAll(c, run, args, path, k)[1]]
  {
    hide Sem;
  }

  /** An instruction computes what its key, after renaming, stands for. */
  lemma InstrValue(c: Ctx, run: Setting, o: Opcodes, ren: Renaming, path: seq<nat>, b: nat, k: nat)
    requires GoodEdges(c) && GoodDefs(c) && GoodUses(c) && Suits(c, o) && RenOk(c, ren) && c.machines(run.m)
    requires PathTo(c.f, path, b) && k < Len(c, b) && KeyOf(o, RenInstr(ren, c.f.blocks[b].body[k])).Some?
    ensures !c.f.blocks[b].body[k].Store?
    ensures Sem(c, run, Instr(c.f.blocks[b].body[k].id), path, k + 1) ==
              KeySem(c, run, KeyOf(o, RenInstr(ren, c.f.blocks[b].body[k])).value, path, k)
  {
    hide GoodEdges, GoodDefs, GoodUses, RenOk, Sem, At, SemAll;
    var i := c.f.blocks[b].body[k];
    var s := At(c, run, path, k);
    ResultSem(c, run, path, b, k);
    if i.Op? {
      ArgsSem(c, run, ren, path, b, k);
      var args := RenInstr(ren, i).args;
      if KeyOf(o, RenInstr(ren, i)).value.args != args {
        SwapSem(c, run, args, path, k);
        var xs := SemAll(c, run, args, path, k);
        CommutativeSame(run.m, o, i.code.n, xs[0], xs[1], s.world);
      }
    } else {
      assert UsedBy(i, i.addr);
      InstrUse(c, b, k, i.addr);
      RenSem(c, run, ren, i.addr, path, b, k);
      OwnSem(c, run, i.addr, path, k);
    }
  }

  lemma CommutativeSame(m: Machine, o: Opcodes, n: nat, a: int, b: int, w: int)
    requires WellBehaved(m, o) && n in o.commutative
    ensures m(DoOp(Other(n)), [a, b], w) == m(DoOp(Other(n)), [b, a], w)
  {
  }

  ghost predicate Numbers(c: Ctx, o: Opcodes, ren: Renaming, b: nat, k: nat, key: Key) {
    && GoodEdges(c) && GoodDefs(c) && GoodUses(c) && Suits(c, o) && RenOk(c, ren)
    && b < |c.f.blocks| && k < Len(c, b) && KeyOf(o, RenInstr(ren, c.f.blocks[b].body[k])) == Some(key)
  }

  lemma ResultAvail(c: Ctx, b: nat, k: nat)
    requires GoodDefs(c) && b < |c.f.blocks| && k < Len(c, b) && !c.f.blocks[b].body[k].Store?
    ensures var x := Instr(c.f.blocks[b].body[k].id);
              x in c.defs && c.defs[x] == (b, k + 1) && AlwaysAvail(c, x, b, k + 1)
  {
    var x := Instr(c.f.blocks[b].body[k].id);
    forall path | PathTo(c.f, path, b)
      ensures Avail(c, x, path, k + 1)
    {
      assert DefinedAt(c, x, path, k + 1, |path| - 1);
    }
  }

  /** An instruction whose key is in the map may be replaced by the mapped value. */
  lemma InstrReplace(c: Ctx, o: Opcodes, ren: Renaming, b: nat, k: nat, key: Key, y: Value)
    requires Numbers(c, o, ren, b, k, key) && EntryOk(c, o, key, y, b, k)
    ensures !c.f.blocks[b].body[k].Store? && MayReplace(c, Instr(c.f.blocks[b].body[k].id), y)
  {
    hide GoodEdges, GoodDefs, GoodUses, Suits, RenOk, Sem, KeySem, KeyOf, AlwaysAvail;
    var i := c.f.blocks[b].body[k];
    var x, k' := Instr(i.id), k + 1;
    KeyIsResult(o, RenInstr(ren, i));
    ResultAvail(c, b, k);
    forall path | PathTo(c.f, path, b)
      ensures SoundOn(c, y, ValueOf(x), path, k')
    {
      AvailOn(c, y, b, k, path);
      StepAvail(c, y, path, b, k);
      forall run: Setting | c.machines(run.m)
        ensures Sem(c, run, y, path, k') == Sem(c, run, x, path, k')
      {
        InstrValue(c, run, o, ren, path, b, k);
        StepSem(c, run, y, path, b, k);
        assert EntryOn(c, run, key, y, path, k);
      }
    }
  }

  lemma KeyIsResult(o: Opcodes, i: Instruction)
    requires KeyOf(o, i).Some?
    ensures !i.Store? && !Clobbers(i) && !i.Alloca?
  {
  }

  lemma AvailOn(c: Ctx, v: Value, b: nat, k: nat, path: seq<nat>)
    requires AlwaysAvail(c, v, b, k) && PathTo(c.f, path, b)
    ensures Avail(c, v, path, k)
  {
  }

  /** The operands in a key are the renamed operands of the instruction. */
  lemma KeyFromUse(o: Opcodes, ren: Renaming, i: Instruction, key: Key, u: Value)
    requires KeyOf(o, RenInstr(ren, i)) == Some(key) && KeyUses(key, u)
    ensures exists v :: UsedBy(i, v) && Ren(ren, v) == u
  {
    if i.Load? {
      assert UsedBy(i, i.addr);
    } else {
      var args' := RenInstr(ren, i).args;
      var j :| 0 <= j < |args'| && args'[j] == u;
      assert UsedBy(i, i.args[j]);
    }
  }

  lemma KeyAvail(c: Ctx, o: Opcodes, ren: Renaming, b: nat, k: nat, key: Key, u: Value)
    requires Numbers(c, o, ren, b, k, key) && KeyUses(key, u)
    ensures AlwaysAvail(c, u, b, k)
  {
    hide GoodEdges, GoodDefs, GoodUses, Suits, RenOk, KeyOf, AlwaysAvail, KeyUses;
    KeyFromUse(o, ren, c.f.blocks[b].body[k], key, u);
    var v :| UsedBy(c.f.blocks[b].body[k], v) && Ren(ren, v) == u;
    InstrUse(c, b, k, v);
    RenSame(c, ren, v, b, k);
  }

  /** An instruction that stays is what its key stands for. */
  lemma InstrEntry(c: Ctx, o: Opcodes, ren: Renaming, b: nat, k: nat, key: Key)
    requires Numbers(c, o, ren, b, k, key)
    ensures EntryOk(c, o, key, Instr(c.f.blocks[b].body[k].id), b, k + 1)
  {
    hide GoodEdges, GoodDefs, GoodUses, Suits, RenOk, Sem, KeySem, KeyOf, AlwaysAvail, KeyUses, Clobbers;
    var i := c.f.blocks[b].body[k];
    var x, k' := Instr(i.id), k + 1;
    KeyIsResult(o, RenInstr(ren, i));
    SameKind(ren, i);
    KeyCode(o, RenInstr(ren, i));
    ResultAvail(c, b, k);
    forall u | KeyUses(key, u)
      ensures AlwaysAvail(c, u, b, k) && AlwaysAvail(c, u, b, k')
    {
      KeyAvail(c, o, ren, b, k, key, u);
      AvailNext(c, u, b, k);
    }
    forall path, run: Setting | PathTo(c.f, path, b) && c.machines(run.m)
      ensures EntryOn(c, run, key, x, path, k')
    {
      InstrValue(c, run, o, ren, path, b, k);
      KeyNext(c, run, o, key, path, b, k);
    }
  }

  lemma SameKind(ren: Renaming, i: Instruction)
    ensures Clobbers(RenInstr(ren, i)) <==> Clobbers(i)
    ensures RenInstr(ren, i).id == i.id && (RenInstr(ren, i).Store? <==> i.Store?)
  {
  }

  lemma KeyCode(o: Opcodes, i: Instruction)
    ensures KeyOf(o, i).Some? && KeyOf(o, i).value.OpKey? ==> KeyOf(o, i).value.code in o.numbered
  {
  }

  // ---------------------------------------------------------------- phis

  lemma PhiUse(c: Ctx, x: Value, p: nat)
    requires GoodUses(c) && GoodPhis(c) && x in c.f.phis && p < |c.f.blocks|
    ensures AlwaysAvail(c, Incoming(c.f.phis[x].ops, p), p, Len(c, p)) && !Incoming(c.f.phis[x].ops, p).NewPhi?
  {
    var ops := c.f.phis[x].ops;
    if (Incoming(ops, p), p) in ops {
      var i :| 0 <= i < |ops| && ops[i] == (Incoming(ops, p), p);
      assert GoodUse(c, ops[i].0, ops[i].1, |c.f.blocks[ops[i].1].body|);
    }
  }

  /** On entry through every edge a phi has the value of its renamed operand there. */
  lemma PhiValue(c: Ctx, run: Setting, ren: Renaming, x: Value, path: seq<nat>, b: nat)
    requires GoodEdges(c) && GoodDefs(c) && GoodUses(c) && GoodPhis(c) && RenOk(c, ren) && c.machines(run.m)
    requires PathTo(c.f, path, b) && x in c.f.phis && c.f.phis[x].block == b
    ensures Sem(c, run, x, path, 0) == KeySem(c, run, PhiKey(RenOps(ren, c.f.phis[x].ops)), path, 0)
  {
    hide GoodDefs, GoodUses, RenOk, Sem, At, AlwaysAvail, Incoming, Complete;
    PathHasPred(c, path, b);
    var p, front := path[|path| - 2], path[..|path| - 1];
    var ops := c.f.phis[x].ops;
    PhiName(c, x);
    OwnPhiAtEdge(c, run, x, path);
    NoConst(c, ren);
    IncomingRen(ren, ops, p);
    assert front[|front| - 1] == p;
    PhiUse(c, x, p);
    RenSem(c, run, ren, Incoming(ops, p), front, p, Len(c, p));
  }

  lemma PhiName(c: Ctx, x: Value)
    requires GoodDefs(c) && x in c.f.phis
    ensures x.Instr? && x in c.defs && c.defs[x] == (c.f.phis[x].block, 0) && c.f.phis[x].block < |c.f.blocks|
  {
    assert DefPlace(c.f, x, c.defs[x]);
  }

  lemma NoConst(c: Ctx, ren: Renaming)
    requires RenOk(c, ren)
    ensures Const(0) !in ren
  {
    hide MayReplace;
  }

  ghost predicate NumbersPhi(c: Ctx, o: Opcodes, ren: Renaming, x: Value, b: nat) {
    && GoodEdges(c) && GoodDefs(c) && GoodUses(c) && GoodPhis(c) && Suits(c, o) && RenOk(c, ren)
    && x in c.f.phis && c.f.phis[x].block == b
  }

  lemma PhiAvail(c: Ctx, x: Value, b: nat)
    requires GoodDefs(c) && x in c.f.phis && c.f.phis[x].block == b
    ensures AlwaysAvail(c, x, b, 0)
  {
    PhiName(c, x);
    forall path | PathTo(c.f, path, b)
      ensures Avail(c, x, path, 0)
    {
      assert DefinedAt(c, x, path, 0, |path| - 1);
    }
  }

  /** A phi with the pairs of one that has an entry may be replaced by it. */
  lemma PhiReplace(c: Ctx, o: Opcodes, ren: Renaming, x: Value, b: nat, y: Value)
    requires NumbersPhi(c, o, ren, x, b) && EntryOk(c, o, PhiKey(RenOps(ren, c.f.phis[x].ops)), y, b, 0)
    ensures MayReplace(c, x, y)
  {
    hide GoodEdges, GoodDefs, GoodUses, GoodPhis, Suits, RenOk, Sem, KeySem, AlwaysAvail;
    PhiName(c, x);
    forall path | PathTo(c.f, path, b)
      ensures SoundOn(c, y, ValueOf(x), path, 0)
    {
      AvailOn(c, y, b, 0, path);
      forall run: Setting | c.machines(run.m)
        ensures Sem(c, run, y, path, 0) == Sem(c, run, x, path, 0)
      {
        PhiValue(c, run, ren, x, path, b);
        assert EntryOn(c, run, PhiKey(RenOps(ren, c.f.phis[x].ops)), y, path, 0);
      }
    }
  }

  /** A phi that stays is what its key stands for. */
  lemma PhiEntry(c: Ctx, o: Opcodes, ren: Renaming, x: Value, b: nat)
    requires NumbersPhi(c, o, ren, x, b)
    ensures EntryOk(c, o, PhiKey(RenOps(ren, c.f.phis[x].ops)), x, b, 0)
  {
    hide GoodEdges, GoodDefs, GoodUses, GoodPhis, Suits, RenOk, Sem, KeySem, AlwaysAvail;
    PhiAvail(c, x, b);
    forall path, run: Setting | PathTo(c.f, path, b) && c.machines(run.m)
      ensures EntryOn(c, run, PhiKey(RenOps(ren, c.f.phis[x].ops)), x, path, 0)
    {
      PhiValue(c, run, ren, x, path, b);
    }
  }
}
