/** The part of the IR that the function passes rewrite: values, instructions,
    basic blocks with phis, and a small interpreter for them.

    Block ids are positions in the function's block list, so block 0 is the entry.
    Phis are kept apart from the straight-line body because they sit at the top of
    their block and are all evaluated together when an edge is taken. */
module IR {

  /** An operand.  `Instr(id)` is the result of an instruction or phi that was in the
      function before the pass.  A phi that the SSA pass creates is named by a serial
      number, its parent block and the alloca it was created for. */
  datatype Value =
    | Const(c: int)
    | Arg(index: nat)
    | Instr(id: nat)
    | NewPhi(serial: nat, block: nat, slot: nat)

  /** A direct call names a function of the module; the first operand of a call, the
      callee, is part of the opcode here. */
  datatype Opcode = Other(n: nat) | Call(callee: nat)

  datatype Instruction =
    | Alloca(id: nat)
    | Load(id: nat, addr: Value)
    | Store(id: nat, addr: Value, val: Value)
    | Op(id: nat, code: Opcode, args: seq<Value>)

  datatype Terminator =
    | Ret(val: Value)
    | Branch(target: nat)
    | BranchIf(cond: Value, thn: nat, els: nat)

  datatype Block = Block(body: seq<Instruction>, term: Terminator)

  /** `ops` are the operand pairs (value, predecessor block). */
  datatype Phi = Phi(block: nat, ops: seq<(Value, nat)>)

  datatype Func = Func(blocks: seq<Block>, phis: map<Value, Phi>)

  /** The predecessors of the operand pairs. */
  function Preds(ops: seq<(Value, nat)>): (r: seq<nat>)
    ensures |r| == |ops|
  {
    seq(|ops|, i requires 0 <= i < |ops| => ops[i].1)
  }

  function Succs(t: Terminator): seq<nat> {
    match t
    case Ret(_) => []
    case Branch(b) => [b]
    case BranchIf(_, b0, b1) => [b0, b1]
  }

  datatype Request = DoAlloca | DoLoad | DoStore | DoOp(code: Opcode)

  /** The results of instructions that are not slot accesses come from a machine: given
      a request, operand values and the state of the world (memory that is not a private
      slot, I/O, callees), it yields a result and the next world. */
  type Machine = (Request, seq<int>, int) -> (int, int)

  datatype State = State(env: map<Value, int>, slots: map<nat, int>, world: int)

  datatype Outcome = Returned(val: int, world: int) | Running(block: nat, world: int)

  function Eval(v: Value, env: map<Value, int>, args: seq<int>): int {
    match v
    case Const(c) => c
    case Arg(i) => if i < |args| then args[i] else 0
    case _ => if v in env then env[v] else 0
  }

  function EvalAll(vs: seq<Value>, env: map<Value, int>, args: seq<int>): (r: seq<int>)
    ensures |r| == |vs|
  {
    seq(|vs|, i requires 0 <= i < |vs| => Eval(vs[i], env, args))
  }

  /** An uninitialised slot reads as zero. */
  function Slot(slots: map<nat, int>, a: nat): int {
    if a in slots then slots[a] else 0
  }

  predicate IsSlot(v: Value, P: set<nat>) {
    v.Instr? && v.id in P
  }

  /** One step of a block body.  Loads and stores through an alloca in `P` access that
      alloca's own slot; every other instruction is up to the machine. */
  function ExecInstr(m: Machine, args: seq<int>, P: set<nat>, i: Instruction, s: State): State {
    match i
    case Alloca(id) =>
      if id in P then
        s.(env := s.env[Instr(id) := 0])
      else
        var (v, w) := m(DoAlloca, [], s.world);
        s.(env := s.env[Instr(id) := v], world := w)
    case Load(id, addr) =>
      if IsSlot(addr, P) then
        s.(env := s.env[Instr(id) := Slot(s.slots, addr.id)])
      else
        var (v, w) := m(DoLoad, [Eval(addr, s.env, args)], s.world);
        s.(env := s.env[Instr(id) := v], world := w)
    case Store(id, addr, val) =>
      if IsSlot(addr, P) then
        s.(slots := s.slots[addr.id := Eval(val, s.env, args)])
      else
        var (v, w) := m(DoStore, [Eval(addr, s.env, args), Eval(val, s.env, args)], s.world);
        s.(world := w)
    case Op(id, code, ops) =>
      var (v, w) := m(DoOp(code), EvalAll(ops, s.env, args), s.world);
      s.(env := s.env[Instr(id) := v], world := w)
  }

  function ExecBody(m: Machine, args: seq<int>, P: set<nat>, body: seq<Instruction>, s: State): State {
    if body == [] then s
    else ExecInstr(m, args, P, body[|body| - 1], ExecBody(m, args, P, body[..|body| - 1], s))
  }

  /** The value paired with predecessor `p`, the first one if there are several. */
  function Incoming(ops: seq<(Value, nat)>, p: nat): (r: Value)
    ensures (r, p) in ops || (r == Const(0) && forall i :: 0 <= i < |ops| ==> ops[i].1 != p)
  {
    if ops == [] then Const(0)
    else if ops[0].1 == p then ops[0].0
    else
      assert forall i :: 0 < i < |ops| ==> ops[i] == ops[1..][i - 1];
      Incoming(ops[1..], p)
  }

  /** Taking the edge p -> b evaluates all phis of b together, in the old environment. */
  function Enter(f: Func, args: seq<int>, p: nat, b: nat, s: State): State {
    s.(env := s.env + map v | v in f.phis && f.phis[v].block == b :: Eval(Incoming(f.phis[v].ops, p), s.env, args))
  }

  predicate ValidTargets(f: Func) {
    forall b, t :: 0 <= b < |f.blocks| && t in Succs(f.blocks[b].term) ==> t < |f.blocks|
  }

  function Next(t: Terminator, s: State, args: seq<int>): nat
    requires !t.Ret?
  {
    match t
    case Branch(b) => b
    case BranchIf(c, b0, b1) => if Eval(c, s.env, args) != 0 then b0 else b1
  }

  /** Runs f from the top of block b for at most `steps` further edges. */
  function Run(m: Machine, args: seq<int>, P: set<nat>, f: Func, b: nat, s: State, steps: nat): Outcome
    requires ValidTargets(f) && b < |f.blocks|
    decreases steps
  {
    var s' := ExecBody(m, args, P, f.blocks[b].body, s);
    match f.blocks[b].term
    case Ret(v) => Returned(Eval(v, s'.env, args), s'.world)
    case _ =>
      var t := Next(f.blocks[b].term, s', args);
      assert t in Succs(f.blocks[b].term);
      if steps == 0 then Running(t, s'.world)
      else Run(m, args, P, f, t, Enter(f, args, b, t, s'), steps - 1)
  }

  function Start(world: int): State {
    State(map[], map[], world)
  }
}
