/** Modules of functions that call each other, executed one instruction at a time on a
    stack of frames.  Reading a value that has not been computed is an error: execution
    is then stuck. */
module Calls {
  import opened IR
  import opened SsaPaths

  datatype Function = Function(numArgs: nat, hasResult: bool, isInline: bool, body: Func)

  /** The functions that have a body.  A direct call to a number beyond them leaves the
      module and is up to the machine. */
  type Module = seq<Function>

  datatype Frame = Frame(fn: nat, block: nat, k: nat, env: map<Value, int>, args: seq<int>)

  /** The frame of the running function comes first. */
  datatype Config = Exec(stack: seq<Frame>, world: int) | Done(val: int, world: int) | Stuck

  predicate Computed(v: Value, env: map<Value, int>, args: seq<int>) {
    match v
    case Const(_) => true
    case Arg(i) => i < |args|
    case _ => v in env
  }

  predicate IsCall(mod: Module, i: Instruction) {
    i.Op? && i.code.Call? && i.code.callee < |mod|
  }

  ghost predicate Ready(i: Instruction, fr: Frame) {
    forall v :: UsedBy(i, v) ==> Computed(v, fr.env, fr.args)
  }

  ghost predicate ReadyTerm(t: Terminator, fr: Frame) {
    forall v :: UsedByTerm(t, v) ==> Computed(v, fr.env, fr.args)
  }

  ghost predicate ReadyPhis(f: Func, fr: Frame, t: nat) {
    forall v :: v in f.phis && f.phis[v].block == t ==> Computed(Incoming(f.phis[v].ops, fr.block), fr.env, fr.args)
  }

  /** What the running frame does next. */
  datatype Action =
    | Goto(fr: Frame, world: int)
    | Push(callee: nat, args: seq<int>)
    | Pop(val: int)
    | Error

  ghost function ActInstr(m: Machine, mod: Module, i: Instruction, fr: Frame, w: int): Action {
    if !Ready(i, fr) then Error
    else if IsCall(mod, i) then
      if |i.args| == mod[i.code.callee].numArgs then Push(i.code.callee, EvalAll(i.args, fr.env, fr.args)) else Error
    else
      var s := ExecInstr(m, fr.args, {}, i, State(fr.env, map[], w));
      Goto(fr.(k := fr.k + 1, env := s.env), s.world)
  }

  ghost function ActEdge(f: Func, fr: Frame, t: nat, w: int): Action {
    if t >= |f.blocks| || !ReadyPhis(f, fr, t) then Error
    else Goto(fr.(block := t, k := 0, env := Enter(f, fr.args, fr.block, t, State(fr.env, map[], w)).env), w)
  }

  ghost function ActTerm(f: Func, t: Terminator, fr: Frame, w: int): Action {
    if !ReadyTerm(t, fr) then Error
    else if t.Ret? then Pop(Eval(t.val, fr.env, fr.args))
    else ActEdge(f, fr, Next(t, State(fr.env, map[], w), fr.args), w)
  }

  ghost function Act(m: Machine, mod: Module, fr: Frame, w: int): Action {
    if fr.fn >= |mod| || fr.block >= |mod[fr.fn].body.blocks| then Error
    else
      var blk := mod[fr.fn].body.blocks[fr.block];
      if fr.k < |blk.body| then ActInstr(m, mod, blk.body[fr.k], fr, w)
      else ActTerm(mod[fr.fn].body, blk.term, fr, w)
  }

  /** A frame that waits at a call goes on with the call's result. */
  function Assign(mod: Module, fr: Frame, val: int): Frame {
    if fr.fn < |mod| && fr.block < |mod[fr.fn].body.blocks| then
      var body := mod[fr.fn].body.blocks[fr.block].body;
      if fr.k < |body| && body[fr.k].Op? then fr.(k := fr.k + 1, env := fr.env[Instr(body[fr.k].id) := val]) else fr
    else fr
  }

  function Resume(mod: Module, stack: seq<Frame>, val: int, w: int): Config {
    if stack == [] then Done(val, w) else Exec([Assign(mod, stack[0], val)] + stack[1..], w)
  }

  ghost function Step(m: Machine, mod: Module, c: Config): Config {
    if !c.Exec? then c
    else if c.stack == [] then Stuck
    else
      match Act(m, mod, c.stack[0], c.world)
      case Goto(fr, w) => Exec([fr] + c.stack[1..], w)
      case Push(g, args) => Exec([Frame(g, 0, 0, map[], args)] + c.stack, c.world)
      case Pop(val) => Resume(mod, c.stack[1..], val, c.world)
      case Error => Stuck
  }

  function Init(g: nat, args: seq<int>, w: int): Config {
    Exec([Frame(g, 0, 0, map[], args)], w)
  }

  ghost function Steps(m: Machine, mod: Module, c: Config, n: nat): Config {
    if n == 0 then c else Step(m, mod, Steps(m, mod, c, n - 1))
  }

  /** What can be seen of an execution. */
  datatype Observation = Going(world: int) | Ended(val: int, world: int) | Wrong

  function Observe(c: Config): Observation {
    match c
    case Exec(_, w) => Going(w)
    case Done(v, w) => Ended(v, w)
    case Stuck => Wrong
  }

  ghost predicate AgreeOn(mod: Module, mod': Module, m: Machine, g: nat, args: seq<int>, w: int, n: nat) {
    var o := Observe(Steps(m, mod, Init(g, args, w), n));
    o != Wrong ==> Observe(Steps(m, mod', Init(g, args, w), n)) == o
  }

  /** Every execution that does not go wrong looks the same after every number of steps. */
  ghost predicate Refines(mod: Module, mod': Module) {
    |mod| == |mod'| &&
    forall m: Machine, g: nat, args: seq<int>, w: int, n: nat :: g < |mod| ==> AgreeOn(mod, mod', m, g, args, w, n)
  }

  lemma RefinesTrans(a: Module, b: Module, c: Module)
    requires Refines(a, b) && Refines(b, c)
    ensures Refines(a, c)
  {
    hide Steps, Observe;
    forall m: Machine, g: nat, args: seq<int>, w: int, n: nat | g < |a|
      ensures AgreeOn(a, c, m, g, args, w, n)
    {
      assert AgreeOn(a, b, m, g, args, w, n);
      assert AgreeOn(b, c, m, g, args, w, n);
    }
  }
}
