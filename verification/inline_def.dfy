/** What inlining one call makes of the caller: the call's block is split, the callee's
    blocks are cloned with arguments substituted, its returns become branches to the
    rest of the split block and a phi there takes the place of the call's result. */
module InlineDef {
  import opened IR
  import opened SsaPaths
  import opened SsaState
  import opened Calls

  /** A call to be inlined: instruction i of block b of a function.  `vm` maps the values
      of the callee to their clones, `phi` is the new phi. */
  datatype Site = Site(f: Func, callee: Function, b: nat, i: nat, vm: map<Value, Value>, phi: Value)

  predicate AtCall(x: Site) {
    && x.b < |x.f.blocks|
    && x.i < |x.f.blocks[x.b].body|
    && x.f.blocks[x.b].body[x.i].Op?
    && x.f.blocks[x.b].body[x.i].code.Call?
  }

  function TheCall(x: Site): Instruction
    requires AtCall(x)
  {
    x.f.blocks[x.b].body[x.i]
  }

  function CallValue(x: Site): Value
    requires AtCall(x)
  {
    Instr(TheCall(x).id)
  }

  /** The first cloned block and the block with the rest of the split one. */
  function Clones(x: Site): nat {
    |x.f.blocks|
  }

  function Cont(x: Site): nat {
    |x.f.blocks| + |x.callee.body.blocks|
  }

  // ---------------------------------------------------------------- renaming

  /** The caller's values: the call's result becomes the phi. */
  function OwnValue(x: Site, v: Value): Value
    requires AtCall(x)
  {
    if x.callee.hasResult then Subst(CallValue(x), x.phi, v) else v
  }

  function MapValue(x: Site, v: Value): Value
    requires AtCall(x)
  {
    match v
    case Const(_) => v
    case Arg(j) => if j < |TheCall(x).args| then TheCall(x).args[j] else v
    case _ => if v in x.vm then x.vm[v] else v
  }

  /** The callee's values: arguments become the call's operands, results their clones. */
  function CloneValue(x: Site, v: Value): Value
    requires AtCall(x)
  {
    OwnValue(x, MapValue(x, v))
  }

  /** Renames the result and the operands of an instruction. */
  function Rename(id: nat, i: Instruction, r: Value -> Value): Instruction {
    match i
    case Alloca(_) => Alloca(id)
    case Load(_, addr) => Load(id, r(addr))
    case Store(_, addr, val) => Store(id, r(addr), r(val))
    case Op(_, code, args) => Op(id, code, seq(|args|, j requires 0 <= j < |args| => r(args[j])))
  }

  function RenameTerm(t: Terminator, r: Value -> Value): Terminator {
    match t
    case Ret(v) => Ret(r(v))
    case Branch(_) => t
    case BranchIf(v, b0, b1) => BranchIf(r(v), b0, b1)
  }

  function OwnInstr(x: Site, i: Instruction): Instruction
    requires AtCall(x)
  {
    Rename(i.id, i, v => OwnValue(x, v))
  }

  function OwnBody(x: Site, body: seq<Instruction>): (r: seq<Instruction>)
    requires AtCall(x)
    ensures |r| == |body|
  {
    seq(|body|, k requires 0 <= k < |body| => OwnInstr(x, body[k]))
  }

  function OwnTerm(x: Site, t: Terminator): Terminator
    requires AtCall(x)
  {
    RenameTerm(t, v => OwnValue(x, v))
  }

  function CloneId(x: Site, i: Instruction): nat {
    if Instr(i.id) in x.vm && x.vm[Instr(i.id)].Instr? then x.vm[Instr(i.id)].id else i.id
  }

  function CloneInstr(x: Site, i: Instruction): Instruction
    requires AtCall(x)
  {
    Rename(CloneId(x, i), i, v => CloneValue(x, v))
  }

  function CloneBody(x: Site, body: seq<Instruction>): (r: seq<Instruction>)
    requires AtCall(x)
    ensures |r| == |body|
  {
    seq(|body|, k requires 0 <= k < |body| => CloneInstr(x, body[k]))
  }

  function CloneTerm(x: Site, t: Terminator): Terminator
    requires AtCall(x)
  {
    match t
    case Ret(_) => Branch(Cont(x))
    case Branch(b) => Branch(Clones(x) + b)
    case BranchIf(v, b0, b1) => BranchIf(CloneValue(x, v), Clones(x) + b0, Clones(x) + b1)
  }

  // ---------------------------------------------------------------- blocks and phis

  function OwnBlock(x: Site, b: nat): Block
    requires AtCall(x) && b < |x.f.blocks|
  {
    var blk := x.f.blocks[b];
    if b == x.b then Block(OwnBody(x, blk.body[..x.i]), Branch(Clones(x)))
    else Block(OwnBody(x, blk.body), OwnTerm(x, blk.term))
  }

  function CloneBlock(x: Site, b: nat): Block
    requires AtCall(x) && b < |x.callee.body.blocks|
  {
    var blk := x.callee.body.blocks[b];
    Block(CloneBody(x, blk.body), CloneTerm(x, blk.term))
  }

  function ContBlock(x: Site): Block
    requires AtCall(x)
  {
    var blk := x.f.blocks[x.b];
    Block(OwnBody(x, blk.body[x.i + 1..]), OwnTerm(x, blk.term))
  }

  function NewBlocks(x: Site): (r: seq<Block>)
    requires AtCall(x)
    ensures |r| == Cont(x) + 1
  {
    seq(|x.f.blocks|, b requires 0 <= b < |x.f.blocks| => OwnBlock(x, b)) +
    seq(|x.callee.body.blocks|, b requires 0 <= b < |x.callee.body.blocks| => CloneBlock(x, b)) +
    [ContBlock(x)]
  }

  /** The operand pairs without those for a predecessor. */
  function DropPred(ops: seq<(Value, nat)>, p: nat): seq<(Value, nat)> {
    if ops == [] then []
    else if ops[0].1 == p then DropPred(ops[1..], p)
    else [ops[0]] + DropPred(ops[1..], p)
  }

  function CountPred(ops: seq<(Value, nat)>, p: nat): nat {
    if ops == [] then 0
    else CountPred(ops[1..], p) + if ops[0].1 == p then 1 else 0
  }

  /** Pairs for predecessor p are taken out, and as many for q put at the end, with the
      value that p had. */
  function MovePred(ops: seq<(Value, nat)>, p: nat, q: nat): seq<(Value, nat)> {
    DropPred(ops, p) + seq(CountPred(ops, p), _ => (Incoming(ops, p), q))
  }

  function OwnOps(x: Site, ops: seq<(Value, nat)>): (r: seq<(Value, nat)>)
    requires AtCall(x)
    ensures |r| == |ops|
  {
    seq(|ops|, j requires 0 <= j < |ops| => (OwnValue(x, ops[j].0), ops[j].1))
  }

  function OwnPhi(x: Site, p: Phi): Phi
    requires AtCall(x)
  {
    Phi(p.block, OwnOps(x, MovePred(p.ops, x.b, Cont(x))))
  }

  function CloneOps(x: Site, ops: seq<(Value, nat)>): (r: seq<(Value, nat)>)
    requires AtCall(x)
    ensures |r| == |ops|
  {
    seq(|ops|, j requires 0 <= j < |ops| => (CloneValue(x, ops[j].0), Clones(x) + ops[j].1))
  }

  function ClonePhi(x: Site, p: Phi): Phi
    requires AtCall(x)
  {
    Phi(Clones(x) + p.block, CloneOps(x, p.ops))
  }

  /** What the first n blocks of the callee return. */
  function Returns(x: Site, n: nat): seq<(Value, nat)>
    requires AtCall(x) && n <= |x.callee.body.blocks|
  {
    if n == 0 then []
    else
      var t := x.callee.body.blocks[n - 1].term;
      Returns(x, n - 1) + if t.Ret? then [(CloneValue(x, t.val), Clones(x) + n - 1)] else []
  }

  function ResultPhi(x: Site): Phi
    requires AtCall(x)
  {
    Phi(Cont(x), Returns(x, |x.callee.body.blocks|))
  }

  ghost predicate Injective(vm: map<Value, Value>) {
    forall u, v :: u in vm && v in vm && vm[u] == vm[v] ==> u == v
  }

  /** The caller after inlining. */
  ghost predicate IsInlined(x: Site, g: Func)
    requires AtCall(x)
  {
    && g.blocks == NewBlocks(x)
    && (forall v :: v in x.f.phis ==> v in g.phis && g.phis[v] == OwnPhi(x, x.f.phis[v]))
    && (forall v :: v in x.callee.body.phis ==>
      v in x.vm && x.vm[v] in g.phis && g.phis[x.vm[v]] == ClonePhi(x, x.callee.body.phis[v]))
    && (x.callee.hasResult ==> x.phi in g.phis && g.phis[x.phi] == ResultPhi(x))
    && (forall u :: u in g.phis ==> u in x.f.phis || ClonedPhi(x, u) || (x.callee.hasResult && u == x.phi))
  }

  ghost predicate ClonedPhi(x: Site, u: Value) {
    exists v :: v in x.callee.body.phis && v in x.vm && x.vm[v] == u
  }

  // ---------------------------------------------------------------- what may be inlined

  /** Every result has one definition. */
  ghost predicate OneDef(f: Func) {
    && (forall b, k, b', k' ::
          0 <= b < |f.blocks| && 0 <= k < |f.blocks[b].body| &&
          0 <= b' < |f.blocks| && 0 <= k' < |f.blocks[b'].body| ==>
          DistinctDefs(f, b, k, b', k'))
    && (forall b, k, v :: 0 <= b < |f.blocks| && 0 <= k < |f.blocks[b].body| && v in f.phis ==>
      !Defines(f.blocks[b].body[k], v))
  }

  ghost predicate DistinctDefs(f: Func, b: nat, k: nat, b': nat, k': nat)
    requires b < |f.blocks| && k < |f.blocks[b].body| && b' < |f.blocks| && k' < |f.blocks[b'].body|
  {
    var i, i' := f.blocks[b].body[k], f.blocks[b'].body[k'];
    !i.Store? && !i'.Store? && i.id == i'.id ==> b == b' && k == k'
  }

  ghost predicate PhiPlaced(f: Func, v: Value)
    requires v in f.phis
  {
    && !v.Const? && !v.Arg?
    && 0 < f.phis[v].block < |f.blocks|
    && forall j :: 0 <= j < |f.phis[v].ops| ==> f.phis[v].ops[j].1 < |f.blocks|
  }

  ghost predicate DefinedIn(f: Func, v: Value) {
    v in f.phis || exists b, k :: 0 <= b < |f.blocks| && 0 <= k < |f.blocks[b].body| && Defines(f.blocks[b].body[k], v)
  }

  ghost predicate UsedIn(f: Func, v: Value) {
    || (exists b, k :: 0 <= b < |f.blocks| && 0 <= k < |f.blocks[b].body| && UsedBy(f.blocks[b].body[k], v))
    || (exists b :: 0 <= b < |f.blocks| && UsedByTerm(f.blocks[b].term, v))
    || (exists u, j :: u in f.phis && 0 <= j < |f.phis[u].ops| && f.phis[u].ops[j].0 == v)
  }

  /** Blocks, targets and phis are in order, the entry has no phis, and operands are the
      function's own values. */
  ghost predicate GoodShape(f: Func) {
    && |f.blocks| > 0 && ValidTargets(f) && OneDef(f)
    && (forall v :: v in f.phis ==> PhiPlaced(f, v))
    && (forall v :: UsedIn(f, v) ==> v.Const? || v.Arg? || DefinedIn(f, v))
  }

  /** The clones' names are new in the caller and all different. */
  ghost predicate FreshNames(x: Site) {
    && Injective(x.vm)
    && (forall v :: DefinedIn(x.callee.body, v) ==>
      v in x.vm && x.vm[v].Instr? && x.vm[v] != x.phi && !DefinedIn(x.f, x.vm[v]))
    && x.phi.Instr? && !DefinedIn(x.f, x.phi)
  }

  /** Nobody uses the result of a call that has none. */
  ghost predicate VoidUnused(x: Site)
    requires AtCall(x)
  {
    !x.callee.hasResult ==> !UsedIn(x.f, CallValue(x))
  }

  ghost predicate MayInline(x: Site) {
    AtCall(x) && GoodShape(x.f) && GoodShape(x.callee.body) && FreshNames(x) && VoidUnused(x)
  }
}
