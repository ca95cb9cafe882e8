/** What values mean along control-flow paths of the function before promotion.

    Nothing here depends on the state of the pass.  `Sound(c, v, t, b, k)` says that on
    every path to instruction k of block b the value v has been computed and equals the
    target t, where t is the content of a slot or another value.  The pass keeps such
    facts about its tables; they stay true while the tables change. */
module SsaPaths {
  import opened IR
  import opened Cfg

  /** A function together with what a pass knows about it: predecessor arrays, the
      promoted allocas, where each result is defined, and the machines it is for. */
  datatype Ctx = Ctx(
    f: Func,
    preds: seq<seq<nat>>,
    P: set<nat>,
    defs: map<Value, (nat, nat)>,
    machines: Machine -> bool)

  /** One way to run a function. */
  datatype Setting = Setting(m: Machine, args: seq<int>, w0: int)

  // ---------------------------------------------------------------- well-formed input

  predicate Defines(i: Instruction, v: Value) {
    !i.Store? && v == Instr(i.id)
  }

  predicate UsedBy(i: Instruction, v: Value) {
    match i
    case Alloca(_) => false
    case Load(_, addr) => v == addr
    case Store(_, addr, val) => v == addr || v == val
    case Op(_, _, args) => v in args
  }

  predicate UsedByTerm(t: Terminator, v: Value) {
    match t
    case Ret(u) => v == u
    case Branch(_) => false
    case BranchIf(u, _, _) => v == u
  }

  /** Uses of an alloca that allow its promotion: it is loaded from or stored to. */
  predicate SlotUse(i: Instruction, v: Value) {
    match i
    case Alloca(_) => true
    case Load(_, _) => true
    case Store(_, _, val) => val != v
    case Op(_, _, args) => v !in args
  }

  ghost predicate Promotable(f: Func, a: nat) {
    && (forall b, k :: 0 <= b < |f.blocks| && 0 <= k < |f.blocks[b].body| ==> SlotUse(f.blocks[b].body[k], Instr(a)))
    && (forall b :: 0 <= b < |f.blocks| ==> !UsedByTerm(f.blocks[b].term, Instr(a)))
    && (forall v, i :: v in f.phis && 0 <= i < |f.phis[v].ops| ==> f.phis[v].ops[i].0 != Instr(a))
  }

  /** One operand pair for each predecessor edge. */
  ghost predicate Complete(preds: seq<seq<nat>>, phi: Phi) {
    phi.block < |preds| && multiset(Preds(phi.ops)) == multiset(preds[phi.block])
  }

  /** Place (b, 0) is the phis of b, place (b, k + 1) its instruction k. */
  ghost predicate DefPlace(f: Func, v: Value, place: (nat, nat)) {
    && v.Instr?
    && place.0 < |f.blocks|
    && place.1 <= |f.blocks[place.0].body|
    && if place.1 == 0 then v in f.phis else Defines(f.blocks[place.0].body[place.1 - 1], v)
  }

  /** A graph whose entry has no predecessors. */
  ghost predicate GoodEdges(c: Ctx) {
    GoodGraph(c.f, c.preds) && c.preds[0] == []
  }

  /** Every result is defined at exactly one place. */
  ghost predicate GoodDefs(c: Ctx) {
    && (forall b, k :: 0 <= b < |c.f.blocks| && 0 <= k < |c.f.blocks[b].body| && !c.f.blocks[b].body[k].Store? ==>
          Instr(c.f.blocks[b].body[k].id) in c.defs && c.defs[Instr(c.f.blocks[b].body[k].id)] == (b, k + 1))
    && (forall v :: v in c.f.phis ==> v in c.defs && c.defs[v] == (c.f.phis[v].block, 0))
    && (forall v :: v in c.defs ==> DefPlace(c.f, v, c.defs[v]))
  }

  /** Phis are below the entry and have one operand pair per edge; pairs for two edges
      from the same block agree. */
  ghost predicate GoodPhis(c: Ctx) {
    && (forall v :: v in c.f.phis ==> c.f.phis[v].block != 0 && Complete(c.preds, c.f.phis[v]))
    && (forall v, i, j ::
          v in c.f.phis && 0 <= i < j < |c.f.phis[v].ops| && c.f.phis[v].ops[i].1 == c.f.phis[v].ops[j].1 ==>
          c.f.phis[v].ops[i].0 == c.f.phis[v].ops[j].0)
  }

  /** An operand is the function's own and its definition dominates the use. */
  ghost predicate GoodUse(c: Ctx, v: Value, b: nat, k: nat) {
    !v.NewPhi? && AlwaysAvail(c, v, b, k)
  }

  ghost predicate GoodUses(c: Ctx) {
    && (forall b, k, v :: 0 <= b < |c.f.blocks| && 0 <= k < |c.f.blocks[b].body| && UsedBy(c.f.blocks[b].body[k], v) ==>
          GoodUse(c, v, b, k))
    && (forall b, v :: 0 <= b < |c.f.blocks| && UsedByTerm(c.f.blocks[b].term, v) ==>
          GoodUse(c, v, b, |c.f.blocks[b].body|))
    && (forall v, i :: v in c.f.phis && 0 <= i < |c.f.phis[v].ops| ==>
          c.f.phis[v].ops[i].1 < |c.f.blocks| &&
          GoodUse(c, c.f.phis[v].ops[i].0, c.f.phis[v].ops[i].1, |c.f.blocks[c.f.phis[v].ops[i].1].body|))
  }

  /** The promoted allocas are in the entry block and are only loaded and stored. */
  ghost predicate GoodSlots(c: Ctx) {
    forall a :: a in c.P ==> |c.f.blocks| > 0 && Alloca(a) in c.f.blocks[0].body && Promotable(c.f, a)
  }

  ghost predicate WellFormed(c: Ctx) {
    GoodEdges(c) && GoodDefs(c) && GoodPhis(c) && GoodUses(c) && GoodSlots(c)
  }

  // ---------------------------------------------------------------- states along paths

  ghost function Len(c: Ctx, b: nat): nat {
    if b < |c.f.blocks| then |c.f.blocks[b].body| else 0
  }

  /** The state after the path has been followed and the first k instructions of its last
      block have been executed. */
  ghost function At(c: Ctx, run: Setting, path: seq<nat>, k: nat): State
    requires IsPath(c.f, path) && k <= Len(c, path[|path| - 1])
    decreases |path|, k
  {
    var b := path[|path| - 1];
    if k > 0 then
      ExecInstr(run.m, run.args, c.P, c.f.blocks[b].body[k - 1], At(c, run, path, k - 1))
    else if |path| == 1 then
      Start(run.w0)
    else
      assert IsPath(c.f, path[..|path| - 1]) by { PrefixIsPath(c.f, path, |path| - 2); }
      Enter(c.f, run.args, path[|path| - 2], b, AtEnd(c, run, path[..|path| - 1]))
  }

  ghost function AtEnd(c: Ctx, run: Setting, path: seq<nat>): State
    requires IsPath(c.f, path)
    decreases |path|, Len(c, path[|path| - 1]) + 1
  {
    At(c, run, path, Len(c, path[|path| - 1]))
  }

  // ---------------------------------------------------------------- availability

  ghost predicate HasDef(c: Ctx, v: Value) {
    v.NewPhi? || v in c.defs
  }

  ghost function DefBlock(c: Ctx, v: Value): nat
    requires HasDef(c, v)
  {
    if v.NewPhi? then v.block else c.defs[v].0
  }

  /** The number of body instructions executed before v has its value: 0 for a phi. */
  ghost function DefIndex(c: Ctx, v: Value): nat
    requires HasDef(c, v)
  {
    if v.NewPhi? then 0 else c.defs[v].1
  }

  /** v gets a value at the i-th block of the path. */
  ghost predicate DefinedAt(c: Ctx, v: Value, path: seq<nat>, k: nat, i: int) {
    HasDef(c, v) && 0 <= i < |path| && path[i] == DefBlock(c, v) && (i < |path| - 1 || DefIndex(c, v) <= k)
  }

  ghost predicate Avail(c: Ctx, v: Value, path: seq<nat>, k: nat) {
    v.Const? || v.Arg? || exists i :: DefinedAt(c, v, path, k, i)
  }

  ghost predicate AlwaysAvail(c: Ctx, v: Value, b: nat, k: nat) {
    forall path :: PathTo(c.f, path, b) ==> Avail(c, v, path, k)
  }

  /** The last place on the path, before position n, where v gets a value. */
  ghost function LastDef(c: Ctx, v: Value, path: seq<nat>, k: nat, n: nat): (i: nat)
    requires n <= |path| && exists i :: i < n && DefinedAt(c, v, path, k, i)
    ensures i < n && DefinedAt(c, v, path, k, i)
    ensures forall j :: i < j < n ==> !DefinedAt(c, v, path, k, j)
  {
    if DefinedAt(c, v, path, k, n - 1) then n - 1 else LastDef(c, v, path, k, n - 1)
  }

  ghost function FirstIndex(path: seq<nat>, b: nat): (i: nat)
    requires b in path
    ensures i < |path| && path[i] == b
    ensures forall j :: 0 <= j < i ==> path[j] != b
  {
    if path[0] == b then 0 else 1 + FirstIndex(path[1..], b)
  }

  ghost function LastIndex(path: seq<nat>, b: nat): (i: nat)
    requires b in path
    ensures i < |path| && path[i] == b
    ensures forall j :: i < j < |path| ==> path[j] != b
  {
    if path[|path| - 1] == b then |path| - 1 else LastIndex(path[..|path| - 1], b)
  }

  // ---------------------------------------------------------------- meaning of values

  /** A phi created for slot a in block b stands for the content of a when b was last
      entered; every other value for what it last evaluated to. */
  ghost function Sem(c: Ctx, run: Setting, v: Value, path: seq<nat>, k: nat): int
    requires IsPath(c.f, path) && k <= Len(c, path[|path| - 1])
  {
    if v.NewPhi? then
      if v.block in path then
        var i := LastIndex(path, v.block);
        assert IsPath(c.f, path[..i + 1]) by { PrefixIsPath(c.f, path, i); }
        Slot(At(c, run, path[..i + 1], 0).slots, v.slot)
      else 0
    else
      Eval(v, At(c, run, path, k).env, run.args)
  }

  datatype Target = SlotOf(a: nat) | ValueOf(v: Value)

  ghost function Meaning(c: Ctx, run: Setting, t: Target, path: seq<nat>, k: nat): int
    requires IsPath(c.f, path) && k <= Len(c, path[|path| - 1])
  {
    match t
    case SlotOf(a) => Slot(At(c, run, path, k).slots, a)
    case ValueOf(v) => Sem(c, run, v, path, k)
  }

  /** However the function is run. */
  ghost predicate SoundOn(c: Ctx, v: Value, t: Target, path: seq<nat>, k: nat)
    requires IsPath(c.f, path) && k <= Len(c, path[|path| - 1])
  {
    Avail(c, v, path, k) && forall run: Setting :: c.machines(run.m) ==>
      Sem(c, run, v, path, k) == Meaning(c, run, t, path, k)
  }

  ghost predicate Sound(c: Ctx, v: Value, t: Target, b: nat, k: nat) {
    k <= Len(c, b) && forall path :: PathTo(c.f, path, b) ==> SoundOn(c, v, t, path, k)
  }

  /** Wherever x gets its value, y has been computed and is equal to it. */
  ghost predicate SameWhenDefined(c: Ctx, x: Value, y: Value, path: seq<nat>)
    requires HasDef(c, x) && PathTo(c.f, path, DefBlock(c, x)) && DefIndex(c, x) <= Len(c, DefBlock(c, x))
  {
    SoundOn(c, y, ValueOf(x), path, DefIndex(c, x))
  }

  ghost predicate MayReplace(c: Ctx, x: Value, y: Value) {
    && HasDef(c, x)
    && DefIndex(c, x) <= Len(c, DefBlock(c, x))
    && (forall path :: PathTo(c.f, path, DefBlock(c, x)) ==> SameWhenDefined(c, x, y, path))
  }

  // ---------------------------------------------------------------- stability

  lemma ExecFrame(c: Ctx, run: Setting, i: Instruction, s: State, v: Value)
    requires !Defines(i, v)
    ensures var s' := ExecInstr(run.m, run.args, c.P, i, s);
            (v in s'.env <==> v in s.env) && (v in s.env ==> s'.env[v] == s.env[v])
  {
  }

  ghost predicate IsLastDef(c: Ctx, v: Value, path: seq<nat>, k: nat, i: nat) {
    DefinedAt(c, v, path, k, i) && forall j :: i < j < |path| ==> !DefinedAt(c, v, path, k, j)
  }

  lemma NewPhiStable(c: Ctx, run: Setting, v: Value, path: seq<nat>, k: nat, i: nat)
    requires v.NewPhi?
    requires IsPath(c.f, path) && k <= Len(c, path[|path| - 1])
    requires IsLastDef(c, v, path, k, i)
    ensures IsPath(c.f, path[..i + 1])
    ensures Sem(c, run, v, path, k) == Sem(c, run, v, path[..i + 1], 0)
  {
    PrefixIsPath(c.f, path, i);
    forall j | i < j < |path|
      ensures path[j] != v.block
    {
      assert !DefinedAt(c, v, path, k, j);
    }
    assert LastIndex(path, v.block) == i;
    assert LastIndex(path[..i + 1], v.block) == i;
    assert path[..i + 1][..i + 1] == path[..i + 1];
  }

  /** An instruction that does not define v leaves it alone. */
  lemma StepStable(c: Ctx, run: Setting, v: Value, path: seq<nat>, k: nat, i: nat)
    requires GoodDefs(c) && !v.NewPhi?
    requires IsPath(c.f, path) && 0 < k <= Len(c, path[|path| - 1])
    requires IsLastDef(c, v, path, k, i)
    requires i < |path| - 1 || k != DefIndex(c, v)
    ensures IsLastDef(c, v, path, k - 1, i)
    ensures Sem(c, run, v, path, k) == Sem(c, run, v, path, k - 1)
  {
    var last := |path| - 1;
    var k' := k - 1;
    var instr := c.f.blocks[path[last]].body[k'];
    if Defines(instr, v) {
      assert c.defs[v] == (path[last], k);
      assert DefinedAt(c, v, path, k, last);
      assert false;
    }
    ExecFrame(c, run, instr, At(c, run, path, k'), v);
    forall j | i < j < |path|
      ensures !DefinedAt(c, v, path, k', j)
    {
      assert !DefinedAt(c, v, path, k, j);
    }
  }

  lemma EnterFrame(f: Func, args: seq<int>, p: nat, b: nat, s: State, v: Value)
    requires v in f.phis ==> f.phis[v].block != b
    ensures Eval(v, Enter(f, args, p, b, s).env, args) == Eval(v, s.env, args)
  {
  }

  lemma AtEdge(c: Ctx, run: Setting, path: seq<nat>)
    requires IsPath(c.f, path) && |path| > 1
    ensures IsPath(c.f, path[..|path| - 1])
    ensures At(c, run, path, 0) ==
              Enter(c.f, run.args, path[|path| - 2], path[|path| - 1], AtEnd(c, run, path[..|path| - 1]))
  {
    PrefixIsPath(c.f, path, |path| - 2);
  }

  lemma LastDefBeforeEdge(c: Ctx, v: Value, path: seq<nat>, i: nat, e: nat)
    requires |path| > 1 && IsLastDef(c, v, path, 0, i) && i < |path| - 1
    requires DefIndex(c, v) <= e || i < |path| - 2
    ensures IsLastDef(c, v, path[..|path| - 1], e, i)
  {
    var front := path[..|path| - 1];
    forall j | i < j < |front|
      ensures !DefinedAt(c, v, front, e, j)
    {
      assert !DefinedAt(c, v, path, 0, j);
    }
  }

  /** So does an edge into a block of which v is not a phi. */
  lemma EdgeStable(c: Ctx, run: Setting, v: Value, path: seq<nat>, i: nat)
    requires GoodDefs(c) && !v.NewPhi?
    requires IsPath(c.f, path)
    requires IsLastDef(c, v, path, 0, i)
    requires i < |path| - 1
    ensures var front := path[..|path| - 1]; var e := Len(c, path[|path| - 2]);
            IsPath(c.f, front) && IsLastDef(c, v, front, e, i) && Sem(c, run, v, path, 0) == Sem(c, run, v, front, e)
  {
    var last := |path| - 1;
    AtEdge(c, run, path);
    assert !DefinedAt(c, v, path, 0, last);
    assert DefPlace(c.f, v, c.defs[v]);
    LastDefBeforeEdge(c, v, path, i, Len(c, path[last - 1]));
    EnterFrame(c.f, run.args, path[last - 1], path[last], AtEnd(c, run, path[..last]), v);
  }

  /** A value keeps what it had at the last place where it was defined. */
  lemma {:induction false} SemStable(c: Ctx, run: Setting, v: Value, path: seq<nat>, k: nat, i: nat)
    requires GoodDefs(c)
    requires IsPath(c.f, path) && k <= Len(c, path[|path| - 1])
    requires IsLastDef(c, v, path, k, i)
    ensures IsPath(c.f, path[..i + 1])
    ensures DefIndex(c, v) <= Len(c, path[i])
    ensures Sem(c, run, v, path, k) == Sem(c, run, v, path[..i + 1], DefIndex(c, v))
    decreases |path|, k
  {
    hide Sem;
    hide At;
    hide GoodDefs;
    var last := |path| - 1;
    if v.NewPhi? {
      NewPhiStable(c, run, v, path, k, i);
    } else if i == last && k == DefIndex(c, v) {
      assert path[..i + 1] == path;
    } else if k > 0 {
      StepStable(c, run, v, path, k, i);
      SemStable(c, run, v, path, k - 1, i);
    } else {
      EdgeStable(c, run, v, path, i);
      var front := path[..last];
      SemStable(c, run, v, front, Len(c, path[last - 1]), i);
      assert front[..i + 1] == path[..i + 1];
    }
  }
}
