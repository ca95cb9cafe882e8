/** The inlining pass: calls to functions marked inline are inlined, callees first, in
    functions that are not part of a cycle of calls. */
module InlineFuncs {
  import opened Collections
  import opened IR
  import opened SsaPaths
  import opened SsaState
  import opened Calls
  import opened InlineDef
  import opened ReplaceUses
  import opened InlineSim
  import opened InlineValid
  import opened Components
  import opened CallGraphs

  // ---------------------------------------------------------------- the value map

  function Results(vm: map<Value, Value>): map<Value, Value> {
    map v | v in vm && !v.Arg? :: vm[v]
  }

  function LookUp(vm: map<Value, Value>, v: Value): Value {
    if v in vm then vm[v] else v
  }

  ghost predicate ArgsMapped(vm: map<Value, Value>, args: seq<Value>) {
    && (forall j: nat :: Arg(j) in vm <==> j < |args|)
    && (forall j: nat :: j < |args| ==> vm[Arg(j)] == args[j])
  }

  /** Results are mapped to different names, numbered from lo to hi. */
  ghost predicate NamesIn(vm: map<Value, Value>, lo: nat, hi: nat) {
    && lo <= hi
    && (forall u, v :: u in vm && v in vm && !u.Arg? && !v.Arg? && vm[u] == vm[v] ==> u == v)
    && (forall v :: v in vm && !v.Arg? ==> !v.Const? && vm[v].Instr? && lo <= vm[v].id < hi)
  }

  lemma NameNext(vm: map<Value, Value>, lo: nat, hi: nat, v: Value)
    requires NamesIn(vm, lo, hi) && !v.Arg? && !v.Const?
    ensures NamesIn(vm[v := Instr(hi)], lo, hi + 1)
  {
  }

  lemma LookUpIs(x: Site, vm: map<Value, Value>, lo: nat, hi: nat, v: Value)
    requires AtCall(x) && x.vm == Results(vm) && ArgsMapped(vm, TheCall(x).args) && NamesIn(vm, lo, hi)
    ensures LookUp(vm, v) == MapValue(x, v)
  {
  }

  // ---------------------------------------------------------------- renaming in two steps

  lemma RenameTwice(id: nat, i: Instruction, r: Value -> Value, q: Value -> Value, rq: Value -> Value)
    requires forall v :: rq(v) == q(r(v))
    ensures Rename(id, Rename(id, i, r), q) == Rename(id, i, rq)
  {
  }

  lemma RenameSame(id: nat, i: Instruction, r: Value -> Value, q: Value -> Value)
    requires forall v :: q(v) == r(v)
    ensures Rename(id, i, q) == Rename(id, i, r)
  {
  }

  function MapBody(x: Site, body: seq<Instruction>): seq<Instruction>
    requires AtCall(x)
  {
    seq(|body|, k requires 0 <= k < |body| => Rename(CloneId(x, body[k]), body[k], v => MapValue(x, v)))
  }

  function MapTerm(x: Site, t: Terminator): Terminator
    requires AtCall(x)
  {
    match t
    case Ret(v) => Ret(MapValue(x, v))
    case Branch(b) => Branch(Clones(x) + b)
    case BranchIf(v, b0, b1) => BranchIf(MapValue(x, v), Clones(x) + b0, Clones(x) + b1)
  }

  /** A callee block with operands looked up in the value map; it may still return. */
  function MapBlock(x: Site, b: nat): Block
    requires AtCall(x) && b < |x.callee.body.blocks|
  {
    Block(MapBody(x, x.callee.body.blocks[b].body), MapTerm(x, x.callee.body.blocks[b].term))
  }

  lemma ReplaceOwn(x: Site, b: nat)
    requires AtCall(x) && x.callee.hasResult && b < |x.f.blocks|
    ensures b != x.b ==> ReplaceIn(CallValue(x), x.phi, x.f.blocks[b]) == OwnBlock(x, b)
    ensures var blk := x.f.blocks[x.b];
            ReplaceIn(CallValue(x), x.phi, Block(blk.body[..x.i], Branch(Clones(x)))) == OwnBlock(x, x.b) &&
            ReplaceIn(CallValue(x), x.phi, Block(blk.body[x.i + 1..], blk.term)) == ContBlock(x)
  {
    hide Subst;
    forall i: Instruction
      ensures Rename(i.id, i, w => Subst(CallValue(x), x.phi, w)) == OwnInstr(x, i)
    {
      RenameSame(i.id, i, v => OwnValue(x, v), w => Subst(CallValue(x), x.phi, w));
    }
  }

  lemma KeepOwn(x: Site, b: nat)
    requires AtCall(x) && !x.callee.hasResult && b < |x.f.blocks|
    ensures b != x.b ==> x.f.blocks[b] == OwnBlock(x, b)
    ensures var blk := x.f.blocks[x.b];
            Block(blk.body[..x.i], Branch(Clones(x))) == OwnBlock(x, x.b) &&
            Block(blk.body[x.i + 1..], blk.term) == ContBlock(x)
  {
    forall i: Instruction
      ensures i == OwnInstr(x, i)
    {
      if i.Op? {
        assert OwnInstr(x, i).args == i.args;
      }
    }
  }

  /** A clone's terminator once its return has become a branch. */
  function BranchOut(t: Terminator, cont: nat): Terminator {
    if t.Ret? then Branch(cont) else t
  }

  lemma ReplaceClone(x: Site, b: nat)
    requires AtCall(x) && b < |x.callee.body.blocks|
    ensures var blk := MapBlock(x, b).(term := BranchOut(MapTerm(x, x.callee.body.blocks[b].term), Cont(x)));
            (x.callee.hasResult ==> ReplaceIn(CallValue(x), x.phi, blk) == CloneBlock(x, b)) &&
            (!x.callee.hasResult ==> blk == CloneBlock(x, b))
  {
    hide Subst, MapValue, CloneId;
    if x.callee.hasResult {
      forall i: Instruction
        ensures var j := Rename(CloneId(x, i), i, v => MapValue(x, v));
                  Rename(j.id, j, w => Subst(CallValue(x), x.phi, w)) == CloneInstr(x, i)
      {
        RenameTwice(CloneId(x, i), i, v => MapValue(x, v), w => Subst(CallValue(x), x.phi, w), v => CloneValue(x, v));
      }
    } else {
      forall i: Instruction
        ensures Rename(CloneId(x, i), i, v => MapValue(x, v)) == CloneInstr(x, i)
      {
        RenameSame(CloneId(x, i), i, v => CloneValue(x, v), v => MapValue(x, v));
      }
    }
  }

  // ---------------------------------------------------------------- calls in a function

  ghost predicate CallHere(f: Func, b: nat, k: nat, id: nat, h: nat) {
    && b < |f.blocks| && k < |f.blocks[b].body|
    && f.blocks[b].body[k].Op? && f.blocks[b].body[k].id == id && f.blocks[b].body[k].code == Call(h)
  }

  ghost predicate HasCall(f: Func, id: nat, h: nat) {
    exists b: nat, k: nat :: CallHere(f, b, k, id, h)
  }

  /** The name of a clone. */
  ghost predicate NamesClone(x: Site, id0: nat, id: nat) {
    Instr(id0) in x.vm && x.vm[Instr(id0)] == Instr(id)
  }

  /** Calls of the result are other calls of the caller or copies of the callee's. */
  lemma InlinedCalls(x: Site, g: Func, id: nat, h: nat)
    requires MayInline(x) && AtCall(x) && IsInlined(x, g) && HasCall(g, id, h)
    ensures (HasCall(x.f, id, h) && id != TheCall(x).id) ||
              exists id0 :: HasCall(x.callee.body, id0, h) && NamesClone(x, id0, id)
  {
    hide MayInline, IsInlined, NewBlocks, OwnValue, CloneValue, CloneId, DistinctDefs;
    InlineFacts(x);
    BlocksAre(x, g);
    var b': nat, k': nat :| CallHere(g, b', k', id, h);
    var own, b, k := Origin(x, g, b', k');
    if own {
      assert CallHere(x.f, b, k, id, h);
      SameIdSamePlace(x.f, b, k, x.b, x.i);
      assert DistinctDefs(x.f, b, k, x.b, x.i);
      OtherId(x.f, b, k, x.b, x.i);
    } else {
      var i := x.callee.body.blocks[b].body[k];
      assert CallHere(x.callee.body, b, k, i.id, h);
      assert HasCall(x.callee.body, i.id, h);
      CloneNamed(x, b, k);
    }
  }

  lemma CloneNamed(x: Site, b: nat, k: nat)
    requires MayInline(x) && AtCall(x) && b < |x.callee.body.blocks| && k < |x.callee.body.blocks[b].body|
    requires !x.callee.body.blocks[b].body[k].Store?
    ensures NamesClone(x, x.callee.body.blocks[b].body[k].id, CloneId(x, x.callee.body.blocks[b].body[k]))
  {
    hide GoodShape, VoidUnused;
    assert Defines(x.callee.body.blocks[b].body[k], Instr(x.callee.body.blocks[b].body[k].id));
    assert DefinedIn(x.callee.body, Instr(x.callee.body.blocks[b].body[k].id));
  }

  lemma OtherId(f: Func, b: nat, k: nat, b': nat, k': nat)
    requires b < |f.blocks| && k < |f.blocks[b].body| && b' < |f.blocks| && k' < |f.blocks[b'].body|
    requires DistinctDefs(f, b, k, b', k') && (b != b' || k != k') && f.blocks[b].body[k].Op? &&
               f.blocks[b'].body[k'].Op?
    ensures f.blocks[b].body[k].id != f.blocks[b'].body[k'].id
  {
  }

  lemma KeptCalls(x: Site, g: Func, id: nat, h: nat)
    requires AtCall(x) && IsInlined(x, g) && HasCall(x.f, id, h) && id != TheCall(x).id
    ensures HasCall(g, id, h)
  {
    hide IsInlined, NewBlocks, OwnValue;
    BlocksAre(x, g);
    var b: nat, k: nat :| CallHere(x.f, b, k, id, h);
    var b', k' := OwnIsThere(x, g, b, k);
    assert CallHere(g, b', k', id, h);
  }

  // ---------------------------------------------------------------- names in use

  /** All names in the module are numbered below n. */
  ghost predicate NamesBelow(mod: Module, n: nat) {
    forall g, id: nat :: 0 <= g < |mod| && DefinedIn(mod[g].body, Instr(id)) ==> id < n
  }

  /** A definition of the result is the caller's, a clone or the phi. */
  lemma InlinedDefs(x: Site, g: Func, v: Value)
    requires MayInline(x) && AtCall(x) && IsInlined(x, g) && DefinedIn(g, v)
    ensures DefinedIn(x.f, v) || (x.callee.hasResult && v == x.phi) ||
              exists u :: u in x.vm && DefinedIn(x.callee.body, u) && x.vm[u] == v
  {
    hide MayInline, IsInlined, NewBlocks, OwnValue, CloneValue, CloneId, OwnPhi, ClonePhi, ResultPhi;
    BlocksAre(x, g);
    if v in g.phis {
      PhiOrigin(x, g, v);
    } else {
      var b', k' :| 0 <= b' < |g.blocks| && 0 <= k' < |g.blocks[b'].body| && Defines(g.blocks[b'].body[k'], v);
      var own, b, k := Origin(x, g, b', k');
      if own {
        DefinesIn(x.f, b, k);
      } else {
        DefinesIn(x.callee.body, b, k);
        CloneIdIs(x, b, k);
      }
    }
  }

  lemma NamesStayBelow(mod: Module, mod': Module, c: nat, x: Site, n: nat, n': nat)
    requires Inlines(mod, mod', c, x) && NamesBelow(mod, n) && n <= n'
    requires forall u :: u in x.vm && x.vm[u].Instr? ==> x.vm[u].id < n'
    requires x.callee.hasResult && x.phi.Instr? ==> x.phi.id < n'
    ensures NamesBelow(mod', n')
  {
    hide MayInline, IsInlined, DefinedIn;
    NotItself(mod, mod', c, x);
    forall g, id: nat | 0 <= g < |mod'| && DefinedIn(mod'[g].body, Instr(id))
      ensures id < n'
    {
      if g == c {
        InlinedDefs(x, mod'[c].body, Instr(id));
        if DefinedIn(x.f, Instr(id)) {
          assert DefinedIn(mod[c].body, Instr(id));
        }
      } else {
        assert DefinedIn(mod[g].body, Instr(id));
      }
    }
  }

  // ---------------------------------------------------------------- leading allocas

  /** The callee's entry does not begin with an alloca, so none has to move. */
  predicate NoLeadingAlloca(f: Func) {
    |f.blocks| > 0 ==> f.blocks[0].body == [] || !f.blocks[0].body[0].Alloca?
  }

  lemma StillNoLeadingAlloca(x: Site, g: Func)
    requires AtCall(x) && IsInlined(x, g) && NoLeadingAlloca(x.f)
    ensures NoLeadingAlloca(g)
  {
    hide IsInlined;
    BlocksAre(x, g);
    OwnBlockAt(x, g, 0);
  }

  // ---------------------------------------------------------------- the pass

  class Inliner {
    var mod: Module
    var valueMap: map<Value, Value>
    /** The next name that is not in use. */
    var nextId: nat

    ghost predicate Valid()
      reads this
    {
      && ModuleOk(mod) && NamesBelow(mod, nextId)
      && forall g :: 0 <= g < |mod| && mod[g].isInline ==> NoLeadingAlloca(mod[g].body)
    }

    constructor (mod: Module, nextId: nat)
      requires ModuleOk(mod) && NamesBelow(mod, nextId)
      requires forall g :: 0 <= g < |mod| && mod[g].isInline ==> NoLeadingAlloca(mod[g].body)
      ensures Valid() && this.mod == mod
    {
      this.mod, this.nextId := mod, nextId;
      valueMap := map[];
    }

    /** The value map starts with the callee's arguments. */
    method MapArguments(args: seq<Value>)
      modifies this`valueMap
      ensures ArgsMapped(valueMap, args) && forall v :: v in valueMap ==> v.Arg?
    {
      valueMap := map[];
      for argId := 0 to |args|
        invariant forall v :: v in valueMap ==> v.Arg?
        invariant forall j: nat :: Arg(j) in valueMap <==> j < argId
        invariant forall j: nat :: j < argId ==> valueMap[Arg(j)] == args[j]
      {
        ghost var before := valueMap;
        valueMap := valueMap[Arg(argId) := args[argId]];
        assert forall v :: v in valueMap <==> v in before || v == Arg(argId);
      }
    }

    /** Maps one result of the callee to a new name. */
    method AddClone(v: Value, ghost lo: nat, ghost args: seq<Value>)
      requires ArgsMapped(valueMap, args) && NamesIn(valueMap, lo, nextId) && !v.Arg? && !v.Const?
      modifies this`valueMap, this`nextId
      ensures ArgsMapped(valueMap, args) && NamesIn(valueMap, lo, nextId)
      ensures valueMap.Keys == old(valueMap).Keys + {v}
    {
      NameNext(valueMap, lo, nextId, v);
      valueMap := valueMap[v := Instr(nextId)];
      nextId := nextId + 1;
    }

    /** Gives every result of the callee a clone. */
    method NameClones(f: Func, ghost args: seq<Value>)
      requires GoodShape(f) && ArgsMapped(valueMap, args) && forall v :: v in valueMap ==> v.Arg?
      modifies this`valueMap, this`nextId
      ensures ArgsMapped(valueMap, args) && NamesIn(valueMap, old(nextId), nextId)
      ensures forall v :: DefinedIn(f, v) ==> v in valueMap
    {
      hide GoodShape, ArgsMapped, NamesIn;
      ghost var lo := nextId;
      NoNames(valueMap, lo);
      for b := 0 to |f.blocks|
        invariant ArgsMapped(valueMap, args) && NamesIn(valueMap, lo, nextId)
        invariant forall b', k' :: 0 <= b' < b && 0 <= k' < |f.blocks[b'].body| && !f.blocks[b'].body[k'].Store? ==>
                    Instr(f.blocks[b'].body[k'].id) in valueMap.Keys
      {
        for k := 0 to |f.blocks[b].body|
          invariant ArgsMapped(valueMap, args) && NamesIn(valueMap, lo, nextId)
          invariant forall b', k' :: 0 <= b' < b && 0 <= k' < |f.blocks[b'].body| && !f.blocks[b'].body[k'].Store? ==>
                      Instr(f.blocks[b'].body[k'].id) in valueMap.Keys
          invariant forall k' :: 0 <= k' < k && !f.blocks[b].body[k'].Store? ==>
                      Instr(f.blocks[b].body[k'].id) in valueMap.Keys
        {
          if !f.blocks[b].body[k].Store? {
            AddClone(Instr(f.blocks[b].body[k].id), lo, args);
          }
        }
      }
      var rest := f.phis.Keys;
      while rest != {}
        invariant rest <= f.phis.Keys
        invariant ArgsMapped(valueMap, args) && NamesIn(valueMap, lo, nextId)
        invariant forall b', k' ::
                    0 <= b' < |f.blocks| && 0 <= k' < |f.blocks[b'].body| && !f.blocks[b'].body[k'].Store? ==>
                    Instr(f.blocks[b'].body[k'].id) in valueMap.Keys
        invariant forall v :: v in f.phis && v !in rest ==> v in valueMap.Keys
        decreases |rest|
      {
        var v :| v in rest;
        PhiPlacedIn(f, v);
        AddClone(v, lo, args);
        rest := rest - {v};
      }
    }

    /** The phis of both, those of the callee under their new names. */
    method ClonePhis(ghost x: Site, f: Func, callee: Func, b: nat, first: nat, cont: nat)
      returns (phis: map<Value, Phi>)
      requires MayInline(x) && x.f == f && x.callee.body == callee && x.b == b && first == Clones(x) && cont == Cont(x)
      requires forall v :: LookUp(valueMap, v) == MapValue(x, v)
      ensures RawPhis(x, phis)
    {
      hide MayInline, LookUp, MapValue, MovePred, RawDone, MappedOps, RawOps, RawPhis, GoodShape, UsedIn, DefinedIn,
        Injective;
      InlineFacts(x);
      phis := map v | v in f.phis :: Phi(f.phis[v].block, MovePred(f.phis[v].ops, b, cont));
      var rest := callee.phis.Keys;
      RawNone(x, phis);
      while rest != {}
        invariant rest <= callee.phis.Keys && RawDone(x, phis, rest)
        decreases |rest|
      {
        var v :| v in rest;
        var p := callee.phis[v];
        RawStep(x, phis, rest, v);
        MappedOpsAre(x, valueMap, p.ops);
        phis := phis[LookUp(valueMap, v) := Phi(first + p.block, MappedOps(valueMap, first, p.ops))];
        rest := rest - {v};
      }
      RawAll(x, phis);
    }

    /** Returns of the clones become branches behind the call; the returned values go to
        the new phi. */
    method BranchOutOfClones(ghost x: Site, blocks: seq<Block>, first: nat, cont: nat)
        returns (blocks': seq<Block>, pairs: seq<(Value, nat)>)
      requires AtCall(x) && first == Clones(x) && cont == Cont(x) && |blocks| == cont + 1
      requires forall j :: 0 <= j < |x.callee.body.blocks| ==> blocks[first + j] == MapBlock(x, j)
      ensures |blocks'| == |blocks|
      ensures forall j :: 0 <= j < |x.callee.body.blocks| ==>
                blocks'[first + j] == MapBlock(x, j).(term := BranchOut(MapTerm(x, x.callee.body.blocks[j].term), cont))
      ensures forall j :: 0 <= j < |blocks| && (j < first || j == cont) ==> blocks'[j] == blocks[j]
      ensures OwnOps(x, pairs) == Returns(x, |x.callee.body.blocks|)
    {
      hide OwnValue, MapValue, MapBody;
      blocks', pairs := blocks, [];
      for j := 0 to cont - first
        invariant |blocks'| == |blocks|
        invariant forall j' :: 0 <= j' < j ==>
                    blocks'[first + j'] ==
                    MapBlock(x, j').(term := BranchOut(MapTerm(x, x.callee.body.blocks[j'].term), cont))
        invariant forall j' :: 0 <= j' < |blocks| && !(first <= j' < first + j) ==> blocks'[j'] == blocks[j']
        invariant OwnOps(x, pairs) == Returns(x, j)
      {
        var t := blocks'[first + j].term;
        assert blocks[first + j] == MapBlock(x, j);
        if t.Ret? {
          blocks' := blocks'[first + j := blocks'[first + j].(term := Branch(cont))];
          pairs := pairs + [(t.val, first + j)];
        }
      }
    }

    /** Inlines the call at instruction i of block b of function c. */
    method InlineCall(c: nat, b: nat, i: nat) returns (ghost x: Site)
      requires Valid() && c < |mod| && b < |mod[c].body.blocks| && i < |mod[c].body.blocks[b].body|
      requires var instr := mod[c].body.blocks[b].body[i];
               IsCall(mod, instr) && instr.code.callee != c && mod[instr.code.callee].isInline
      modifies this
      ensures AtCall(x) && x.f == old(mod)[c].body && x.b == b && x.i == i
      ensures Callee(x) < |old(mod)| && x.callee == old(mod)[Callee(x)]
      ensures Valid() && Inlines(old(mod), mod, c, x)
      ensures mod == old(mod)[c := old(mod)[c].(body := mod[c].body)]
      ensures old(nextId) <= nextId && NewNames(x, old(nextId))
    {
      hide ModuleOk, NamesBelow, MayInline, IsInlined, RawPhis, NewBlocks, MapBlock, Returns, NamesIn, ArgsMapped,
        DefinedIn, GoodShape, UsedIn, PhisDone;
      ghost var mod0, next0 := mod, nextId;
      var f := mod[c].body;
      var call := f.blocks[b].body[i];
      var calleeFunc := mod[call.code.callee];
      var callee := calleeFunc.body;
      CallFacts(mod, c, b, i);

      // The map takes formals to operands and results to new names
      MapArguments(call.args);
      NameClones(callee, call.args);
      var phi := Instr(nextId);
      if calleeFunc.hasResult {
        nextId := nextId + 1;
      }
      x := Site(f, calleeFunc, b, i, Results(valueMap), phi);
      SiteOk(mod, c, x, valueMap, next0, phi.id);
      NamesAreNew(x, valueMap, next0, phi.id);

      var first := |f.blocks|;
      var cont := first + |callee.blocks|;
      var blocks, pairs := SpliceClones(x, f, callee, b, i, first, cont);
      var phis := ClonePhis(x, f, callee, b, first, cont);
      var g := ReplaceCall(x, call.id, phi, calleeFunc.hasResult, b, i, cont, blocks, phis, pairs);
      mod := mod[c := mod[c].(body := g)];
      Finish(mod0, mod, c, x, valueMap, next0, nextId);
    }

    /** The callee's blocks come behind the caller's, between the two parts of the block
        that is split at the call. */
    method SpliceClones(ghost x: Site, f: Func, callee: Func, b: nat, i: nat, first: nat, cont: nat)
        returns (blocks: seq<Block>, pairs: seq<(Value, nat)>)
      requires AtCall(x) && x.f == f && x.callee.body == callee && x.b == b && x.i == i
      requires first == Clones(x) && cont == Cont(x) && x.vm == Results(valueMap)
      requires forall v :: LookUp(valueMap, v) == MapValue(x, v)
      ensures RawBlocks(x, blocks) && OwnOps(x, pairs) == Returns(x, |x.callee.body.blocks|)
    {
      hide MapBlock, Returns, OwnOps, MapTerm, LookUp, MapValue, BranchOut, Results, RawBlocks;
      var clones := CloneBlocks(x, callee, first);
      blocks := f.blocks + clones;

      // What follows the call moves to a new block; what precedes it goes on to the clones
      blocks := blocks[b := Block(f.blocks[b].body[..i + 1], Branch(cont))] +
        [Block(f.blocks[b].body[i + 1..], f.blocks[b].term)];
      blocks := blocks[b := blocks[b].(term := Branch(first))];
      ghost var parts := blocks;
      assert forall j :: 0 <= j < |callee.blocks| ==> parts[first + j] == clones[j];

      // The clones leave to that new block
      blocks, pairs := BranchOutOfClones(x, blocks, first, cont);
      PartsAreRaw(x, parts, blocks);
    }

    /** The call goes; if it has a result, the phi of the returned values stands for it. */
    method ReplaceCall(ghost x: Site, id: nat, phi: Value, hasResult: bool, b: nat, i: nat, cont: nat,
                       blocks: seq<Block>, phis: map<Value, Phi>, pairs: seq<(Value, nat)>) returns (g: Func)
      requires MayInline(x) && AtCall(x) && TheCall(x).id == id && x.phi == phi && x.callee.hasResult == hasResult
      requires x.b == b && x.i == i && cont == Cont(x) && RawBlocks(x, blocks) && RawPhis(x, phis)
      requires OwnOps(x, pairs) == Returns(x, |x.callee.body.blocks|)
      ensures IsInlined(x, g)
    {
      hide MayInline, IsInlined, RawPhis, NewBlocks, MapBlock, Returns, PhisDone, OwnOps, MapTerm, SubstOps, ReplaceIn,
        SameWhereEqual, OnlyUseMoved;
      var blocks', phis' := blocks, phis;
      ghost var phis1 := phis;
      PhisKept(x, phis);
      if hasResult {
        blocks', phis' := ReplaceAllUses(Instr(id), phi, blocks, phis);
        PhisReplaced(x, phis, phis');
        phis1 := phis';
        OpsReplaced(x, pairs);
        phis' := phis'[phi := Phi(cont, SubstOps(Instr(id), phi, pairs))];
        blocks' := blocks'[b := blocks'[b].(body := blocks'[b].body[..i])];
        ReplacedBlocks(x, blocks, blocks');
      } else {
        blocks' := blocks'[b := blocks'[b].(body := blocks'[b].body[..i])];
        KeptBlocks(x, blocks);
      }
      g := Func(blocks', phis');
      Assemble(x, g, phis, phis1);
    }

    /** All uses of u become uses of v. */
    method ReplaceAllUses(u: Value, v: Value, blocks: seq<Block>, phis: map<Value, Phi>)
      returns (blocks': seq<Block>, phis': map<Value, Phi>)
      ensures ReplacedIn(u, v, Func(blocks, phis), Func(blocks', phis'))
      ensures OnlyUseMoved(u, v, Func(blocks, phis), Func(blocks', phis'))
      ensures SameWhereEqual(u, v, Func(blocks, phis), Func(blocks', phis'))
    {
      hide OnlyUseMoved, SameWhereEqual, ReplaceIn, SubstOps;
      blocks' := seq(|blocks|, j requires 0 <= j < |blocks| => ReplaceIn(u, v, blocks[j]));
      phis' := map w | w in phis :: Phi(phis[w].block, SubstOps(u, v, phis[w].ops));
      UsesMoved(u, v, Func(blocks, phis), Func(blocks', phis'));
      ReplacedMeans(u, v, Func(blocks, phis), Func(blocks', phis'));
    }

    /** Where the call with the given name is now. */
    method FindCall(c: nat, id: nat) returns (b: nat, i: nat)
      requires c < |mod| && exists h :: HasCall(mod[c].body, id, h)
      ensures b < |mod[c].body.blocks| && i < |mod[c].body.blocks[b].body|
      ensures mod[c].body.blocks[b].body[i].Op? && mod[c].body.blocks[b].body[i].code.Call? &&
                mod[c].body.blocks[b].body[i].id == id
    {
      var f := mod[c].body;
      for b0 := 0 to |f.blocks|
        invariant forall b', k' :: 0 <= b' < b0 && 0 <= k' < |f.blocks[b'].body| ==>
                    !IsCallNamed(f.blocks[b'].body[k'], id)
      {
        for i0 := 0 to |f.blocks[b0].body|
          invariant forall k' :: 0 <= k' < i0 ==> !IsCallNamed(f.blocks[b0].body[k'], id)
        {
          if IsCallNamed(f.blocks[b0].body[i0], id) {
            return b0, i0;
          }
        }
      }
      NamedIsThere(f, id);
      assert false;
    }

    /** Inlines the calls of one function: those to other functions marked inline. */
    method ProcessNode(c: nat, calls: seq<nat>)
      requires Valid() && c < |mod|
      requires forall id :: id in calls <==> exists h: nat :: h < |mod| && HasCall(mod[c].body, id, h)
      requires Distinct(calls)
      modifies this
      ensures Valid() && Refines(old(mod), mod)
      ensures mod == old(mod)[c := old(mod)[c].(body := mod[c].body)]
      ensures CalleesClean(old(mod), c) ==> Clean(mod, c)
      ensures Settling(old(mod), mod, c, [])
    {
      hide ModuleOk, NamesBelow, NoLeadingAlloca, Refines, HasCall, Inlines, Settling, NewNames;
      ghost var mod0, next0 := mod, nextId;
      RefinesSelf(mod);
      AllWaiting(mod, c, calls);
      SettlingStart(mod, c, calls);
      for iCall := 0 to |calls|
        invariant Valid() && Refines(mod0, mod)
        invariant c < |mod| && mod == mod0[c := mod0[c].(body := mod[c].body)]
        invariant StillThere(mod0, mod, c, calls[iCall..])
        invariant CalleesClean(mod0, c) ==> OnlyWaiting(mod, c, calls[iCall..])
        invariant next0 <= nextId && Settling(mod0, mod, c, calls[iCall..])
      {
        ghost var mod1, next1 := mod, nextId;
        assert calls[iCall..] == [calls[iCall]] + calls[iCall + 1..];
        CallWaits(mod0, mod, c, calls[iCall..], calls[iCall]);
        var b, i := FindCall(c, calls[iCall]);
        FoundCall(mod, c, calls[iCall], b, i);
        var callee := mod[c].body.blocks[b].body[i].code.callee;
        // Avoid recursive calls
        if callee != c && callee < |mod| && mod[callee].isInline {
          ghost var x := InlineCall(c, b, i);
          InliningRefines(mod1, mod, c, x);
          RefinesTrans(mod0, mod1, mod);
          InlinedWaits(mod0, mod1, mod, c, x, calls[iCall..]);
          InlinedSettles(mod0, mod1, mod, c, x, calls[iCall..], next0, next1);
        } else {
          SkippedWaits(mod0, mod, c, calls[iCall..], callee, b, i);
          SkippedSettles(mod0, mod, c, calls[iCall..], callee, b, i);
        }
      }
      assert calls[|calls|..] == [];
      NoneWaiting(mod0, mod, c);
    }

    /** The calls of every function to functions of the module, in program order: their
        names and their callees. */
    method CollectCalls() returns (ids: seq<seq<nat>>, callees: seq<seq<nat>>)
      requires Valid()
      ensures |ids| == |callees| == |mod|
      ensures forall c :: 0 <= c < |mod| ==> AllCalls(mod, c, ids[c], callees[c])
    {
      hide ModuleOk, NamesBelow, NoLeadingAlloca;
      ids, callees := [], [];
      for c := 0 to |mod|
        invariant |ids| == |callees| == c
        invariant forall c' :: 0 <= c' < c ==> AllCalls(mod, c', ids[c'], callees[c'])
      {
        var f := mod[c].body;
        ShapeOf(mod, c);
        var id: seq<nat>, callee: seq<nat> := [], [];
        CallsBegin(mod, f);
        for b := 0 to |f.blocks|
          invariant CallsTo(mod, f, b, 0, id, callee)
        {
          for k := 0 to |f.blocks[b].body|
            invariant CallsTo(mod, f, b, k, id, callee)
          {
            var i := f.blocks[b].body[k];
            CallsNext(mod, f, b, k, id, callee);
            if i.Op? && i.code.Call? && i.code.callee < |mod| {
              id, callee := id + [i.id], callee + [i.code.callee];
            }
          }
          CallsBlock(mod, f, b, id, callee);
        }
        CallsEnd(mod, c, id, callee);
        ids, callees := ids + [id], callees + [callee];
      }
    }

    /** The whole pass. */
    method Run() returns (ghost g: Graph)
      requires Valid() && |mod| <= UNVISITED
      modifies this
      ensures Valid() && Refines(old(mod), mod) && SameFlags(old(mod), mod)
      ensures IsCallGraph(old(mod), g)
      ensures forall c: nat, h: nat {:trigger h in g[c]} ::
        c < |old(mod)| ==> (h in g[c] <==> h < |old(mod)| && exists b, k ::
          0 <= b < |old(mod)[c].body.blocks| && 0 <= k < |old(mod)[c].body.blocks[b].body| &&
          old(mod)[c].body.blocks[b].body[k].Op? && old(mod)[c].body.blocks[b].body[k].code == Call(h))
      ensures forall c :: 0 <= c < |mod| && NoCycleFrom(g, c) ==> Clean(mod, c)
      // What becomes of each call of a function that is a component by itself
      ensures forall c: nat, b, k, b', k' ::
        c < |mod| && (forall v :: Mutual(g, c, v) ==> v == c) &&
        0 <= b < |old(mod)[c].body.blocks| && 0 <= k < |old(mod)[c].body.blocks[b].body| &&
        0 <= b' < |mod[c].body.blocks| && 0 <= k' < |mod[c].body.blocks[b'].body| ==>
          var call, i := old(mod)[c].body.blocks[b].body[k], mod[c].body.blocks[b'].body[k'];
          !(call.Op? && call.code.Call? && call.code.callee < |mod| && call.code.callee != c &&
            old(mod)[call.code.callee].isInline && i.Op? && i.id == call.id && i.code.Call?)
      ensures forall c: nat, b, k ::
        c < |mod| && 0 <= b < |old(mod)[c].body.blocks| && 0 <= k < |old(mod)[c].body.blocks[b].body| ==>
          var call := old(mod)[c].body.blocks[b].body[k];
          (call.Op? && call.code.Call? &&
           (call.code.callee == c || call.code.callee >= |mod| || !old(mod)[call.code.callee].isInline) ==>
             HasCall(mod[c].body, call.id, call.code.callee))
      ensures forall c: nat :: c < |mod| && !(forall v :: Mutual(g, c, v) ==> v == c) ==> mod[c] == old(mod)[c]
    {
      hide ModuleOk, NamesBelow, NoLeadingAlloca, Refines, Clean, AllCalls, NoCycleFrom, IsScc, CalleesFirst, Found,
        Callees, Closed, CalleesClean, HasCall, IsCallGraph, Alone, Settling;
      ghost var mod0 := mod;
      var ids, callees := CollectCalls();
      CalleesAreNodes(mod, ids, callees);
      var graph := new CallGraph(callees);
      graph.Build();
      g := graph.calledFuncs;
      CallGraphOf(mod, ids, callees, g);
      var sccs := graph.sccs;
      RefinesSelf(mod);
      NoneFound();
      for iScc := 0 to |sccs|
        invariant Valid() && Refines(mod0, mod) && SameFlags(mod0, mod)
        invariant Progress(mod0, mod, g, sccs[..iScc])
      {
        ghost var mod1 := mod;
        // Only a function that is a component by itself is a caller here
        if |sccs[iScc]| == 1 {
          var c := sccs[iScc][0];
          NodeReady(mod0, mod, g, sccs, iScc, ids, callees);
          ProcessNode(c, ids[c]);
          RefinesTrans(mod0, mod1, mod);
          NodeDone(mod0, mod1, mod, g, sccs, iScc);
        } else {
          CycleSkipped(mod0, mod, g, sccs, iScc);
        }
      }
      assert sccs[..|sccs|] == sccs;
      AllProcessed(mod0, mod, g, sccs);
      GraphIs(mod0, g);
      CallsEnded(mod0, mod, g);
    }

    /** Clones the callee's blocks with operands looked up in the value map. */
    method CloneBlocks(ghost x: Site, callee: Func, first: nat) returns (clones: seq<Block>)
      requires AtCall(x) && x.callee.body == callee && first == Clones(x)
      requires forall v :: LookUp(valueMap, v) == MapValue(x, v)
      requires x.vm == Results(valueMap)
      ensures |clones| == |callee.blocks| && forall j :: 0 <= j < |clones| ==> clones[j] == MapBlock(x, j)
    {
      hide LookUp, MapValue;
      clones := [];
      for j := 0 to |callee.blocks|
        invariant |clones| == j && forall j' :: 0 <= j' < j ==> clones[j'] == MapBlock(x, j')
      {
        var body: seq<Instruction> := [];
        for k := 0 to |callee.blocks[j].body|
          invariant body == MapBody(x, callee.blocks[j].body[..k])
        {
          var i := callee.blocks[j].body[k];
          var id := NewId(valueMap, i);
          var vm := valueMap;
          var clone := Rename(id, i, v => LookUp(vm, v));
          assert id == CloneId(x, i);
          RenameSame(CloneId(x, i), i, v => MapValue(x, v), v => LookUp(vm, v));
          body := body + [clone];
          assert callee.blocks[j].body[..k + 1] == callee.blocks[j].body[..k] + [i];
        }
        assert callee.blocks[j].body[..|callee.blocks[j].body|] == callee.blocks[j].body;
        var term := match callee.blocks[j].term
          case Ret(v) => Ret(LookUp(valueMap, v))
          case Branch(b) => Branch(first + b)
          case BranchIf(v, b0, b1) => BranchIf(LookUp(valueMap, v), first + b0, first + b1);
        clones := clones + [Block(body, term)];
      }
    }
  }

  // ---------------------------------------------------------------- putting it together

  function RawOps(x: Site, ops: seq<(Value, nat)>): (r: seq<(Value, nat)>)
    requires AtCall(x)
  {
    seq(|ops|, j requires 0 <= j < |ops| => (MapValue(x, ops[j].0), Clones(x) + ops[j].1))
  }

  function MappedOps(vm: map<Value, Value>, first: nat, ops: seq<(Value, nat)>): seq<(Value, nat)> {
    seq(|ops|, j requires 0 <= j < |ops| => (LookUp(vm, ops[j].0), first + ops[j].1))
  }

  lemma MappedOpsAre(x: Site, vm: map<Value, Value>, ops: seq<(Value, nat)>)
    requires AtCall(x) && forall v :: LookUp(vm, v) == MapValue(x, v)
    ensures MappedOps(vm, Clones(x), ops) == RawOps(x, ops)
  {
    hide LookUp, MapValue;
  }

  function RawClonePhi(x: Site, p: Phi): Phi
    requires AtCall(x)
  {
    Phi(Clones(x) + p.block, RawOps(x, p.ops))
  }

  /** The phis before the uses of the call's result are replaced. */
  ghost predicate RawPhis(x: Site, phis: map<Value, Phi>)
    requires AtCall(x)
  {
    && (forall v :: v in x.f.phis ==>
      v in phis && phis[v] == Phi(x.f.phis[v].block, MovePred(x.f.phis[v].ops, x.b, Cont(x))))
    && (forall v :: v in x.callee.body.phis ==>
      v in x.vm && x.vm[v] in phis && phis[x.vm[v]] == RawClonePhi(x, x.callee.body.phis[v]))
    && (forall u :: u in phis ==> u in x.f.phis || ClonedPhi(x, u))
  }

  /** The same while the callee's phis in `rest` are still to be cloned. */
  ghost predicate RawDone(x: Site, phis: map<Value, Phi>, rest: set<Value>)
    requires AtCall(x)
  {
    && (forall v :: v in x.f.phis ==>
      v in phis && phis[v] == Phi(x.f.phis[v].block, MovePred(x.f.phis[v].ops, x.b, Cont(x))))
    && (forall v :: v in x.callee.body.phis && v !in rest ==>
      v in x.vm && x.vm[v] in phis && phis[x.vm[v]] == RawClonePhi(x, x.callee.body.phis[v]))
    && (forall u :: u in phis ==> u in x.f.phis || ClonedPhi(x, u))
  }

  lemma RawNone(x: Site, phis: map<Value, Phi>)
    requires AtCall(x) && phis == map v | v in x.f.phis ::
               Phi(x.f.phis[v].block, MovePred(x.f.phis[v].ops, x.b, Cont(x)))
    ensures RawDone(x, phis, x.callee.body.phis.Keys)
  {
    hide MovePred;
  }

  lemma RawAll(x: Site, phis: map<Value, Phi>)
    requires AtCall(x) && RawDone(x, phis, {})
    ensures RawPhis(x, phis)
  {
    hide MovePred, RawClonePhi;
  }

  lemma RawStep(x: Site, phis: map<Value, Phi>, rest: set<Value>, v: Value)
    requires MayInline(x) && AtCall(x) && RawDone(x, phis, rest) && v in x.callee.body.phis
    ensures v in x.vm && MapValue(x, v) == x.vm[v]
    ensures RawDone(x, phis[x.vm[v] := RawClonePhi(x, x.callee.body.phis[v])], rest - {v})
  {
    hide MayInline, MovePred, RawClonePhi, MapValue;
    PhiNames(x, v);
    MapResult(x, v);
  }

  /** The blocks at the same time; the call is still there. */
  ghost predicate RawBlocks(x: Site, blocks: seq<Block>)
    requires AtCall(x)
  {
    && |blocks| == Cont(x) + 1
    && (forall j :: 0 <= j < |x.f.blocks| && j != x.b ==> blocks[j] == x.f.blocks[j])
    && blocks[x.b] == Block(x.f.blocks[x.b].body[..x.i + 1], Branch(Clones(x)))
    && (forall j :: 0 <= j < |x.callee.body.blocks| ==>
          blocks[Clones(x) + j] ==
          MapBlock(x, j).(term := BranchOut(MapTerm(x, x.callee.body.blocks[j].term), Cont(x))))
    && blocks[Cont(x)] == Block(x.f.blocks[x.b].body[x.i + 1..], x.f.blocks[x.b].term)
  }

  /** The parts of the split block and the clones, once those leave to the new block. */
  lemma PartsAreRaw(x: Site, parts: seq<Block>, blocks: seq<Block>)
    requires AtCall(x) && |parts| == |blocks| == Cont(x) + 1
    requires forall j :: 0 <= j < |x.f.blocks| && j != x.b ==> parts[j] == x.f.blocks[j]
    requires parts[x.b] == Block(x.f.blocks[x.b].body[..x.i + 1], Branch(Clones(x)))
    requires parts[Cont(x)] == Block(x.f.blocks[x.b].body[x.i + 1..], x.f.blocks[x.b].term)
    requires forall j :: 0 <= j < |blocks| && (j < Clones(x) || j == Cont(x)) ==> blocks[j] == parts[j]
    requires forall j :: 0 <= j < |x.callee.body.blocks| ==>
               blocks[Clones(x) + j] ==
               MapBlock(x, j).(term := BranchOut(MapTerm(x, x.callee.body.blocks[j].term), Cont(x)))
    ensures RawBlocks(x, blocks)
  {
    hide MapBlock, MapTerm, BranchOut;
  }

  function DropCall(x: Site, blk: Block): Block {
    if x.i <= |blk.body| then blk.(body := blk.body[..x.i]) else blk
  }

  lemma DropReplaced(x: Site, u: Value, v: Value)
    requires AtCall(x)
    ensures var body := x.f.blocks[x.b].body;
            DropCall(x, ReplaceIn(u, v, Block(body[..x.i + 1], Branch(Clones(x))))) ==
              ReplaceIn(u, v, Block(body[..x.i], Branch(Clones(x))))
  {
    var body := x.f.blocks[x.b].body;
    var r := ReplaceIn(u, v, Block(body[..x.i + 1], Branch(Clones(x))));
    assert r.body[..x.i] == ReplaceIn(u, v, Block(body[..x.i], Branch(Clones(x)))).body;
  }

  lemma ReplacedBlocks(x: Site, blocks: seq<Block>, blocks': seq<Block>)
    requires AtCall(x) && RawBlocks(x, blocks) && x.callee.hasResult && |blocks'| == |blocks|
    requires forall j :: 0 <= j < |blocks| && j != x.b ==> blocks'[j] == ReplaceIn(CallValue(x), x.phi, blocks[j])
    requires blocks'[x.b] == DropCall(x, ReplaceIn(CallValue(x), x.phi, blocks[x.b]))
    ensures blocks' == NewBlocks(x)
  {
    hide ReplaceIn, MapBlock, OwnBlock, CloneBlock, ContBlock, DropCall, MapTerm;
    DropReplaced(x, CallValue(x), x.phi);
    forall j | 0 <= j < |blocks|
      ensures blocks'[j] == NewBlocks(x)[j]
    {
      if j < Clones(x) {
        ReplaceOwn(x, j);
      } else if j < Cont(x) {
        ReplaceClone(x, j - Clones(x));
      } else {
        ReplaceOwn(x, 0);
      }
    }
  }

  lemma KeptBlocks(x: Site, blocks: seq<Block>)
    requires AtCall(x) && RawBlocks(x, blocks) && !x.callee.hasResult
    ensures blocks[x.b := DropCall(x, blocks[x.b])] == NewBlocks(x)
  {
    hide MapBlock, OwnBlock, CloneBlock, ContBlock, MapTerm;
    var body := x.f.blocks[x.b].body;
    assert body[..x.i + 1][..x.i] == body[..x.i];
    forall j | 0 <= j < |blocks|
      ensures blocks[x.b := DropCall(x, blocks[x.b])][j] == NewBlocks(x)[j]
    {
      if j < Clones(x) {
        KeepOwn(x, j);
      } else if j < Cont(x) {
        ReplaceClone(x, j - Clones(x));
      } else {
        KeepOwn(x, 0);
      }
    }
  }

  lemma OpsReplaced(x: Site, ops: seq<(Value, nat)>)
    requires AtCall(x)
    ensures x.callee.hasResult ==> SubstOps(CallValue(x), x.phi, ops) == OwnOps(x, ops)
    ensures !x.callee.hasResult ==> OwnOps(x, ops) == ops
    ensures OwnOps(x, RawOps(x, ops)) == CloneOps(x, ops)
  {
  }

  ghost predicate PhisDone(x: Site, phis: map<Value, Phi>, phis': map<Value, Phi>)
    requires AtCall(x)
  {
    phis'.Keys == phis.Keys && forall v :: v in phis ==> phis'[v] == Phi(phis[v].block, OwnOps(x, phis[v].ops))
  }

  lemma Assemble(x: Site, g: Func, phis: map<Value, Phi>, phis': map<Value, Phi>)
    requires MayInline(x) && AtCall(x) && g.blocks == NewBlocks(x) && RawPhis(x, phis) && PhisDone(x, phis, phis')
    requires x.callee.hasResult ==> x.phi in g.phis && g.phis[x.phi] == ResultPhi(x)
    requires forall v :: v in phis' ==> v in g.phis && (v != x.phi ==> g.phis[v] == phis'[v])
    requires forall v :: v in g.phis ==> v in phis' || (x.callee.hasResult && v == x.phi)
    ensures IsInlined(x, g)
  {
    hide MayInline, NewBlocks, OwnPhi, ClonePhi, ClonedPhi, ResultPhi, DefinedIn, RawPhis, PhisDone;
    InlineFacts(x);
    RawKeys(x, phis);
    forall v | v in x.f.phis
      ensures v in g.phis && g.phis[v] == OwnPhi(x, x.f.phis[v])
    {
      DefinedPhi(x.f, v);
      OwnPhiDone(x, phis, phis', v);
    }
    forall v | v in x.callee.body.phis
      ensures v in x.vm && x.vm[v] in g.phis && g.phis[x.vm[v]] == ClonePhi(x, x.callee.body.phis[v])
    {
      DefinedPhi(x.callee.body, v);
      CloneName(x, v);
      ClonePhiDone(x, phis, phis', v);
    }
    PhisHaveKeys(x, phis, phis');
  }

  lemma DefinedPhi(f: Func, v: Value)
    requires v in f.phis
    ensures DefinedIn(f, v)
  {
  }

  lemma PhisHaveKeys(x: Site, phis: map<Value, Phi>, phis': map<Value, Phi>)
    requires AtCall(x) && PhisDone(x, phis, phis')
    ensures phis'.Keys == phis.Keys
  {
  }

  /** The phis before the call is replaced: the caller's and the callee's, cloned. */
  lemma RawKeys(x: Site, phis: map<Value, Phi>)
    requires AtCall(x) && RawPhis(x, phis)
    ensures forall v :: v in phis ==> v in x.f.phis || ClonedPhi(x, v)
  {
  }

  lemma OwnPhiDone(x: Site, phis: map<Value, Phi>, phis': map<Value, Phi>, v: Value)
    requires AtCall(x) && RawPhis(x, phis) && PhisDone(x, phis, phis') && v in x.f.phis
    ensures v in phis' && phis'[v] == OwnPhi(x, x.f.phis[v])
  {
    hide OwnOps, MovePred;
  }

  lemma ClonePhiDone(x: Site, phis: map<Value, Phi>, phis': map<Value, Phi>, v: Value)
    requires AtCall(x) && RawPhis(x, phis) && PhisDone(x, phis, phis') && v in x.callee.body.phis
    ensures v in x.vm && x.vm[v] in phis' && phis'[x.vm[v]] == ClonePhi(x, x.callee.body.phis[v])
  {
    hide OwnOps, CloneOps, RawOps;
    OpsReplaced(x, x.callee.body.phis[v].ops);
  }

  // ---------------------------------------------------------------- calls that wait

  predicate IsCallNamed(i: Instruction, id: nat) {
    i.Op? && i.code.Call? && i.id == id
  }

  lemma NamedIsThere(f: Func, id: nat)
    requires exists h :: HasCall(f, id, h)
    ensures exists b, k :: 0 <= b < |f.blocks| && 0 <= k < |f.blocks[b].body| && IsCallNamed(f.blocks[b].body[k], id)
  {
    var h :| HasCall(f, id, h);
    var b: nat, k: nat :| CallHere(f, b, k, id, h);
    assert IsCallNamed(f.blocks[b].body[k], id);
  }

  lemma OneCallee(f: Func, id: nat, h: nat, h': nat)
    requires GoodShape(f) && HasCall(f, id, h) && HasCall(f, id, h')
    ensures h == h'
  {
    hide GoodShape;
    var b: nat, k: nat :| CallHere(f, b, k, id, h);
    var b': nat, k': nat :| CallHere(f, b', k', id, h');
    SameIdSamePlace(f, b, k, b', k');
  }

  /** No call to a function marked inline is left. */
  ghost predicate Clean(mod: Module, c: nat)
    requires c < |mod|
  {
    forall id: nat, h: nat :: h < |mod| && HasCall(mod[c].body, id, h) ==> !mod[h].isInline
  }

  /** The callees of c that are marked inline are other functions and are clean. */
  ghost predicate CalleesClean(mod: Module, c: nat)
    requires c < |mod|
  {
    forall id: nat, h: nat :: h < |mod| && HasCall(mod[c].body, id, h) ==> h != c && (mod[h].isInline ==> Clean(mod, h))
  }

  ghost predicate Waits(mod0: Module, mod: Module, c: nat, id: nat)
    requires c < |mod0| && c < |mod|
  {
    exists h: nat :: h < |mod0| && HasCall(mod0[c].body, id, h) && HasCall(mod[c].body, id, h)
  }

  /** The calls still to be looked at are where they were, in a function that may have
      grown. */
  ghost predicate StillThere(mod0: Module, mod: Module, c: nat, waiting: seq<nat>)
    requires c < |mod0| && c < |mod|
  {
    forall id :: id in waiting ==> Waits(mod0, mod, c, id)
  }

  /** Calls to functions marked inline are still to be looked at. */
  ghost predicate OnlyWaiting(mod: Module, c: nat, waiting: seq<nat>)
    requires c < |mod|
  {
    forall id: nat, h: nat :: h < |mod| && HasCall(mod[c].body, id, h) && mod[h].isInline ==> id in waiting
  }

  lemma RefinesSelf(mod: Module)
    ensures Refines(mod, mod)
  {
    hide Steps, Observe;
  }

  lemma AllWaiting(mod: Module, c: nat, calls: seq<nat>)
    requires c < |mod| && forall id :: id in calls <==> exists h: nat :: h < |mod| && HasCall(mod[c].body, id, h)
    ensures calls[0..] == calls && StillThere(mod, mod, c, calls) && OnlyWaiting(mod, c, calls)
  {
    hide HasCall;
  }

  lemma CallWaits(mod0: Module, mod: Module, c: nat, waiting: seq<nat>, id: nat)
    requires c < |mod0| && c < |mod| && StillThere(mod0, mod, c, waiting) && id in waiting
    ensures exists h :: HasCall(mod[c].body, id, h)
  {
    hide HasCall;
    assert Waits(mod0, mod, c, id);
  }

  lemma FoundCall(mod: Module, c: nat, id: nat, b: nat, i: nat)
    requires c < |mod| && b < |mod[c].body.blocks| && i < |mod[c].body.blocks[b].body| &&
               IsCallNamed(mod[c].body.blocks[b].body[i], id)
    ensures HasCall(mod[c].body, id, mod[c].body.blocks[b].body[i].code.callee)
  {
    assert CallHere(mod[c].body, b, i, id, mod[c].body.blocks[b].body[i].code.callee);
  }

  /** One call has been inlined: its copies of the callee's calls are to functions that
      are not inlined, if the callee was clean. */
  lemma InlinedWaits(mod0: Module, mod: Module, mod': Module, c: nat, x: Site, waiting: seq<nat>)
    requires Inlines(mod, mod', c, x) && |mod0| == |mod| && mod == mod0[c := mod0[c].(body := mod[c].body)]
    requires mod' == mod[c := mod[c].(body := mod'[c].body)]
    requires waiting != [] && AtCall(x) && TheCall(x).id == waiting[0] && Distinct(waiting)
    requires ModuleOk(mod) && StillThere(mod0, mod, c, waiting)
    requires x.callee.isInline
    ensures StillThere(mod0, mod', c, waiting[1..])
    ensures CalleesClean(mod0, c) && OnlyWaiting(mod, c, waiting) ==> OnlyWaiting(mod', c, waiting[1..])
  {
    hide MayInline, IsInlined, HasCall, ModuleOk;
    assert waiting == [waiting[0]] + waiting[1..];
    forall id | id in waiting[1..]
      ensures Waits(mod0, mod', c, id)
    {
      assert Waits(mod0, mod, c, id);
      var h: nat :| h < |mod0| && HasCall(mod0[c].body, id, h) && HasCall(mod[c].body, id, h);
      KeptCalls(x, mod'[c].body, id, h);
    }
    if CalleesClean(mod0, c) && OnlyWaiting(mod, c, waiting) {
      CalleeIsClean(mod0, mod, mod', c, x, waiting);
      forall id: nat, h: nat | h < |mod'| && HasCall(mod'[c].body, id, h) && mod'[h].isInline
        ensures id in waiting[1..]
      {
        InlinedCalls(x, mod'[c].body, id, h);
        if id0 :| HasCall(x.callee.body, id0, h) {
          assert HasCall(mod0[Callee(x)].body, id0, h);
        }
      }
    }
  }

  lemma CalleeIsClean(mod0: Module, mod: Module, mod': Module, c: nat, x: Site, waiting: seq<nat>)
    requires Inlines(mod, mod', c, x) && |mod0| == |mod| && mod == mod0[c := mod0[c].(body := mod[c].body)]
    requires waiting != [] && AtCall(x) && TheCall(x).id == waiting[0]
    requires ModuleOk(mod) && StillThere(mod0, mod, c, waiting)
    requires x.callee.isInline && CalleesClean(mod0, c)
    ensures Callee(x) < |mod0| && mod0[Callee(x)] == x.callee && Clean(mod0, Callee(x))
  {
    hide MayInline, IsInlined, HasCall, GoodShape, VoidCallsUnused;
    assert Waits(mod0, mod, c, waiting[0]);
    var h: nat :| h < |mod0| && HasCall(mod0[c].body, waiting[0], h) && HasCall(mod[c].body, waiting[0], h);
    assert FunctionOk(mod, mod[c].body);
    FoundCall(mod, c, TheCall(x).id, x.b, x.i);
    OneCallee(mod[c].body, waiting[0], h, Callee(x));
  }

  /** A call that is not inlined is not to another function marked inline. */
  lemma SkippedWaits(mod0: Module, mod: Module, c: nat, waiting: seq<nat>, callee: nat, b: nat, i: nat)
    requires c < |mod0| && |mod| == |mod0| && mod == mod0[c := mod0[c].(body := mod[c].body)]
    requires ModuleOk(mod) && waiting != [] && StillThere(mod0, mod, c, waiting)
    requires b < |mod[c].body.blocks| && i < |mod[c].body.blocks[b].body| &&
               IsCallNamed(mod[c].body.blocks[b].body[i], waiting[0])
    requires callee == mod[c].body.blocks[b].body[i].code.callee
    requires callee == c || callee >= |mod| || !mod[callee].isInline
    ensures StillThere(mod0, mod, c, waiting[1..])
    ensures CalleesClean(mod0, c) && OnlyWaiting(mod, c, waiting) ==> OnlyWaiting(mod, c, waiting[1..])
  {
    hide HasCall, GoodShape, VoidCallsUnused;
    assert waiting == [waiting[0]] + waiting[1..];
    assert Waits(mod0, mod, c, waiting[0]);
    var h: nat :| h < |mod0| && HasCall(mod0[c].body, waiting[0], h) && HasCall(mod[c].body, waiting[0], h);
    assert FunctionOk(mod, mod[c].body);
    FoundCall(mod, c, waiting[0], b, i);
    OneCallee(mod[c].body, waiting[0], h, callee);
    forall id: nat, h': nat | CalleesClean(mod0, c) && OnlyWaiting(mod, c, waiting) && h' < |mod| &&
      HasCall(mod[c].body, id, h') && mod[h'].isInline
      ensures id in waiting[1..]
    {
      if id == waiting[0] {
        OneCallee(mod[c].body, id, h, h');
      }
    }
  }

  // ---------------------------------------------------------------- what becomes of each call

  ghost predicate NoCall(f: Func, id: nat) {
    forall h :: !HasCall(f, id, h)
  }

  /** Calls that c had: those to other functions marked inline are gone once they have been
      looked at, the others are still there. */
  ghost predicate Settling(mod0: Module, mod: Module, c: nat, waiting: seq<nat>)
    requires c < |mod0| && c < |mod|
  {
    forall id: nat, h: nat :: HasCall(mod0[c].body, id, h) ==>
      if h < |mod0| && h != c && mod0[h].isInline && id !in waiting then NoCall(mod[c].body, id)
      else HasCall(mod[c].body, id, h)
  }

  lemma SettlingStart(mod: Module, c: nat, calls: seq<nat>)
    requires c < |mod| && forall id :: id in calls <==> exists h: nat :: h < |mod| && HasCall(mod[c].body, id, h)
    ensures Settling(mod, mod, c, calls)
  {
    hide HasCall;
  }

  lemma InlinedSettles(mod0: Module, mod: Module, mod': Module, c: nat, x: Site, waiting: seq<nat>, lo: nat, next: nat)
    requires Inlines(mod, mod', c, x) && |mod0| == |mod| && mod == mod0[c := mod0[c].(body := mod[c].body)]
    requires waiting != [] && AtCall(x) && TheCall(x).id == waiting[0] && Distinct(waiting)
    requires ModuleOk(mod) && x.callee.isInline && Settling(mod0, mod, c, waiting)
    requires NamesBelow(mod0, lo) && NewNames(x, next) && lo <= next
    ensures Settling(mod0, mod', c, waiting[1..])
  {
    hide MayInline, IsInlined, HasCall, GoodShape, VoidCallsUnused, NamesBelow, NewNames, NoCall;
    assert waiting == [waiting[0]] + waiting[1..];
    assert FunctionOk(mod, mod[c].body);
    FoundCall(mod, c, TheCall(x).id, x.b, x.i);
    forall id: nat, h: nat | HasCall(mod0[c].body, id, h)
      ensures if h < |mod0| && h != c && mod0[h].isInline && id !in waiting[1..] then NoCall(mod'[c].body, id)
              else HasCall(mod'[c].body, id, h)
    {
      if id == waiting[0] {
        OneCallee(mod[c].body, id, h, Callee(x));
        CallGone(mod0, c, x, mod'[c].body, id, h, lo, next);
      } else if h < |mod0| && h != c && mod0[h].isInline && id !in waiting {
        CallGone(mod0, c, x, mod'[c].body, id, h, lo, next);
      } else {
        KeptCalls(x, mod'[c].body, id, h);
      }
    }
  }

  /** A call that has been inlined, now or before, does not come back: clones have new
      names. */
  lemma CallGone(mod0: Module, c: nat, x: Site, g: Func, id: nat, h: nat, lo: nat, next: nat)
    requires MayInline(x) && AtCall(x) && IsInlined(x, g) && NewNames(x, next) && lo <= next
    requires c < |mod0| && NamesBelow(mod0, lo) && HasCall(mod0[c].body, id, h)
    requires id == TheCall(x).id || NoCall(x.f, id)
    ensures NoCall(g, id)
  {
    hide MayInline, IsInlined, HasCall;
    assert DefinedIn(mod0[c].body, Instr(id)) by { CallDefines(mod0[c].body, id, h); }
    forall h' | HasCall(g, id, h')
      ensures false
    {
      InlinedCalls(x, g, id, h');
    }
  }

  lemma CallDefines(f: Func, id: nat, h: nat)
    requires HasCall(f, id, h)
    ensures DefinedIn(f, Instr(id))
  {
    var b: nat, k: nat :| CallHere(f, b, k, id, h);
    assert Defines(f.blocks[b].body[k], Instr(id));
  }

  lemma SkippedSettles(mod0: Module, mod: Module, c: nat, waiting: seq<nat>, callee: nat, b: nat, i: nat)
    requires c < |mod0| && |mod| == |mod0| && mod == mod0[c := mod0[c].(body := mod[c].body)]
    requires ModuleOk(mod) && waiting != [] && Settling(mod0, mod, c, waiting)
    requires b < |mod[c].body.blocks| && i < |mod[c].body.blocks[b].body| &&
               IsCallNamed(mod[c].body.blocks[b].body[i], waiting[0])
    requires callee == mod[c].body.blocks[b].body[i].code.callee
    requires callee == c || callee >= |mod| || !mod[callee].isInline
    ensures Settling(mod0, mod, c, waiting[1..])
  {
    hide HasCall, GoodShape, VoidCallsUnused, NoCall;
    assert waiting == [waiting[0]] + waiting[1..];
    assert FunctionOk(mod, mod[c].body);
    FoundCall(mod, c, waiting[0], b, i);
    forall id: nat, h: nat | HasCall(mod0[c].body, id, h) && id == waiting[0]
      ensures h == callee && HasCall(mod[c].body, id, h)
    {
      OneCallee(mod[c].body, id, h, callee);
    }
  }

  lemma NoneWaiting(mod0: Module, mod: Module, c: nat)
    requires c < |mod|
    ensures OnlyWaiting(mod, c, []) ==> Clean(mod, c)
  {
    hide HasCall;
  }

  // ---------------------------------------------------------------- the call graph

  /** The lists hold the names and callees of the calls of function c. */
  ghost predicate AllCalls(mod: Module, c: nat, ids: seq<nat>, callees: seq<nat>)
    requires c < |mod|
  {
    && |ids| == |callees| && Distinct(ids)
    && (forall j :: 0 <= j < |ids| ==> callees[j] < |mod| && HasCall(mod[c].body, ids[j], callees[j]))
    && (forall id: nat, h: nat :: h < |mod| && HasCall(mod[c].body, id, h) ==> id in ids && h in callees)
  }

  predicate Before(b: nat, k: nat, b': nat, k': nat) {
    b < b' || (b == b' && k < k')
  }

  /** The same for the instructions before instruction k of block b. */
  ghost predicate CallsTo(mod: Module, f: Func, b: nat, k: nat, ids: seq<nat>, callees: seq<nat>) {
    && |ids| == |callees|
    && (forall j :: 0 <= j < |ids| ==> callees[j] < |mod| && CallBefore(f, b, k, ids[j], callees[j]))
    && Distinct(ids)
    && (forall b': nat, k': nat, id: nat, h: nat ::
      CallHere(f, b', k', id, h) && h < |mod| && Before(b', k', b, k) ==> id in ids && h in callees)
  }

  ghost predicate CallBefore(f: Func, b: nat, k: nat, id: nat, h: nat) {
    exists b': nat, k': nat :: CallHere(f, b', k', id, h) && Before(b', k', b, k)
  }

  lemma ShapeOf(mod: Module, c: nat)
    requires ModuleOk(mod) && c < |mod|
    ensures GoodShape(mod[c].body)
  {
    hide GoodShape, VoidCallsUnused;
    assert FunctionOk(mod, mod[c].body);
  }

  lemma CallsBegin(mod: Module, f: Func)
    ensures CallsTo(mod, f, 0, 0, [], [])
  {
  }

  lemma BeforeNext(f: Func, b: nat, k: nat, id: nat, h: nat)
    requires CallBefore(f, b, k, id, h)
    ensures CallBefore(f, b, k + 1, id, h) && CallBefore(f, b + 1, 0, id, h)
  {
    var b': nat, k': nat :| CallHere(f, b', k', id, h) && Before(b', k', b, k);
  }

  lemma NotBefore(f: Func, b: nat, k: nat, id: nat, h: nat)
    requires GoodShape(f) && CallBefore(f, b, k, id, h) && b < |f.blocks| && k < |f.blocks[b].body| &&
               f.blocks[b].body[k].Op?
    ensures f.blocks[b].body[k].id != id
  {
    hide GoodShape;
    var b': nat, k': nat :| CallHere(f, b', k', id, h) && Before(b', k', b, k);
    SameIdSamePlace(f, b', k', b, k);
  }

  lemma CallsNext(mod: Module, f: Func, b: nat, k: nat, ids: seq<nat>, callees: seq<nat>)
    requires GoodShape(f) && CallsTo(mod, f, b, k, ids, callees) && b < |f.blocks| && k < |f.blocks[b].body|
    ensures var i := f.blocks[b].body[k];
            if i.Op? && i.code.Call? &&
              i.code.callee < |mod| then CallsTo(mod, f, b, k + 1, ids + [i.id], callees + [i.code.callee])
            else CallsTo(mod, f, b, k + 1, ids, callees)
  {
    hide GoodShape, CallBefore;
    var i := f.blocks[b].body[k];
    forall j | 0 <= j < |ids|
      ensures CallBefore(f, b, k + 1, ids[j], callees[j]) && (i.Op? ==> i.id != ids[j])
    {
      BeforeNext(f, b, k, ids[j], callees[j]);
      if i.Op? {
        NotBefore(f, b, k, ids[j], callees[j]);
      }
    }
    if i.Op? && i.code.Call? && i.code.callee < |mod| {
      ThisCall(f, b, k, i.id, i.code.callee);
    }
  }

  lemma ThisCall(f: Func, b: nat, k: nat, id: nat, h: nat)
    requires CallHere(f, b, k, id, h)
    ensures CallBefore(f, b, k + 1, id, h)
  {
    assert Before(b, k, b, k + 1);
  }

  lemma CallsBlock(mod: Module, f: Func, b: nat, ids: seq<nat>, callees: seq<nat>)
    requires b < |f.blocks| && CallsTo(mod, f, b, |f.blocks[b].body|, ids, callees)
    ensures CallsTo(mod, f, b + 1, 0, ids, callees)
  {
    hide CallBefore;
    forall j | 0 <= j < |ids|
      ensures CallBefore(f, b + 1, 0, ids[j], callees[j])
    {
      BeforeNext(f, b, |f.blocks[b].body|, ids[j], callees[j]);
    }
  }

  lemma CallsEnd(mod: Module, c: nat, ids: seq<nat>, callees: seq<nat>)
    requires c < |mod| && CallsTo(mod, mod[c].body, |mod[c].body.blocks|, 0, ids, callees)
    ensures AllCalls(mod, c, ids, callees)
  {
    var f := mod[c].body;
    forall j | 0 <= j < |ids|
      ensures HasCall(f, ids[j], callees[j])
    {
      var b': nat, k': nat :| CallHere(f, b', k', ids[j], callees[j]) && Before(b', k', |f.blocks|, 0);
    }
    forall id: nat, h: nat | h < |mod| && HasCall(f, id, h)
      ensures id in ids && h in callees
    {
      var b': nat, k': nat :| CallHere(f, b', k', id, h);
    }
  }

  ghost predicate CallsFunc(mod: Module, c: nat, h: nat)
    requires c < |mod|
  {
    h < |mod| && exists id :: HasCall(mod[c].body, id, h)
  }

  ghost predicate IsCallGraph(mod: Module, g: Graph) {
    |g| == |mod| && forall c, h :: 0 <= c < |mod| ==> (h in g[c] <==> CallsFunc(mod, c, h))
  }

  lemma CalleesAreNodes(mod: Module, ids: seq<seq<nat>>, callees: seq<seq<nat>>)
    requires |ids| == |callees| == |mod| && forall c :: 0 <= c < |mod| ==> AllCalls(mod, c, ids[c], callees[c])
    ensures Closed(callees)
  {
    hide HasCall;
    forall u, v | 0 <= u < |callees| && v in callees[u]
      ensures v < |callees|
    {
      assert AllCalls(mod, u, ids[u], callees[u]);
    }
  }

  lemma CallGraphOf(mod: Module, ids: seq<seq<nat>>, callees: seq<seq<nat>>, g: Graph)
    requires |ids| == |callees| == |mod| && forall c :: 0 <= c < |mod| ==> AllCalls(mod, c, ids[c], callees[c])
    requires |g| == |callees| && forall u :: 0 <= u < |callees| ==> g[u] == Callees(callees[u])
    ensures IsCallGraph(mod, g)
  {
    hide HasCall, Callees;
    forall c, h | 0 <= c < |mod|
      ensures h in g[c] <==> CallsFunc(mod, c, h)
    {
      assert AllCalls(mod, c, ids[c], callees[c]);
      CalleesOnce(callees[c]);
    }
  }

  // ---------------------------------------------------------------- callees first

  ghost predicate OnCycle(g: Graph, h: nat) {
    h < |g| && exists v: nat :: v in g[h] && Reach(g, v, h)
  }

  /** No function that can be reached by calls from c can reach itself. */
  ghost predicate NoCycleFrom(g: Graph, c: nat) {
    forall h: nat :: Reach(g, c, h) ==> !OnCycle(g, h)
  }

  lemma NotAlone(g: Graph, scc: seq<nat>, c: nat)
    requires IsScc(g, scc) && |scc| > 1 && c in scc
    ensures !NoCycleFrom(g, c)
  {
    var u := if scc[0] == c then scc[1] else scc[0];
    assert u in scc && Mutual(g, c, u);
    var walk :| WalkFrom(g, walk, c, u);
    assert WalkStep(g, walk, 0);
    WalkPart(g, walk, 1, |walk| - 1);
    ReachTrans(g, walk[1], u, c);
    ReachSelf(g, c);
    assert OnCycle(g, c);
  }

  lemma NoCycleNext(g: Graph, c: nat, h: nat)
    requires NoCycleFrom(g, c) && c < |g| && h < |g| && h in g[c]
    ensures h != c && NoCycleFrom(g, h)
  {
    ReachSelf(g, c);
    ReachEdge(g, c, h);
    assert !OnCycle(g, c);
    forall v: nat | Reach(g, h, v)
      ensures !OnCycle(g, v)
    {
      ReachTrans(g, c, h, v);
    }
  }

  /** Everything but the bodies stays. */
  ghost predicate SameFlags(mod0: Module, mod: Module) {
    |mod| == |mod0| && forall f :: 0 <= f < |mod| ==> mod[f] == mod0[f].(body := mod[f].body)
  }

  /** After the components listed in `done`: other functions are as they were, and those
      from which no cycle can be reached are clean. */
  ghost predicate Progress(mod0: Module, mod: Module, g: Graph, done: seq<seq<nat>>) {
    && |mod| == |mod0|
    && (forall f: nat :: f < |mod| && !Found(done, f) ==> mod[f] == mod0[f])
    && (forall f: nat :: f < |mod| && Found(done, f) && NoCycleFrom(g, f) ==> Clean(mod, f))
    && (forall f: nat :: f < |mod| && Found(done, f) ==>
      if Alone(g, f) then Settling(mod0, mod, f, []) else mod[f] == mod0[f])
  }

  /** A component by itself. */
  ghost predicate Alone(g: Graph, c: nat) {
    forall v :: Mutual(g, c, v) ==> v == c
  }

  lemma AloneInList(g: Graph, scc: seq<nat>, c: nat)
    requires IsScc(g, scc) && c in scc
    ensures Alone(g, c) <==> |scc| == 1
  {
    if |scc| == 1 {
      assert scc == [c];
    } else {
      var u := if scc[0] == c then scc[1] else scc[0];
      assert u in scc && Mutual(g, c, u);
    }
  }

  lemma NoneFound()
    ensures forall f: nat :: !Found([], f)
  {
  }

  lemma FoundNext(sccs: seq<seq<nat>>, i: nat)
    requires i < |sccs|
    ensures forall f: nat :: Found(sccs[..i + 1], f) <==> Found(sccs[..i], f) || f in sccs[i]
  {
    assert sccs[..i + 1] == sccs[..i] + [sccs[i]];
    FoundAppend(sccs[..i], sccs[i]);
  }

  lemma FoundOnce(g: Graph, sccs: seq<seq<nat>>, i: nat, f: nat)
    requires IsSccList(g, sccs) && i < |sccs| && f in sccs[i]
    ensures !Found(sccs[..i], f) && f < |g|
  {
    assert In(sccs, f, i);
    assert Found(sccs, f);
    if Found(sccs[..i], f) {
      var j: nat :| In(sccs[..i], f, j);
      assert In(sccs, f, j);
    }
  }

  lemma NodeReady(mod0: Module, mod: Module, g: Graph, sccs: seq<seq<nat>>, i: nat, ids: seq<seq<nat>>,
                  callees: seq<seq<nat>>)
    requires IsSccList(g, sccs) && IsCallGraph(mod0, g) && i < |sccs| && |sccs[i]| == 1
    requires Progress(mod0, mod, g, sccs[..i]) && SameFlags(mod0, mod)
    requires |ids| == |callees| == |mod0| && forall c :: 0 <= c < |mod0| ==> AllCalls(mod0, c, ids[c], callees[c])
    ensures var c := sccs[i][0]; c < |mod| && mod[c] == mod0[c] && Distinct(ids[c])
    ensures var c := sccs[i][0];
              forall id :: id in ids[c] <==> exists h: nat :: h < |mod| && HasCall(mod[c].body, id, h)
    ensures var c := sccs[i][0]; NoCycleFrom(g, c) ==> CalleesClean(mod, c)
  {
    hide HasCall, IsScc, Clean, Found;
    var c := sccs[i][0];
    FoundOnce(g, sccs, i, c);
    assert AllCalls(mod0, c, ids[c], callees[c]);
    if NoCycleFrom(g, c) {
      forall id: nat, h: nat | h < |mod| && HasCall(mod[c].body, id, h)
        ensures h != c && (mod[h].isInline ==> Clean(mod, h))
      {
        assert CallsFunc(mod0, c, h);
        NoCycleNext(g, c, h);
        CalleeEarlier(g, sccs, i, c, h);
      }
    }
  }

  /** A callee outside the component is in an earlier one. */
  lemma CalleeEarlier(g: Graph, sccs: seq<seq<nat>>, i: nat, c: nat, h: nat)
    requires IsSccList(g, sccs) && i < |sccs| && sccs[i] == [c] && h != c && c < |g| && h in g[c]
    ensures Found(sccs[..i], h)
  {
    hide IsScc;
    assert In(sccs, c, i);
    assert Found(sccs[..i + 1], h);
    FoundNext(sccs, i);
  }

  lemma NodeDone(mod0: Module, mod1: Module, mod: Module, g: Graph, sccs: seq<seq<nat>>, i: nat)
    requires IsSccList(g, sccs) && i < |sccs| && |sccs[i]| == 1 && SameFlags(mod0, mod1)
    requires Progress(mod0, mod1, g, sccs[..i])
    requires var c := sccs[i][0];
               c < |mod1| && |mod| == |mod1| && mod == mod1[c := mod1[c].(body := mod[c].body)] &&
               mod1[c] == mod0[c] && (NoCycleFrom(g, c) ==> Clean(mod, c)) && Settling(mod1, mod, c, [])
    ensures Progress(mod0, mod, g, sccs[..i + 1]) && SameFlags(mod0, mod)
  {
    hide HasCall, IsScc, Found, NoCycleFrom, Clean, Alone, Settling;
    FoundNext(sccs, i);
    var c := sccs[i][0];
    AloneInList(g, sccs[i], c);
    assert sccs[i] == [c];
    forall f: nat | f < |mod| && f != c && Clean(mod1, f)
      ensures Clean(mod, f)
    {
      StillClean(mod1, mod, f);
    }
    var done := sccs[..i + 1];
    assert c in sccs[i] && Found(done, c);
    forall f: nat | f < |mod| && Found(done, f) && NoCycleFrom(g, f)
      ensures Clean(mod, f)
    {
      if f != c {
        assert Found(sccs[..i], f);
      }
    }
    forall f: nat | f < |mod| && Found(done, f)
      ensures if Alone(g, f) then Settling(mod0, mod, f, []) else mod[f] == mod0[f]
    {
      if f != c {
        assert Found(sccs[..i], f);
      }
      if Alone(g, f) {
        SettlingSame(if f == c then mod1 else mod0, mod0, if f == c then mod else mod1, mod, f);
      }
    }
  }

  lemma SettlingSame(old_: Module, old': Module, new_: Module, new': Module, f: nat)
    requires f < |old_| == |old'| && f < |new_| == |new'| && Settling(old_, new_, f, [])
    requires old_[f].body == old'[f].body && new_[f].body == new'[f].body
    requires forall h :: 0 <= h < |old_| ==> old_[h].isInline == old'[h].isInline
    ensures Settling(old', new', f, [])
  {
    hide HasCall, NoCall;
  }

  lemma StillClean(mod1: Module, mod: Module, f: nat)
    requires f < |mod| == |mod1| && mod[f] == mod1[f] && Clean(mod1, f)
    requires forall h :: 0 <= h < |mod| ==> mod[h].isInline == mod1[h].isInline
    ensures Clean(mod, f)
  {
    hide HasCall;
  }

  lemma CycleSkipped(mod0: Module, mod: Module, g: Graph, sccs: seq<seq<nat>>, i: nat)
    requires IsSccList(g, sccs) && i < |sccs| && |sccs[i]| != 1 && Progress(mod0, mod, g, sccs[..i])
    ensures Progress(mod0, mod, g, sccs[..i + 1])
  {
    hide Found, NoCycleFrom, Clean, IsScc, Alone, Settling;
    FoundNext(sccs, i);
    forall f: nat | f in sccs[i]
      ensures !NoCycleFrom(g, f) && !Alone(g, f) && !Found(sccs[..i], f)
    {
      AloneInList(g, sccs[i], f);
      FoundOnce(g, sccs, i, f);
      SccSize(g, sccs[i]);
      NotAlone(g, sccs[i], f);
    }
  }

  lemma SccSize(g: Graph, scc: seq<nat>)
    requires IsScc(g, scc)
    ensures |scc| > 0
  {
  }

  lemma GraphIs(mod: Module, g: Graph)
    requires IsCallGraph(mod, g)
    ensures forall c: nat, h: nat {:trigger h in g[c]} ::
              c < |mod| ==> (h in g[c] <==> h < |mod| && exists b, k ::
                0 <= b < |mod[c].body.blocks| && 0 <= k < |mod[c].body.blocks[b].body| &&
                mod[c].body.blocks[b].body[k].Op? && mod[c].body.blocks[b].body[k].code == Call(h))
  {
    forall c: nat, h: nat, b: nat, k: nat |
      c < |mod| && b < |mod[c].body.blocks| && k < |mod[c].body.blocks[b].body| && mod[c].body.blocks[b].body[k].Op? &&
      mod[c].body.blocks[b].body[k].code == Call(h)
      ensures HasCall(mod[c].body, mod[c].body.blocks[b].body[k].id, h)
    {
      assert CallHere(mod[c].body, b, k, mod[c].body.blocks[b].body[k].id, h);
    }
    forall c: nat, h: nat | c < |mod| && CallsFunc(mod, c, h)
      ensures exists b, k ::
        0 <= b < |mod[c].body.blocks| && 0 <= k < |mod[c].body.blocks[b].body| &&
        mod[c].body.blocks[b].body[k].Op? && mod[c].body.blocks[b].body[k].code == Call(h)
    {
      var id: nat :| HasCall(mod[c].body, id, h);
      var b: nat, k: nat :| CallHere(mod[c].body, b, k, id, h);
    }
  }

  /** What has become of the calls, instruction by instruction. */
  lemma CallsEnded(mod0: Module, mod: Module, g: Graph)
    requires |mod0| == |mod| && forall c: nat :: c < |mod| ==>
               if Alone(g, c) then Settling(mod0, mod, c, []) else mod[c] == mod0[c]
    ensures forall c: nat, b, k, b', k' ::
      c < |mod| && (forall v :: Mutual(g, c, v) ==> v == c) &&
      0 <= b < |mod0[c].body.blocks| && 0 <= k < |mod0[c].body.blocks[b].body| &&
      0 <= b' < |mod[c].body.blocks| && 0 <= k' < |mod[c].body.blocks[b'].body| ==>
        var call, i := mod0[c].body.blocks[b].body[k], mod[c].body.blocks[b'].body[k'];
        !(call.Op? && call.code.Call? && call.code.callee < |mod| && call.code.callee != c &&
          mod0[call.code.callee].isInline && i.Op? && i.id == call.id && i.code.Call?)
    ensures forall c: nat, b, k ::
      c < |mod| && 0 <= b < |mod0[c].body.blocks| && 0 <= k < |mod0[c].body.blocks[b].body| ==>
        var call := mod0[c].body.blocks[b].body[k];
        (call.Op? && call.code.Call? &&
         (call.code.callee == c || call.code.callee >= |mod| || !mod0[call.code.callee].isInline) ==>
           HasCall(mod[c].body, call.id, call.code.callee))
    ensures forall c: nat :: c < |mod| && !(forall v :: Mutual(g, c, v) ==> v == c) ==> mod[c] == mod0[c]
  {
    hide Mutual;
    forall c: nat, b: nat, k: nat |
      c < |mod| && b < |mod0[c].body.blocks| && k < |mod0[c].body.blocks[b].body| &&
      mod0[c].body.blocks[b].body[k].Op? && mod0[c].body.blocks[b].body[k].code.Call?
      ensures HasCall(mod0[c].body, mod0[c].body.blocks[b].body[k].id, mod0[c].body.blocks[b].body[k].code.callee)
    {
      var i := mod0[c].body.blocks[b].body[k];
      assert CallHere(mod0[c].body, b, k, i.id, i.code.callee);
    }
    forall c: nat, b': nat, k': nat |
      c < |mod| && b' < |mod[c].body.blocks| && k' < |mod[c].body.blocks[b'].body| &&
      mod[c].body.blocks[b'].body[k'].Op? && mod[c].body.blocks[b'].body[k'].code.Call?
      ensures !NoCall(mod[c].body, mod[c].body.blocks[b'].body[k'].id)
    {
      var i := mod[c].body.blocks[b'].body[k'];
      assert CallHere(mod[c].body, b', k', i.id, i.code.callee);
      assert HasCall(mod[c].body, i.id, i.code.callee);
    }
  }

  lemma AllProcessed(mod0: Module, mod: Module, g: Graph, sccs: seq<seq<nat>>)
    requires IsSccList(g, sccs) && Progress(mod0, mod, g, sccs) && |g| == |mod|
    ensures forall c :: 0 <= c < |mod| && NoCycleFrom(g, c) ==> Clean(mod, c)
    ensures forall c: nat :: c < |mod| ==> if Alone(g, c) then Settling(mod0, mod, c, []) else mod[c] == mod0[c]
  {
    hide Found, NoCycleFrom, Clean, IsScc, Alone, Settling;
  }

  function NewId(vm: map<Value, Value>, i: Instruction): nat {
    if Instr(i.id) in vm && vm[Instr(i.id)].Instr? then vm[Instr(i.id)].id else i.id
  }

  lemma PhiNames(x: Site, v: Value)
    requires MayInline(x) && v in x.callee.body.phis
    ensures v in x.vm && !v.Arg? && !v.Const? && x.vm[v] !in x.f.phis
    ensures forall u :: u in x.callee.body.phis && u in x.vm && x.vm[u] == x.vm[v] ==> u == v
  {
    hide GoodShape, MayInline;
    InlineFacts(x);
    PhiPlacedIn(x.callee.body, v);
    CloneName(x, v);
  }

  lemma MapResult(x: Site, v: Value)
    requires AtCall(x) && v in x.vm && !v.Arg? && !v.Const?
    ensures MapValue(x, v) == x.vm[v]
  {
  }

  /** What validity says about a call in function c. */
  lemma CallFacts(mod: Module, c: nat, b: nat, i: nat)
    requires ModuleOk(mod) && c < |mod| && b < |mod[c].body.blocks| && i < |mod[c].body.blocks[b].body|
    requires IsCall(mod, mod[c].body.blocks[b].body[i])
    ensures var instr := mod[c].body.blocks[b].body[i];
            GoodShape(mod[c].body) && GoodShape(mod[instr.code.callee].body) &&
            (!mod[instr.code.callee].hasResult ==> !UsedIn(mod[c].body, Instr(instr.id)))
  {
    hide GoodShape, UsedIn;
    assert FunctionOk(mod, mod[c].body);
    assert VoidCallUnused(mod, mod[c].body, mod[c].body.blocks[b].body[i]);
    assert FunctionOk(mod, mod[mod[c].body.blocks[b].body[i].code.callee].body);
  }

  lemma SiteOk(mod: Module, c: nat, x: Site, vm: map<Value, Value>, lo: nat, hi: nat)
    requires c < |mod| && AtCall(x) && x.f == mod[c].body && Callee(x) < |mod| && x.callee == mod[Callee(x)]
    requires GoodShape(x.f) && GoodShape(x.callee.body) && (!x.callee.hasResult ==> !UsedIn(x.f, CallValue(x)))
    requires NamesBelow(mod, lo) && x.vm == Results(vm) && NamesIn(vm, lo, hi) && x.phi == Instr(hi)
    requires ArgsMapped(vm, TheCall(x).args) && forall v :: DefinedIn(x.callee.body, v) ==> v in vm
    ensures MayInline(x) && forall v :: LookUp(vm, v) == MapValue(x, v)
  {
    hide GoodShape, UsedIn, MapValue, LookUp, DefinedIn;
    forall v
      ensures LookUp(vm, v) == MapValue(x, v)
    {
      LookUpIs(x, vm, lo, hi, v);
    }
    forall v | DefinedIn(x.callee.body, v)
      ensures v in x.vm
    {
      DefinedName(x.callee.body, v);
    }
  }

  /** Clones have names from lo on. */
  ghost predicate NewNames(x: Site, lo: nat) {
    forall v :: v in x.vm ==> x.vm[v].Instr? && x.vm[v].id >= lo
  }

  lemma NamesAreNew(x: Site, vm: map<Value, Value>, lo: nat, hi: nat)
    requires x.vm == Results(vm) && NamesIn(vm, lo, hi)
    ensures NewNames(x, lo) && lo <= hi
  {
  }

  lemma DefinedName(f: Func, v: Value)
    requires GoodShape(f) && DefinedIn(f, v)
    ensures !v.Arg? && !v.Const?
  {
    hide GoodShape;
    if v in f.phis {
      PhiPlacedIn(f, v);
    }
  }

  lemma PhisKept(x: Site, phis: map<Value, Phi>)
    requires AtCall(x)
    ensures !x.callee.hasResult ==> PhisDone(x, phis, phis)
  {
    hide OwnOps;
    if !x.callee.hasResult {
      forall v | v in phis
        ensures phis[v] == Phi(phis[v].block, OwnOps(x, phis[v].ops))
      {
        OpsReplaced(x, phis[v].ops);
      }
    }
  }

  lemma PhisReplaced(x: Site, phis: map<Value, Phi>, phis': map<Value, Phi>)
    requires AtCall(x) && x.callee.hasResult && phis'.Keys == phis.Keys
    requires forall w :: w in phis ==> phis'[w] == Phi(phis[w].block, SubstOps(CallValue(x), x.phi, phis[w].ops))
    ensures PhisDone(x, phis, phis')
  {
    hide OwnOps, SubstOps;
    forall v | v in phis
      ensures phis'[v] == Phi(phis[v].block, OwnOps(x, phis[v].ops))
    {
      OpsReplaced(x, phis[v].ops);
    }
  }

  /** The module is valid again. */
  lemma Finish(mod: Module, mod': Module, c: nat, x: Site, vm: map<Value, Value>, lo: nat, hi: nat)
    requires ModuleOk(mod) && NamesBelow(mod, lo) && c < |mod|
    requires forall g :: 0 <= g < |mod| && mod[g].isInline ==> NoLeadingAlloca(mod[g].body)
    requires MayInline(x) && x.f == mod[c].body && Callee(x) < |mod| && Callee(x) != c && mod[Callee(x)] == x.callee
    requires |mod'| == |mod| && mod' == mod[c := mod[c].(body := mod'[c].body)] && IsInlined(x, mod'[c].body)
    requires x.vm == Results(vm) && x.phi.Instr? && NamesIn(vm, lo, x.phi.id)
    requires if x.callee.hasResult then x.phi.id < hi else x.phi.id <= hi
    ensures Inlines(mod, mod', c, x) && ModuleOk(mod') && NamesBelow(mod', hi)
    ensures forall g :: 0 <= g < |mod'| && mod'[g].isInline ==> NoLeadingAlloca(mod'[g].body)
  {
    hide MayInline, IsInlined, ModuleOk, NamesBelow, NoLeadingAlloca;
    InlineFacts(x);
    assert Inlines(mod, mod', c, x);
    InliningKeepsOk(mod, mod', c, x);
    NamesStayBelow(mod, mod', c, x, lo, hi);
    if mod[c].isInline {
      StillNoLeadingAlloca(x, mod'[c].body);
    }
  }

  lemma NoNames(vm: map<Value, Value>, lo: nat)
    requires forall v :: v in vm ==> v.Arg?
    ensures NamesIn(vm, lo, lo)
  {
  }
}
