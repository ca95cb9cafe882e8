/** Local value numbering as the pass does it: it walks every block once with a map from
    keys to values, renames and removes in place, and forgets the map between blocks. */
module NumberingPass {
  import opened Options
  import opened IR
  import opened SsaPaths
  import opened ValueNumbering
  import opened NumberingRuns
  import opened NumberingSteps
  import SsaCorrect

  class Numberer {
    const opcodes: Opcodes
    ghost const c: Ctx

    var blocks: seq<Block>
    var phis: map<Value, Phi>
    var valueMap: map<Key, Value>

    ghost var ren: Renaming

    /** The fields hold the function with what is replaced so far gone. */
    ghost predicate Holds()
      reads this
    {
      blocks == NumBlocks(ren, c.f.blocks) && phis == NumPhis(ren, c.f.phis)
    }

    ghost predicate InPhis(b: nat, todo: set<Value>)
      reads this
    {
      && Holds() && b < |c.f.blocks| && WalkOk(c, opcodes, ren, valueMap, b, 0, todo)
      && (OutsideOps(c, b) ==> PhisTracked(phis, valueMap, b, todo))
    }

    ghost predicate InBody(b: nat, k: nat)
      reads this
    {
      Holds() && b < |c.f.blocks| && k <= Len(c, b) && BodyWalk(c, opcodes, ren, valueMap, b, k)
    }

    constructor (f: Func, opcodes: Opcodes, ghost c: Ctx)
      requires WellFormed(c) && UsesInOrder(f) && Suits(c, opcodes) && c.f == f
      ensures this.c == c && this.opcodes == opcodes
      ensures blocks == f.blocks && phis == f.phis && valueMap == map[] && ren == map[]
    {
      this.opcodes := opcodes;
      this.c := c;
      blocks, phis, valueMap, ren := f.blocks, f.phis, map[], map[];
    }

    /** Every use of x names y. */
    method ReplaceAllUses(x: Value, y: Value)
      modifies this`blocks, this`phis
      ensures blocks == SubstBlocks(x, y, old(blocks)) && phis == SubstPhis(x, y, old(phis))
    {
      blocks := SubstBlocks(x, y, blocks);
      phis := SubstPhis(x, y, phis);
    }

    /** A phi goes if an earlier one of the block has its operands. */
    method NumberPhi(b: nat, x: Value, ghost todo: set<Value>)
      requires InPhis(b, todo) && x in todo && x in phis && phis[x].block == b
      modifies this
      ensures InPhis(b, todo - {x}) && Grows(c, old(ren), ren, b)
      ensures var key := PhiKey(old(phis)[x].ops);
              if key in old(valueMap) then ren == old(ren)[x := old(valueMap)[key]] && valueMap == old(valueMap)
              else ren == old(ren) && valueMap == old(valueMap)[key := x]
    {
      hide WalkOk, GoodDefs, OutsideOps, NumBlocks, NumPhis, SubstPhis, SubstBlocks, PhisTracked, RenOps;
      var key := PhiKey(phis[x].ops);
      assert x in c.f.phis && phis[x] == Phi(c.f.phis[x].block, RenOps(ren, c.f.phis[x].ops)) by {
        StayingPhi(c, ren, x);
      }
      if key in valueMap {
        var y := valueMap[key];
        PhiDropStep(c, opcodes, ren, valueMap, b, todo, x);
        DropFacts(c, opcodes, ren, valueMap, b, todo, x, y);
        ReplaceAllUses(x, y);
        phis := phis - {x};
        ren := ren[x := y];
      } else {
        PhiKeepStep(c, opcodes, ren, valueMap, b, todo, x);
        KeepTracked(phis, valueMap, b, todo, x);
        valueMap := valueMap[key := x];
      }
    }

    /** The phis of a block, in any order. */
    method NumberPhis(b: nat)
      requires InPhis(b, PhisOf(phis, b)) && valueMap == map[]
      modifies this
      ensures InPhis(b, {}) && Grows(c, old(ren), ren, b)
    {
      hide WalkOk, OutsideOps, NumBlocks, PhisTracked, RenOps, Grows;
      var todo := PhisOf(phis, b);
      GrowsSelf(c, ren, b);
      while todo != {}
        invariant InPhis(b, todo) && Grows(c, old(ren), ren, b)
        invariant todo <= PhisOf(phis, b)
        decreases |todo|
      {
        var x :| x in todo;
        ghost var was, phisWas := ren, phis;
        NumberPhi(b, x, todo);
        GrowsTrans(c, old(ren), was, ren, b);
        todo := todo - {x};
      }
    }

    /** The map without the loads. */
    method ForgetLoads()
      modifies this`valueMap
      ensures valueMap == map key | key in old(valueMap) && !key.LoadKey? :: old(valueMap)[key]
    {
      var keys := valueMap.Keys;
      while keys != {}
        invariant forall key :: key in valueMap ==> key in old(valueMap) && valueMap[key] == old(valueMap)[key]
        invariant forall key :: key in old(valueMap) ==> key in valueMap || key.LoadKey?
        invariant forall key :: key in valueMap && key.LoadKey? ==> key in keys
        decreases |keys|
      {
        var key :| key in keys;
        keys := keys - {key};
        if key.LoadKey? {
          valueMap := valueMap - {key};
        }
      }
    }

    /** Instruction k of the original block, which is at position i now. */
    method NumberInstr(b: nat, i: nat, ghost k: nat) returns (dropped: bool)
      requires InBody(b, k) && k < Len(c, b) && i == |NumBody(ren, c.f.blocks[b].body[..k])|
      requires i < |blocks[b].body| && blocks[b].body[i] == RenInstr(ren, c.f.blocks[b].body[k])
      modifies this
      ensures InBody(b, k + 1) && Grows(c, old(ren), ren, b)
      ensures |NumBody(ren, c.f.blocks[b].body[..k + 1])| == if dropped then i else i + 1
      ensures var instr := old(blocks)[b].body[i]; var key := KeyOf(opcodes, instr);
              && (dropped <==> key.Some? && key.value in old(valueMap))
              && ren == (if dropped then old(ren)[Instr(instr.id) := old(valueMap)[key.value]] else old(ren))
              && (!dropped ==> blocks == old(blocks) && phis == old(phis))
    {
      hide BodyWalk, NumBlocks, NumPhis, SubstPhis, SubstBlocks, KeyOf, RenInstr, Clobbers, NumBody, Grows;
      var instr := blocks[b].body[i];
      var key := KeyOf(opcodes, instr);
      ghost var was := valueMap;
      ClobberHasNoKey(opcodes, instr);
      SameKind(ren, c.f.blocks[b].body[k]);
      GrowsSelf(c, ren, b);
      dropped := key.Some? && key.value in valueMap;
      if dropped {
        var x, y := Instr(instr.id), valueMap[key.value];
        DropWalk(c, opcodes, ren, valueMap, b, k, key.value);
        InstrDropFacts(c, opcodes, ren, valueMap, b, k, y, key.value);
        ReplaceAllUses(x, y);
        blocks := blocks[b := blocks[b].(body := blocks[b].body[..i] + blocks[b].body[i + 1..])];
        ren := ren[x := y];
      } else {
        if Clobbers(instr) {
          ForgetLoads();
        } else if key.Some? {
          valueMap := valueMap[key.value := Instr(instr.id)];
        }
        KeepWalk(c, opcodes, ren, was, valueMap, b, k);
        KeepLength(c, opcodes, ren, was, b, k);
      }
    }

    /** One block, with an empty map at its start. */
    method NumberBlock(b: nat)
      requires Holds() && b < |c.f.blocks| && WalkOk(c, opcodes, ren, map[], b, 0, PhisOf(phis, b))
      modifies this
      ensures Holds() && WalkOk(c, opcodes, ren, valueMap, b, Len(c, b), {})
      ensures Grows(c, old(ren), ren, b) && BlockDone(c, opcodes, ren, b)
    {
      hide WalkOk, OutsideOps, NumPhis, PhisTracked, RenOps, Grows, NumBody, RenInstr, BodyWalk, KeyOf, BlockDone;
      valueMap := map[];
      assert PhisTracked(phis, valueMap, b, PhisOf(phis, b)) by {
        TrackedAtFirst(phis, b);
      }
      NumberPhis(b);
      BodyStart(c, opcodes, ren, valueMap, b);
      ghost var k := 0;
      NumEmpty(ren, c.f.blocks[b].body[..0]);
      RestHere(c, opcodes, ren, valueMap, b, 0);
      var i := 0;
      while i < |blocks[b].body|
        invariant InBody(b, k) && Grows(c, old(ren), ren, b)
        invariant i == |NumBody(ren, c.f.blocks[b].body[..k])| && |blocks[b].body| - i == Len(c, b) - k
        invariant k < Len(c, b) ==> i < |blocks[b].body| && blocks[b].body[i] == RenInstr(ren, c.f.blocks[b].body[k])
        decreases Len(c, b) - k
      {
        ghost var was := ren;
        var dropped := NumberInstr(b, i, k);
        GrowsTrans(c, old(ren), was, ren, b);
        if !dropped {
          i := i + 1;
        }
        k := k + 1;
        RestHere(c, opcodes, ren, valueMap, b, k);
      }
      BodyDone(c, opcodes, ren, valueMap, b);
      WalkOfBody(c, opcodes, ren, valueMap, b, k);
    }

    /** The pass: on every well-behaved machine the function left runs like the one at the
        start, and when the blocks up to b were done, nothing in b was computed twice. */
    method Run()
      requires WellFormed(c) && UsesInOrder(c.f) && Suits(c, opcodes)
      requires blocks == c.f.blocks && phis == c.f.phis && ren == map[]
      modifies this
      ensures Holds() && NumOk(c, opcodes, ren)
      ensures ValidTargets(c.f) && ValidTargets(Func(blocks, phis)) && |blocks| == |c.f.blocks| > 0
      ensures forall run: Setting, steps: nat :: WellBehaved(run.m, opcodes) ==>
                SsaCorrect.OutcomeOf(Func(blocks, phis), {}, run, steps) == SsaCorrect.OutcomeOf(c.f, {}, run, steps)
      ensures forall b :: 0 <= b < |blocks| ==> BlockDone(c, opcodes, ren, b)
    {
      hide NumOk, OutsideOps, NumPhis, NumBlocks, PhisTracked, RenOps, Grows, NumBody, BlockDone, WellFormed, Suits,
        WalkOk;
      NothingDropped(c);
      WalkStart(c, opcodes, PhisOf(phis, 0));
      for b := 0 to |blocks|
        invariant Holds() && |blocks| == |c.f.blocks|
        invariant WalkOk(c, opcodes, ren, map[], b, 0, PhisOf(phis, b))
        invariant forall b' :: 0 <= b' < b ==> BlockDone(c, opcodes, ren, b')
      {
        ghost var was := ren;
        NumberBlock(b);
        NextBlock(c, opcodes, ren, valueMap, b, Len(c, b), PhisOf(phis, b + 1));
        forall b' | 0 <= b' < b
          ensures BlockDone(c, opcodes, ren, b')
        {
          DoneKept(c, opcodes, was, ren, b, b');
        }
      }
      WalkEnd(c, opcodes, ren, |c.f.blocks|, PhisOf(phis, |c.f.blocks|));
      NumberingPreservesRuns(c, opcodes, ren);
      assert Func(blocks, phis) == NumFunc(ren, c.f);
    }
  }

  // ---------------------------------------------------------------- small facts

  function PhisOf(phis: map<Value, Phi>, b: nat): set<Value> {
    set v | v in phis && phis[v].block == b
  }

  lemma StayingPhi(c: Ctx, ren: Renaming, x: Value)
    requires x in NumPhis(ren, c.f.phis)
    ensures x in c.f.phis && NumPhis(ren, c.f.phis)[x] == Phi(c.f.phis[x].block, RenOps(ren, c.f.phis[x].ops))
  {
  }

  lemma DropFacts(c: Ctx, o: Opcodes, ren: Renaming, vm: map<Key, Value>, b: nat, todo: set<Value>, x: Value, y: Value)
    requires WalkOk(c, o, ren, vm, b, 0, todo) && Untouched(ren, x) && x in c.f.phis && c.f.phis[x].block == b
    requires OutsideOps(c, b) ==> PhisTracked(NumPhis(ren, c.f.phis), vm, b, todo)
    ensures NumBlocks(ren[x := y], c.f.blocks) == SubstBlocks(x, y, NumBlocks(ren, c.f.blocks))
    ensures NumPhis(ren[x := y], c.f.phis) == SubstPhis(x, y, NumPhis(ren, c.f.phis)) - {x}
    ensures OutsideOps(c, b) ==> PhisTracked(NumPhis(ren[x := y], c.f.phis), vm, b, todo - {x})
    ensures Grows(c, ren, ren[x := y], b)
  {
    hide GoodEdges, GoodPhis, GoodUses, GoodSlots, GoodDefs, Suits, RenOk, DropsSilent, RenSeen, MapOk, OutsideOps,
      PhisTracked, NumBlocks, NumPhis, SubstPhis, SubstBlocks;
    PhiDropFunc(c, ren, x, y);
    PhiName(c, x);
    if OutsideOps(c, b) {
      DropTracked(c, ren, vm, b, todo, x, y);
    }
  }

  lemma KeepTracked(phis: map<Value, Phi>, vm: map<Key, Value>, b: nat, todo: set<Value>, x: Value)
    requires x in phis && PhiKey(phis[x].ops) !in vm
    ensures PhisTracked(phis, vm, b, todo) ==> PhisTracked(phis, vm[PhiKey(phis[x].ops) := x], b, todo - {x})
  {
  }

  lemma GrowsSelf(c: Ctx, ren: Renaming, b: nat)
    ensures Grows(c, ren, ren, b)
  {
  }

  lemma GrowsTrans(c: Ctx, r0: Renaming, r1: Renaming, r2: Renaming, b: nat)
    requires Grows(c, r0, r1, b) && Grows(c, r1, r2, b)
    ensures Grows(c, r0, r2, b)
  {
  }

  lemma TrackedAtFirst(phis: map<Value, Phi>, b: nat)
    ensures PhisTracked(phis, map[], b, PhisOf(phis, b))
  {
  }

  lemma InstrDropFacts(c: Ctx, o: Opcodes, ren: Renaming, vm: map<Key, Value>, b: nat, k: nat, y: Value, key: Key)
    requires b < |c.f.blocks| && k < Len(c, b) && BodyWalk(c, o, ren, vm, b, k)
    requires KeyOf(o, RenInstr(ren, c.f.blocks[b].body[k])) == Some(key) && key in vm
    ensures var x := Instr(c.f.blocks[b].body[k].id);
            var blocks := SubstBlocks(x, y, NumBlocks(ren, c.f.blocks));
              var i := |NumBody(ren, c.f.blocks[b].body[..k])|;
            && i < |blocks[b].body|
            && NumBlocks(ren[x := y], c.f.blocks) ==
              blocks[b := blocks[b].(body := blocks[b].body[..i] + blocks[b].body[i + 1..])]
            && NumPhis(ren[x := y], c.f.phis) == SubstPhis(x, y, NumPhis(ren, c.f.phis))
            && |NumBody(ren[x := y], c.f.blocks[b].body[..k + 1])| == i
  {
    hide GoodEdges, GoodPhis, GoodUses, GoodSlots, GoodDefs, Suits, RenOk, DropsSilent, RenSeen, MapOk, Tracked,
      NoRepeats, KeyOf, RenInstr, NumBlocks, NumPhis, SubstPhis, SubstBlocks, NumBody;
    InstrDropStep(c, o, ren, vm, b, k, key);
    InstrDropFunc(c, ren, b, k, y);
    FrontKept(c, ren, b, k, y);
  }

  lemma KeepLength(c: Ctx, o: Opcodes, ren: Renaming, vm: map<Key, Value>, b: nat, k: nat)
    requires b < |c.f.blocks| && k < Len(c, b) && BodyWalk(c, o, ren, vm, b, k)
    ensures |NumBody(ren, c.f.blocks[b].body[..k + 1])| == |NumBody(ren, c.f.blocks[b].body[..k])| + 1
  {
    hide WalkOk, Tracked, NoRepeats, NumPhis, NumBody, Dropped, RenInstr;
    StaysHere(c, o, ren, vm, b, k);
    NumStep(ren, c.f.blocks[b].body, k + 1);
  }

  lemma RestHere(c: Ctx, o: Opcodes, ren: Renaming, vm: map<Key, Value>, b: nat, k: nat)
    requires b < |c.f.blocks| && k <= Len(c, b) && BodyWalk(c, o, ren, vm, b, k)
    ensures var body := c.f.blocks[b].body; var i := |NumBody(ren, body[..k])|; var r := NumBody(ren, body);
            |r| == i + |body| - k && (k < |body| ==> r[i] == RenInstr(ren, body[k]))
  {
    hide WalkOk, Tracked, NoRepeats, NumPhis, NumBody, RenInstr;
    RestThere(c, o, ren, vm, b, k);
  }

  lemma WalkOfBody(c: Ctx, o: Opcodes, ren: Renaming, vm: map<Key, Value>, b: nat, k: nat)
    requires b < |c.f.blocks| && k <= Len(c, b) && BodyWalk(c, o, ren, vm, b, k)
    ensures WalkOk(c, o, ren, vm, b, k, {})
  {
    hide WalkOk, Tracked, NoRepeats;
  }

  lemma DoneKept(c: Ctx, o: Opcodes, was: Renaming, ren: Renaming, b: nat, b': nat)
    requires b' < b && b' < |c.f.blocks| && Grows(c, was, ren, b) && BlockDone(c, o, was, b')
    ensures BlockDone(c, o, ren, b')
  {
    hide Grows, NoRepeats, OutsideOps, PhisDiffer, NumBody, NumPhis;
    UntilKept(c, was, ren, b, b');
  }

  lemma SameInstr(i: Instruction)
    ensures RenInstr(map[], i) == i
  {
    if i.Op? {
      assert RenInstr(map[], i).args == i.args;
    }
  }

  lemma {:induction false} SameBody(body: seq<Instruction>)
    ensures NumBody(map[], body) == body
  {
    hide RenInstr;
    if body != [] {
      var front, last := body[..|body| - 1], body[|body| - 1];
      SameBody(front);
      SameInstr(last);
      assert body == front + [last];
    }
  }

  lemma NothingDropped(c: Ctx)
    ensures NumBlocks(map[], c.f.blocks) == c.f.blocks && NumPhis(map[], c.f.phis) == c.f.phis
  {
    forall b | 0 <= b < |c.f.blocks|
      ensures NumBlock(map[], c.f.blocks[b]) == c.f.blocks[b]
    {
      SameBody(c.f.blocks[b].body);
    }
    forall v | v in c.f.phis
      ensures RenOps(map[], c.f.phis[v].ops) == c.f.phis[v].ops
    {
    }
  }

  lemma WalkStart(c: Ctx, o: Opcodes, todo: set<Value>)
    requires WellFormed(c) && UsesInOrder(c.f) && Suits(c, o)
    ensures WalkOk(c, o, map[], map[], 0, 0, todo)
  {
    hide WellFormed, Suits;
  }

  lemma WalkEnd(c: Ctx, o: Opcodes, ren: Renaming, b: nat, todo: set<Value>)
    requires WalkOk(c, o, ren, map[], b, 0, todo)
    ensures NumOk(c, o, ren)
  {
    hide NumOk;
  }
}
