/** The walk of local value numbering: how far it is, what its map holds, and how each
    drop and each new entry keeps that. */
module NumberingSteps {
  import opened Options
  import opened IR
  import opened Cfg
  import opened SsaPaths
  import opened SsaReplace
  import opened ValueNumbering
  import opened NumberingRuns
  import S = SsaState

  // ---------------------------------------------------------------- dropping one value

  /** x is not replaced yet and replaces nothing. */
  ghost predicate Untouched(ren: Renaming, x: Value) {
    x !in ren && forall z :: z in ren ==> ren[z] != x
  }

  function SubstBlocks(x: Value, y: Value, blocks: seq<Block>): (r: seq<Block>)
    ensures |r| == |blocks|
  {
    seq(|blocks|, b requires 0 <= b < |blocks| => S.SubstBlock(x, y, blocks[b]))
  }

  function SubstPhis(x: Value, y: Value, phis: map<Value, Phi>): map<Value, Phi> {
    map v | v in phis :: Phi(phis[v].block, S.SubstOps(x, y, phis[v].ops))
  }

  lemma RenDrop(c: Ctx, ren: Renaming, x: Value, y: Value)
    requires RenOk(c, ren) && Untouched(ren, x) && x.Instr? && y.Instr? && y !in ren && x != y && MayReplace(c, x, y)
    ensures RenOk(c, ren[x := y])
  {
    hide MayReplace;
  }

  lemma InstrSubst(ren: Renaming, x: Value, y: Value, i: Instruction)
    requires Untouched(ren, x)
    ensures RenInstr(ren[x := y], i) == S.SubstInstr(x, y, RenInstr(ren, i))
  {
    if i.Op? {
      assert RenInstr(ren[x := y], i).args == S.SubstInstr(x, y, RenInstr(ren, i)).args;
    }
  }

  lemma OpsSubst(ren: Renaming, x: Value, y: Value, ops: seq<(Value, nat)>)
    requires Untouched(ren, x)
    ensures RenOps(ren[x := y], ops) == S.SubstOps(x, y, RenOps(ren, ops))
  {
  }

  ghost predicate NoDef(body: seq<Instruction>, x: Value) {
    forall j :: 0 <= j < |body| ==> !Defines(body[j], x)
  }

  /** Elsewhere dropping x renames its uses. */
  lemma {:induction false} BodySubst(ren: Renaming, x: Value, y: Value, body: seq<Instruction>)
    requires Untouched(ren, x) && NoDef(body, x)
    ensures NumBody(ren[x := y], body) == S.SubstBody(x, y, NumBody(ren, body))
  {
    hide RenInstr;
    if body != [] {
      var last := body[|body| - 1];
      BodySubst(ren, x, y, body[..|body| - 1]);
      InstrSubst(ren, x, y, last);
      assert !Defines(last, x);
    }
  }

  lemma {:induction false} NumConcat(ren: Renaming, a: seq<Instruction>, b: seq<Instruction>)
    ensures NumBody(ren, a + b) == NumBody(ren, a) + NumBody(ren, b)
  {
    hide RenInstr, Dropped;
    if b == [] {
      assert a + b == a;
    } else {
      assert (a + b)[..|a + b| - 1] == a + b[..|b| - 1];
      NumConcat(ren, a, b[..|b| - 1]);
    }
  }

  lemma NumOne(ren: Renaming, i: Instruction)
    ensures NumBody(ren, [i]) == if Dropped(ren, i) then [] else [RenInstr(ren, i)]
  {
    NumEmpty(ren, [i][..0]);
  }

  lemma NumAround(ren: Renaming, body: seq<Instruction>, k: nat)
    requires k < |body|
    ensures NumBody(ren, body) ==
            NumBody(ren, body[..k]) + (if Dropped(ren, body[k]) then [] else [RenInstr(ren, body[k])]) +
              NumBody(ren, body[k + 1..])
  {
    hide NumBody, Dropped, RenInstr;
    assert body == body[..k] + ([body[k]] + body[k + 1..]);
    NumConcat(ren, body[..k], [body[k]] + body[k + 1..]);
    NumConcat(ren, [body[k]], body[k + 1..]);
    NumOne(ren, body[k]);
  }

  /** In its own block x is taken out as well. */
  lemma BodyDrop(ren: Renaming, x: Value, y: Value, body: seq<Instruction>, k: nat)
    requires Untouched(ren, x) && k < |body| && Defines(body[k], x)
    requires NoDef(body[..k], x) && NoDef(body[k + 1..], x)
    ensures var i := |NumBody(ren, body[..k])|; var r := S.SubstBody(x, y, NumBody(ren, body));
            i < |r| && NumBody(ren[x := y], body) == r[..i] + r[i + 1..]
  {
    hide NumBody, RenInstr;
    NumAround(ren, body, k);
    NumAround(ren[x := y], body, k);
    BodySubst(ren, x, y, body[..k]);
    BodySubst(ren, x, y, body[k + 1..]);
    S.SubstAround(x, y, NumBody(ren, body[..k]), RenInstr(ren, body[k]), NumBody(ren, body[k + 1..]));
  }

  lemma UnusedInstr(ren: Renaming, x: Value, y: Value, i: Instruction)
    requires Untouched(ren, x) && !UsedBy(i, x)
    ensures RenInstr(ren[x := y], i) == RenInstr(ren, i)
  {
    if i.Op? {
      assert RenInstr(ren[x := y], i).args == RenInstr(ren, i).args;
    }
  }

  /** Instructions that do not use x stay as they are. */
  lemma {:induction false} BodyKept(ren: Renaming, x: Value, y: Value, body: seq<Instruction>)
    requires Untouched(ren, x) && NoDef(body, x) && forall j :: 0 <= j < |body| ==> !UsedBy(body[j], x)
    ensures NumBody(ren[x := y], body) == NumBody(ren, body)
  {
    hide RenInstr, UsedBy;
    if body != [] {
      BodyKept(ren, x, y, body[..|body| - 1]);
      UnusedInstr(ren, x, y, body[|body| - 1]);
      assert !Defines(body[|body| - 1], x);
    }
  }

  /** The part that has not been reached yet is there instruction by instruction. */
  lemma {:induction false} NumRest(ren: Renaming, body: seq<Instruction>, k: nat)
    requires k <= |body| && forall j :: k <= j < |body| ==> !Dropped(ren, body[j])
    ensures var i := |NumBody(ren, body[..k])|; var r := NumBody(ren, body);
            |r| == i + |body| - k && r[..i] == NumBody(ren, body[..k]) &&
              (k < |body| ==> r[i] == RenInstr(ren, body[k]))
  {
    hide RenInstr, Dropped;
    if k == |body| {
      assert body[..k] == body;
    } else {
      var front := body[..|body| - 1];
      assert front[..k] == body[..k];
      NumRest(ren, front, k);
    }
  }

  // ---------------------------------------------------------------- how far the walk is

  /** The walk has passed the place where v gets its value; `todo` are the phis of block b
      it has not come to. */
  ghost predicate Seen(c: Ctx, b: nat, k: nat, todo: set<Value>, v: Value) {
    v.Instr? && v in c.defs &&
    (c.defs[v].0 < b || (c.defs[v].0 == b && if c.defs[v].1 == 0 then v !in todo else c.defs[v].1 <= k))
  }

  ghost predicate RenSeen(c: Ctx, ren: Renaming, b: nat, k: nat, todo: set<Value>) {
    forall x :: x in ren ==> Seen(c, b, k, todo, x) && Seen(c, b, k, todo, ren[x])
  }

  /** Mapped values stay and are what their keys compute. */
  ghost predicate MapOk(c: Ctx, o: Opcodes, ren: Renaming, vm: map<Key, Value>, b: nat, k: nat, todo: set<Value>) {
    forall key :: key in vm ==> vm[key] !in ren && Seen(c, b, k, todo, vm[key]) && EntryOk(c, o, key, vm[key], b, k)
  }

  ghost predicate WalkOk(c: Ctx, o: Opcodes, ren: Renaming, vm: map<Key, Value>, b: nat, k: nat, todo: set<Value>) {
    NumOk(c, o, ren) && UsesInOrder(c.f) && RenSeen(c, ren, b, k, todo) && MapOk(c, o, ren, vm, b, k, todo)
  }

  lemma UnseenUntouched(c: Ctx, ren: Renaming, b: nat, k: nat, todo: set<Value>, x: Value)
    requires RenSeen(c, ren, b, k, todo) && !Seen(c, b, k, todo, x)
    ensures Untouched(ren, x)
  {
  }

  /** Dropping x for a mapped value when the walk comes to it. */
  lemma DropOk(c: Ctx, o: Opcodes, ren: Renaming, vm: map<Key, Value>, b: nat, k: nat, todo: set<Value>, k': nat,
               todo': set<Value>, x: Value, key: Key)
    requires WalkOk(c, o, ren, vm, b, k, todo) && key in vm && x.Instr? && MayReplace(c, x, vm[key])
    requires !Seen(c, b, k, todo, x) && Seen(c, b, k', todo', x) && k <= k' && todo' <= todo
    requires DropsSilent(c, o, ren[x := vm[key]])
    requires forall key' :: key' in vm ==> EntryOk(c, o, key', vm[key'], b, k')
    ensures WalkOk(c, o, ren[x := vm[key]], vm, b, k', todo')
  {
    hide WellFormed, Suits, RenOk, DropsSilent, MayReplace, EntryOk;
    UnseenUntouched(c, ren, b, k, todo, x);
    RenDrop(c, ren, x, vm[key]);
  }

  lemma PhiIsNoInstr(c: Ctx, o: Opcodes, ren: Renaming, x: Value, y: Value)
    requires GoodDefs(c) && DropsSilent(c, o, ren) && x in c.f.phis
    ensures DropsSilent(c, o, ren[x := y])
  {
    hide Silent;
    forall b, k | 0 <= b < |c.f.blocks| && 0 <= k < |c.f.blocks[b].body| && Dropped(ren[x := y], c.f.blocks[b].body[k])
      ensures Silent(o, c.f.blocks[b].body[k])
    {
      assert Instr(c.f.blocks[b].body[k].id) != x;
      assert Dropped(ren, c.f.blocks[b].body[k]);
    }
  }

  lemma DroppedIsSilent(c: Ctx, o: Opcodes, ren: Renaming, b: nat, k: nat, y: Value)
    requires GoodDefs(c) && DropsSilent(c, o, ren) && b < |c.f.blocks| && k < Len(c, b)
    requires KeyOf(o, RenInstr(ren, c.f.blocks[b].body[k])).Some?
    ensures DropsSilent(c, o, ren[Instr(c.f.blocks[b].body[k].id) := y])
  {
    var x := Instr(c.f.blocks[b].body[k].id);
    var ren' := ren[x := y];
    KeyIsSilent(o, ren, c.f.blocks[b].body[k]);
    hide Silent, KeyOf, RenInstr;
    forall b', j | 0 <= b' < |c.f.blocks| && 0 <= j < |c.f.blocks[b'].body| && Dropped(ren', c.f.blocks[b'].body[j])
      ensures Silent(o, c.f.blocks[b'].body[j])
    {
      if Instr(c.f.blocks[b'].body[j].id) != x {
        assert Dropped(ren, c.f.blocks[b'].body[j]);
      }
    }
  }

  lemma KeyIsSilent(o: Opcodes, ren: Renaming, i: Instruction)
    requires KeyOf(o, RenInstr(ren, i)).Some?
    ensures Silent(o, i) && !i.Store?
  {
  }

  // ---------------------------------------------------------------- phis

  lemma UnseenPhi(c: Ctx, b: nat, todo: set<Value>, x: Value)
    requires GoodDefs(c) && x in c.f.phis && c.f.phis[x].block == b && x in todo
    ensures x.Instr? && !Seen(c, b, 0, todo, x) && Seen(c, b, 0, todo - {x}, x)
  {
    PhiName(c, x);
  }

  lemma PhiDropStep(c: Ctx, o: Opcodes, ren: Renaming, vm: map<Key, Value>, b: nat, todo: set<Value>, x: Value)
    requires WalkOk(c, o, ren, vm, b, 0, todo) && x in c.f.phis && c.f.phis[x].block == b && x in todo
    requires PhiKey(RenOps(ren, c.f.phis[x].ops)) in vm
    ensures WalkOk(c, o, ren[x := vm[PhiKey(RenOps(ren, c.f.phis[x].ops))]], vm, b, 0, todo - {x})
    ensures Untouched(ren, x)
  {
    hide GoodEdges, GoodDefs, GoodPhis, GoodUses, GoodSlots, Suits, RenOk, DropsSilent, MayReplace, EntryOk, Seen;
    var key := PhiKey(RenOps(ren, c.f.phis[x].ops));
    UnseenPhi(c, b, todo, x);
    UnseenUntouched(c, ren, b, 0, todo, x);
    PhiReplace(c, o, ren, x, b, vm[key]);
    PhiIsNoInstr(c, o, ren, x, vm[key]);
    DropOk(c, o, ren, vm, b, 0, todo, 0, todo - {x}, x, key);
  }

  lemma PhiKeepStep(c: Ctx, o: Opcodes, ren: Renaming, vm: map<Key, Value>, b: nat, todo: set<Value>, x: Value)
    requires WalkOk(c, o, ren, vm, b, 0, todo) && x in c.f.phis && c.f.phis[x].block == b && x in todo
    ensures WalkOk(c, o, ren, vm[PhiKey(RenOps(ren, c.f.phis[x].ops)) := x], b, 0, todo - {x})
  {
    hide GoodEdges, GoodDefs, GoodPhis, GoodUses, GoodSlots, Suits, RenOk, DropsSilent, EntryOk;
    UnseenPhi(c, b, todo, x);
    UnseenUntouched(c, ren, b, 0, todo, x);
    PhiEntry(c, o, ren, x, b);
  }

  /** The function after a phi has been dropped. */
  lemma PhiDropFunc(c: Ctx, ren: Renaming, x: Value, y: Value)
    requires GoodDefs(c) && Untouched(ren, x) && x in c.f.phis
    ensures NumBlocks(ren[x := y], c.f.blocks) == SubstBlocks(x, y, NumBlocks(ren, c.f.blocks))
    ensures NumPhis(ren[x := y], c.f.phis) == SubstPhis(x, y, NumPhis(ren, c.f.phis)) - {x}
  {
    var ren' := ren[x := y];
    forall b | 0 <= b < |c.f.blocks|
      ensures NumBlock(ren', c.f.blocks[b]) == S.SubstBlock(x, y, NumBlock(ren, c.f.blocks[b]))
    {
      assert NoDef(c.f.blocks[b].body, x);
      BodySubst(ren, x, y, c.f.blocks[b].body);
    }
    PhisSubst(c, ren, x, y);
  }

  lemma PhisSubst(c: Ctx, ren: Renaming, x: Value, y: Value)
    requires Untouched(ren, x)
    ensures NumPhis(ren[x := y], c.f.phis) == SubstPhis(x, y, NumPhis(ren, c.f.phis)) - {x}
  {
    hide RenOps, S.SubstOps;
    forall v | v in c.f.phis
      ensures RenOps(ren[x := y], c.f.phis[v].ops) == S.SubstOps(x, y, RenOps(ren, c.f.phis[v].ops))
    {
      OpsSubst(ren, x, y, c.f.phis[v].ops);
    }
  }

  /** No phi of the block has an operand that is computed in the block. */
  ghost predicate OutsideOps(c: Ctx, b: nat) {
    forall v, i ::
      v in c.f.phis && c.f.phis[v].block == b && 0 <= i < |c.f.phis[v].ops| && c.f.phis[v].ops[i].0 in c.defs ==>
      c.defs[c.f.phis[v].ops[i].0].0 != b
  }

  /** No two phis of the block have the same operands. */
  ghost predicate PhisDiffer(phis: map<Value, Phi>, b: nat) {
    forall v, w :: v in phis && w in phis && v != w && phis[v].block == b && phis[w].block == b ==>
      phis[v].ops != phis[w].ops
  }

  ghost predicate PhisTracked(phis: map<Value, Phi>, vm: map<Key, Value>, b: nat, todo: set<Value>) {
    forall v :: v in phis && phis[v].block == b && v !in todo ==>
      PhiKey(phis[v].ops) in vm && vm[PhiKey(phis[v].ops)] == v
  }

  /** Dropping a value of the block does not touch phis with operands from outside. */
  lemma OutsideKept(c: Ctx, ren: Renaming, b: nat, x: Value, y: Value, v: Value)
    requires OutsideOps(c, b) && Untouched(ren, x) && x in c.defs && c.defs[x].0 == b
    requires v in c.f.phis && c.f.phis[v].block == b
    ensures RenOps(ren[x := y], c.f.phis[v].ops) == RenOps(ren, c.f.phis[v].ops)
  {
    var ops := c.f.phis[v].ops;
    forall i | 0 <= i < |ops|
      ensures Ren(ren[x := y], ops[i].0) == Ren(ren, ops[i].0)
    {
      assert ops[i].0 != x;
    }
  }

  lemma DropTracked(c: Ctx, ren: Renaming, vm: map<Key, Value>, b: nat, todo: set<Value>, x: Value, y: Value)
    requires OutsideOps(c, b) && Untouched(ren, x) && GoodDefs(c) && x in c.f.phis && c.f.phis[x].block == b
    requires PhisTracked(NumPhis(ren, c.f.phis), vm, b, todo)
    ensures PhisTracked(NumPhis(ren[x := y], c.f.phis), vm, b, todo - {x})
  {
    hide OutsideOps, RenOps;
    forall v | v in NumPhis(ren[x := y], c.f.phis) && c.f.phis[v].block == b
      ensures RenOps(ren[x := y], c.f.phis[v].ops) == RenOps(ren, c.f.phis[v].ops)
    {
      OutsideKept(c, ren, b, x, y, v);
    }
  }

  lemma DropDiffer(c: Ctx, ren: Renaming, b: nat, x: Value, y: Value)
    requires OutsideOps(c, b) && Untouched(ren, x) && x in c.defs && c.defs[x].0 == b
    requires PhisDiffer(NumPhis(ren, c.f.phis), b)
    ensures PhisDiffer(NumPhis(ren[x := y], c.f.phis), b)
  {
    hide OutsideOps, RenOps;
    var phis, phis' := NumPhis(ren, c.f.phis), NumPhis(ren[x := y], c.f.phis);
    forall v | v in phis' && phis'[v].block == b
      ensures v in phis && phis'[v] == phis[v]
    {
      OutsideKept(c, ren, b, x, y, v);
    }
    hide NumPhis;
    forall v, w | v in phis' && w in phis' && v != w && phis'[v].block == b && phis'[w].block == b
      ensures phis'[v].ops != phis'[w].ops
    {
      assert phis'[v] == phis[v] && phis'[w] == phis[w];
    }
  }

  // ---------------------------------------------------------------- instructions

  lemma UnseenInstr(c: Ctx, b: nat, k: nat, j: nat)
    requires GoodDefs(c) && b < |c.f.blocks| && k <= j < Len(c, b) && !c.f.blocks[b].body[j].Store?
    ensures var x := Instr(c.f.blocks[b].body[j].id);
            x in c.defs && c.defs[x] == (b, j + 1) && !Seen(c, b, k, {}, x) && Seen(c, b, j + 1, {}, x)
  {
  }

  lemma EntriesNext(c: Ctx, o: Opcodes, vm: map<Key, Value>, b: nat, k: nat)
    requires GoodDefs(c) && Suits(c, o) && b < |c.f.blocks| && k < Len(c, b)
    requires forall key :: key in vm ==> EntryOk(c, o, key, vm[key], b, k)
    ensures forall key :: key in vm && (Clobbers(c.f.blocks[b].body[k]) ==> !key.LoadKey?) ==>
              EntryOk(c, o, key, vm[key], b, k + 1)
  {
    hide GoodDefs, Suits, EntryOk, Clobbers;
    forall key | key in vm && (Clobbers(c.f.blocks[b].body[k]) ==> !key.LoadKey?)
      ensures EntryOk(c, o, key, vm[key], b, k + 1)
    {
      EntryNext(c, o, key, vm[key], b, k);
    }
  }

  lemma InstrDropStep(c: Ctx, o: Opcodes, ren: Renaming, vm: map<Key, Value>, b: nat, k: nat, key: Key)
    requires WalkOk(c, o, ren, vm, b, k, {}) && b < |c.f.blocks| && k < Len(c, b)
    requires KeyOf(o, RenInstr(ren, c.f.blocks[b].body[k])) == Some(key) && key in vm
    ensures WalkOk(c, o, ren[Instr(c.f.blocks[b].body[k].id) := vm[key]], vm, b, k + 1, {})
    ensures Untouched(ren, Instr(c.f.blocks[b].body[k].id)) && !c.f.blocks[b].body[k].Store?
  {
    hide GoodEdges, GoodDefs, GoodPhis, GoodUses, GoodSlots, Suits, RenOk, DropsSilent, MayReplace, EntryOk, Seen,
      KeyOf, RenInstr, Clobbers;
    var i := c.f.blocks[b].body[k];
    var x := Instr(i.id);
    KeyIsSilent(o, ren, i);
    KeyIsResult(o, RenInstr(ren, i));
    SameKind(ren, i);
    UnseenInstr(c, b, k, k);
    UnseenUntouched(c, ren, b, k, {}, x);
    InstrReplace(c, o, ren, b, k, key, vm[key]);
    DroppedIsSilent(c, o, ren, b, k, vm[key]);
    EntriesNext(c, o, vm, b, k);
    DropOk(c, o, ren, vm, b, k, {}, k + 1, {}, x, key);
  }

  lemma SeenNext(c: Ctx, b: nat, k: nat, v: Value)
    requires Seen(c, b, k, {}, v)
    ensures Seen(c, b, k + 1, {}, v)
  {
  }

  lemma InstrKeepStep(c: Ctx, o: Opcodes, ren: Renaming, vm: map<Key, Value>, vm': map<Key, Value>, b: nat, k: nat)
    requires WalkOk(c, o, ren, vm, b, k, {}) && b < |c.f.blocks| && k < Len(c, b)
    requires var i' := RenInstr(ren, c.f.blocks[b].body[k]);
             forall key :: key in vm' ==>
               (key in vm && vm'[key] == vm[key] && (Clobbers(i') ==> !key.LoadKey?)) ||
                 (KeyOf(o, i') == Some(key) && vm'[key] == Instr(i'.id))
    ensures WalkOk(c, o, ren, vm', b, k + 1, {})
  {
    hide GoodEdges, GoodDefs, GoodPhis, GoodUses, GoodSlots, Suits, RenOk, DropsSilent, EntryOk, Seen, KeyOf,
      RenInstr, Clobbers;
    var i := c.f.blocks[b].body[k];
    var k' := k + 1;
    SameKind(ren, i);
    EntriesNext(c, o, vm, b, k);
    forall x | x in ren
      ensures Seen(c, b, k', {}, x) && Seen(c, b, k', {}, ren[x])
    {
      SeenNext(c, b, k, x);
      SeenNext(c, b, k, ren[x]);
    }
    forall key | key in vm'
      ensures vm'[key] !in ren && Seen(c, b, k', {}, vm'[key]) && EntryOk(c, o, key, vm'[key], b, k')
    {
      if key in vm && vm'[key] == vm[key] && (Clobbers(RenInstr(ren, i)) ==> !key.LoadKey?) {
        SeenNext(c, b, k, vm[key]);
      } else {
        KeyIsSilent(o, ren, i);
        UnseenInstr(c, b, k, k);
        UnseenUntouched(c, ren, b, k, {}, Instr(i.id));
        InstrEntry(c, o, ren, b, k, key);
      }
    }
  }

  lemma OneDef(c: Ctx, b: nat, k: nat)
    requires GoodDefs(c) && b < |c.f.blocks| && k < Len(c, b) && !c.f.blocks[b].body[k].Store?
    ensures var x := Instr(c.f.blocks[b].body[k].id); var body := c.f.blocks[b].body;
            && x !in c.f.phis && NoDef(body[..k], x) && NoDef(body[k + 1..], x)
            && forall b' :: 0 <= b' < |c.f.blocks| && b' != b ==> NoDef(c.f.blocks[b'].body, x)
  {
    assert c.defs[Instr(c.f.blocks[b].body[k].id)] == (b, k + 1);
  }

  /** The function after an instruction has been dropped. */
  lemma InstrDropFunc(c: Ctx, ren: Renaming, b: nat, k: nat, y: Value)
    requires GoodDefs(c) && b < |c.f.blocks| && k < Len(c, b) && !c.f.blocks[b].body[k].Store?
    requires Untouched(ren, Instr(c.f.blocks[b].body[k].id))
    ensures var x := Instr(c.f.blocks[b].body[k].id);
            var blocks := SubstBlocks(x, y, NumBlocks(ren, c.f.blocks));
              var i := |NumBody(ren, c.f.blocks[b].body[..k])|;
            && i < |blocks[b].body|
            && NumBlocks(ren[x := y], c.f.blocks) ==
              blocks[b := blocks[b].(body := blocks[b].body[..i] + blocks[b].body[i + 1..])]
            && NumPhis(ren[x := y], c.f.phis) == SubstPhis(x, y, NumPhis(ren, c.f.phis))
  {
    hide GoodDefs, RenOps, NumBody, NoDef, Untouched, S.SubstOps, S.SubstBody, Ren;
    var x, body := Instr(c.f.blocks[b].body[k].id), c.f.blocks[b].body;
    var ren' := ren[x := y];
    OneDef(c, b, k);
    BodyDrop(ren, x, y, body, k);
    TermSubst(ren, x, y, c.f.blocks[b].term);
    forall b' | 0 <= b' < |c.f.blocks| && b' != b
      ensures NumBlock(ren', c.f.blocks[b']) == S.SubstBlock(x, y, NumBlock(ren, c.f.blocks[b']))
    {
      BodySubst(ren, x, y, c.f.blocks[b'].body);
      TermSubst(ren, x, y, c.f.blocks[b'].term);
    }
    PhisSubst(c, ren, x, y);
    var phis := SubstPhis(x, y, NumPhis(ren, c.f.phis));
    assert x !in phis;
    assert phis - {x} == phis;
  }

  lemma TermSubst(ren: Renaming, x: Value, y: Value, t: Terminator)
    requires Untouched(ren, x)
    ensures RenTerm(ren[x := y], t) == S.SubstTerm(x, y, RenTerm(ren, t))
  {
  }

  /** No result is used above its definition in the same block. */
  ghost predicate BodyInOrder(body: seq<Instruction>) {
    forall j, k :: 0 <= j <= k < |body| && !body[k].Store? ==> !UsedBy(body[j], Instr(body[k].id))
  }

  ghost predicate UsesInOrder(f: Func) {
    forall b :: 0 <= b < |f.blocks| ==> BodyInOrder(f.blocks[b].body)
  }

  /** In a reachable block that follows from dominance. */
  lemma ReachableInOrder(c: Ctx)
    requires WellFormed(c) && AllReachable(c.f)
    ensures UsesInOrder(c.f)
  {
    hide GoodDefs, GoodPhis, GoodUses, GoodSlots, GoodEdges, UsedBy;
    forall b, j, k |
      0 <= b < |c.f.blocks| && 0 <= j <= k < |c.f.blocks[b].body| && !c.f.blocks[b].body[k].Store?
      ensures !UsedBy(c.f.blocks[b].body[j], Instr(c.f.blocks[b].body[k].id))
    {
      NotUsedAbove(c, b, k, j);
    }
  }

  lemma NotUsedAbove(c: Ctx, b: nat, k: nat, j: nat)
    requires GoodEdges(c) && GoodDefs(c) && GoodUses(c) && Reachable(c.f, b)
    requires b < |c.f.blocks| && j <= k < Len(c, b) && !c.f.blocks[b].body[k].Store?
    ensures !UsedBy(c.f.blocks[b].body[j], Instr(c.f.blocks[b].body[k].id))
  {
    var x := Instr(c.f.blocks[b].body[k].id);
    assert c.defs[x] == (b, k + 1);
    hide GoodDefs, UsedBy;
    if UsedBy(c.f.blocks[b].body[j], x) {
      InstrUse(c, b, j, x);
      var path :| PathTo(c.f, path, b);
      AvailBefore(c, x, b, j, path);
    }
  }

  /** What has been walked over is not renamed by the drop. */
  lemma FrontKept(c: Ctx, ren: Renaming, b: nat, k: nat, y: Value)
    requires WellFormed(c) && UsesInOrder(c.f) && b < |c.f.blocks| && k < Len(c, b) && !c.f.blocks[b].body[k].Store?
    requires Untouched(ren, Instr(c.f.blocks[b].body[k].id))
    ensures var ren' := ren[Instr(c.f.blocks[b].body[k].id) := y];
            NumBody(ren', c.f.blocks[b].body[..k + 1]) == NumBody(ren, c.f.blocks[b].body[..k])
  {
    var body := c.f.blocks[b].body;
    var x := Instr(body[k].id);
    assert NoDef(body[..k], x);
    hide GoodDefs, GoodPhis, GoodUses, GoodSlots, GoodEdges, UsedBy, NumBody;
    forall j | 0 <= j < k
      ensures !UsedBy(body[..k][j], x)
    {
      assert BodyInOrder(c.f.blocks[b].body);
    }
    BodyKept(ren, x, y, body[..k]);
    NumStep(ren[x := y], body, k + 1);
  }

  lemma RestThere(c: Ctx, o: Opcodes, ren: Renaming, vm: map<Key, Value>, b: nat, k: nat)
    requires WalkOk(c, o, ren, vm, b, k, {}) && b < |c.f.blocks| && k <= Len(c, b)
    ensures var body := c.f.blocks[b].body; var i := |NumBody(ren, body[..k])|; var r := NumBody(ren, body);
            |r| == i + |body| - k && r[..i] == NumBody(ren, body[..k]) &&
              (k < |body| ==> r[i] == RenInstr(ren, body[k]))
  {
    hide GoodEdges, GoodDefs, GoodPhis, GoodUses, GoodSlots, Suits, RenOk, DropsSilent, MapOk, Seen, NumBody, RenInstr;
    var body := c.f.blocks[b].body;
    forall j | k <= j < |body|
      ensures !Dropped(ren, body[j])
    {
      if !body[j].Store? {
        UnseenInstr(c, b, k, j);
      }
    }
    NumRest(ren, body, k);
  }

  // ---------------------------------------------------------------- nothing is computed twice

  ghost predicate ClobberedAfter(body: seq<Instruction>, i: nat) {
    exists j :: i < j < |body| && Clobbers(body[j])
  }

  /** The key of an earlier instruction is in the map, unless it is a load and a store or
      call came after it. */
  ghost predicate Tracked(o: Opcodes, body: seq<Instruction>, vm: map<Key, Value>) {
    forall i: nat :: i < |body| && KeyOf(o, body[i]).Some? ==>
      KeyOf(o, body[i]).value in vm || (KeyOf(o, body[i]).value.LoadKey? && ClobberedAfter(body, i))
  }

  /** Two instructions with the same key are loads with a store or call between them. */
  ghost predicate NoRepeats(o: Opcodes, body: seq<Instruction>) {
    forall i: nat, j: nat :: i < j < |body| && KeyOf(o, body[i]).Some? && KeyOf(o, body[i]) == KeyOf(o, body[j]) ==>
      KeyOf(o, body[i]).value.LoadKey? && ClobberedAfter(body[..j], i)
  }

  lemma ClobberedStays(body: seq<Instruction>, instr: Instruction, i: nat)
    requires ClobberedAfter(body, i) || (i < |body| && Clobbers(instr))
    ensures ClobberedAfter(body + [instr], i)
  {
    var body' := body + [instr];
    if ClobberedAfter(body, i) {
      var j :| i < j < |body| && Clobbers(body[j]);
      assert Clobbers(body'[j]);
    } else {
      assert Clobbers(body'[|body|]);
    }
  }

  /** One more instruction, whose key is new. */
  lemma TrackedNext(o: Opcodes, body: seq<Instruction>, instr: Instruction, vm: map<Key, Value>, vm': map<Key, Value>)
    requires Tracked(o, body, vm) && NoRepeats(o, body)
    requires KeyOf(o, instr).Some? ==> KeyOf(o, instr).value !in vm && KeyOf(o, instr).value in vm'
    requires forall key :: key in vm ==> key in vm' || (key.LoadKey? && Clobbers(instr))
    ensures Tracked(o, body + [instr], vm') && NoRepeats(o, body + [instr])
  {
    hide KeyOf, Clobbers, ClobberedAfter;
    var body' := body + [instr];
    forall i: nat | i < |body'| && KeyOf(o, body'[i]).Some?
      ensures KeyOf(o, body'[i]).value in vm' || (KeyOf(o, body'[i]).value.LoadKey? && ClobberedAfter(body', i))
    {
      if i < |body| {
        if ClobberedAfter(body, i) || Clobbers(instr) {
          ClobberedStays(body, instr, i);
        }
      }
    }
    forall i: nat, j: nat | i < j < |body'| && KeyOf(o, body'[i]).Some? && KeyOf(o, body'[i]) == KeyOf(o, body'[j])
      ensures KeyOf(o, body'[i]).value.LoadKey? && ClobberedAfter(body'[..j], i)
    {
      assert body'[..j] == body[..j];
      assert body[..|body|] == body;
    }
  }

  lemma ClobberHasNoKey(o: Opcodes, i: Instruction)
    ensures Clobbers(i) ==> KeyOf(o, i).None?
  {
  }

  /** What is replaced when the blocks up to b have been numbered. */
  ghost function Until(c: Ctx, ren: Renaming, b: nat): Renaming {
    map x | x in ren && x in c.defs && c.defs[x].0 <= b :: ren[x]
  }

  /** At that time nothing in block b is computed twice. */
  ghost predicate BlockDone(c: Ctx, o: Opcodes, ren: Renaming, b: nat)
    requires b < |c.f.blocks|
  {
    && NoRepeats(o, NumBody(Until(c, ren, b), c.f.blocks[b].body))
    && (OutsideOps(c, b) ==> PhisDiffer(NumPhis(Until(c, ren, b), c.f.phis), b))
  }

  /** Only results of block b are dropped. */
  ghost predicate Grows(c: Ctx, was: Renaming, ren: Renaming, b: nat) {
    && (forall x :: x in was ==> x in ren && ren[x] == was[x])
    && (forall x :: x in ren && x !in was ==> x in c.defs && c.defs[x].0 == b)
  }

  lemma UntilKept(c: Ctx, was: Renaming, ren: Renaming, b: nat, b': nat)
    requires Grows(c, was, ren, b) && b' < b
    ensures Until(c, ren, b') == Until(c, was, b')
  {
  }

  lemma UntilNow(c: Ctx, ren: Renaming, b: nat, k: nat)
    requires RenSeen(c, ren, b, k, {})
    ensures Until(c, ren, b) == ren
  {
    forall x | x in ren
      ensures x in c.defs && c.defs[x].0 <= b
    {
      assert Seen(c, b, k, {}, x);
    }
  }

  lemma NextBlock(c: Ctx, o: Opcodes, ren: Renaming, vm: map<Key, Value>, b: nat, k: nat, todo: set<Value>)
    requires WalkOk(c, o, ren, vm, b, k, {})
    ensures WalkOk(c, o, ren, map[], b + 1, 0, todo)
  {
    hide NumOk, EntryOk;
    var b' := b + 1;
    forall x | x in ren
      ensures Seen(c, b', 0, todo, x) && Seen(c, b', 0, todo, ren[x])
    {
      assert Seen(c, b, k, {}, x) && Seen(c, b, k, {}, ren[x]);
    }
  }

  /** Before instruction k of block b, its phis done. */
  ghost predicate BodyWalk(c: Ctx, o: Opcodes, ren: Renaming, vm: map<Key, Value>, b: nat, k: nat)
    requires b < |c.f.blocks| && k <= Len(c, b)
  {
    && WalkOk(c, o, ren, vm, b, k, {})
    && Tracked(o, NumBody(ren, c.f.blocks[b].body[..k]), vm)
    && NoRepeats(o, NumBody(ren, c.f.blocks[b].body[..k]))
    && (OutsideOps(c, b) ==> PhisDiffer(NumPhis(ren, c.f.phis), b))
  }

  lemma BodyStart(c: Ctx, o: Opcodes, ren: Renaming, vm: map<Key, Value>, b: nat)
    requires b < |c.f.blocks| && WalkOk(c, o, ren, vm, b, 0, {})
    requires OutsideOps(c, b) ==> PhisTracked(NumPhis(ren, c.f.phis), vm, b, {})
    ensures BodyWalk(c, o, ren, vm, b, 0)
  {
    hide WalkOk, NumPhis, OutsideOps;
    NumEmpty(ren, c.f.blocks[b].body[..0]);
  }

  lemma DropWalk(c: Ctx, o: Opcodes, ren: Renaming, vm: map<Key, Value>, b: nat, k: nat, key: Key)
    requires b < |c.f.blocks| && k < Len(c, b) && BodyWalk(c, o, ren, vm, b, k)
    requires KeyOf(o, RenInstr(ren, c.f.blocks[b].body[k])) == Some(key) && key in vm
    ensures BodyWalk(c, o, ren[Instr(c.f.blocks[b].body[k].id) := vm[key]], vm, b, k + 1)
    ensures Grows(c, ren, ren[Instr(c.f.blocks[b].body[k].id) := vm[key]], b)
  {
    hide GoodEdges, GoodPhis, GoodUses, GoodSlots, GoodDefs, Suits, RenOk, DropsSilent, RenSeen, MapOk, KeyOf,
      RenInstr, Tracked, NoRepeats, NumPhis, NumBody, OutsideOps, PhisDiffer;
    var x := Instr(c.f.blocks[b].body[k].id);
    InstrDropStep(c, o, ren, vm, b, k, key);
    UnseenInstr(c, b, k, k);
    FrontKept(c, ren, b, k, vm[key]);
    if OutsideOps(c, b) {
      DropDiffer(c, ren, b, x, vm[key]);
    }
  }

  lemma KeepWalk(c: Ctx, o: Opcodes, ren: Renaming, vm: map<Key, Value>, vm': map<Key, Value>, b: nat, k: nat)
    requires b < |c.f.blocks| && k < Len(c, b) && BodyWalk(c, o, ren, vm, b, k)
    requires var i' := RenInstr(ren, c.f.blocks[b].body[k]);
             && (forall key :: key in vm' ==>
                  (key in vm && vm'[key] == vm[key] && (Clobbers(i') ==> !key.LoadKey?)) ||
                    (KeyOf(o, i') == Some(key) && vm'[key] == Instr(i'.id)))
             && (KeyOf(o, i').Some? ==> KeyOf(o, i').value !in vm && KeyOf(o, i').value in vm')
             && (forall key :: key in vm ==> key in vm' || (key.LoadKey? && Clobbers(i')))
    ensures BodyWalk(c, o, ren, vm', b, k + 1)
  {
    hide NumOk, RenSeen, MapOk, KeyOf, RenInstr, Tracked, NoRepeats, NumPhis, NumBody, OutsideOps, PhisDiffer,
      Clobbers, Dropped;
    InstrKeepStep(c, o, ren, vm, vm', b, k);
    TrackedNext(o, NumBody(ren, c.f.blocks[b].body[..k]), RenInstr(ren, c.f.blocks[b].body[k]), vm, vm');
    NumStep(ren, c.f.blocks[b].body, k + 1);
    StaysHere(c, o, ren, vm, b, k);
  }

  lemma StaysHere(c: Ctx, o: Opcodes, ren: Renaming, vm: map<Key, Value>, b: nat, k: nat)
    requires WalkOk(c, o, ren, vm, b, k, {}) && b < |c.f.blocks| && k < Len(c, b)
    ensures !Dropped(ren, c.f.blocks[b].body[k])
  {
    hide GoodEdges, GoodPhis, GoodUses, GoodSlots, Suits, RenOk, DropsSilent, MapOk, Seen;
    if !c.f.blocks[b].body[k].Store? {
      UnseenInstr(c, b, k, k);
    }
  }

  lemma BodyDone(c: Ctx, o: Opcodes, ren: Renaming, vm: map<Key, Value>, b: nat)
    requires b < |c.f.blocks| && BodyWalk(c, o, ren, vm, b, Len(c, b))
    ensures BlockDone(c, o, ren, b)
  {
    hide NumOk, MapOk, Tracked, NoRepeats, NumPhis, NumBody, OutsideOps, PhisDiffer, RenSeen;
    UntilNow(c, ren, b, Len(c, b));
    assert c.f.blocks[b].body[..Len(c, b)] == c.f.blocks[b].body;
  }
}
