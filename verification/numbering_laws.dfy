/** What it means that nothing in a finished block is computed twice, said of instructions
    and not of their keys. */
module NumberingLaws {
  import opened Options
  import opened IR
  import opened SsaPaths
  import opened ValueNumbering
  import opened NumberingRuns
  import opened NumberingSteps

  /** Two operations of a finished block with the same numbered opcode differ in their
      operands, also in reverse order if the opcode commutes. */
  lemma OperationsDiffer(c: Ctx, o: Opcodes, ren: Renaming, b: nat, i: nat, j: nat, n: nat)
    requires b < |c.f.blocks| && BlockDone(c, o, ren, b) && n in o.numbered
    requires i < j < |NumBody(Until(c, ren, b), c.f.blocks[b].body)|
    requires var body := NumBody(Until(c, ren, b), c.f.blocks[b].body);
             body[i].Op? && body[j].Op? && body[i].code == Other(n) && body[j].code == Other(n)
    ensures var body := NumBody(Until(c, ren, b), c.f.blocks[b].body);
            && body[i].args != body[j].args
            && (n in o.commutative && |body[i].args| == 2 && o.rank(body[i].args[0]) != o.rank(body[i].args[1]) ==>
                  body[j].args != [body[i].args[1], body[i].args[0]])
  {
    hide OutsideOps, PhisDiffer, NumBody, Until;
    var body := NumBody(Until(c, ren, b), c.f.blocks[b].body);
    assert NoRepeats(o, body);
    assert KeyOf(o, body[i]).Some? && KeyOf(o, body[j]).Some?;
    if n in o.commutative && |body[i].args| == 2 && o.rank(body[i].args[0]) != o.rank(body[i].args[1]) {
      ReversedKey(o, body[i], Op(body[j].id, Other(n), [body[i].args[1], body[i].args[0]]), n);
    }
  }

  /** The order of the operands of a commutative operation does not matter for its key. */
  lemma ReversedKey(o: Opcodes, i: Instruction, j: Instruction, n: nat)
    requires n in o.numbered && n in o.commutative && i.Op? && j.Op? && i.code == j.code == Other(n)
    requires |i.args| == 2 && j.args == [i.args[1], i.args[0]] && o.rank(i.args[0]) != o.rank(i.args[1])
    ensures KeyOf(o, i) == KeyOf(o, j)
  {
    assert i.args == [i.args[0], i.args[1]];
  }

  /** Two loads from the same address have a store or a call between them. */
  lemma LoadsDiffer(c: Ctx, o: Opcodes, ren: Renaming, b: nat, i: nat, j: nat)
    requires b < |c.f.blocks| && BlockDone(c, o, ren, b)
    requires i < j < |NumBody(Until(c, ren, b), c.f.blocks[b].body)|
    requires var body := NumBody(Until(c, ren, b), c.f.blocks[b].body);
             body[i].Load? && body[j].Load? && body[i].addr == body[j].addr
    ensures var body := NumBody(Until(c, ren, b), c.f.blocks[b].body);
            exists k :: i < k < j && (body[k].Store? || (body[k].Op? && body[k].code.Call?))
  {
    hide OutsideOps, PhisDiffer, NumBody, Until;
    var body := NumBody(Until(c, ren, b), c.f.blocks[b].body);
    assert NoRepeats(o, body);
    assert KeyOf(o, body[i]) == Some(LoadKey(body[i].addr)) == KeyOf(o, body[j]);
  }

  /** If no phi of the block had an operand computed in the block, its phis differ. */
  lemma PhisDoDiffer(c: Ctx, o: Opcodes, ren: Renaming, b: nat, v: Value, w: Value)
    requires b < |c.f.blocks| && BlockDone(c, o, ren, b) && v != w
    requires forall u, i ::
               u in c.f.phis && c.f.phis[u].block == b && 0 <= i < |c.f.phis[u].ops| &&
               c.f.phis[u].ops[i].0 in c.defs ==>
                 c.defs[c.f.phis[u].ops[i].0].0 != b
    requires v in NumPhis(Until(c, ren, b), c.f.phis) && w in NumPhis(Until(c, ren, b), c.f.phis)
    requires NumPhis(Until(c, ren, b), c.f.phis)[v].block == NumPhis(Until(c, ren, b), c.f.phis)[w].block == b
    ensures NumPhis(Until(c, ren, b), c.f.phis)[v].ops != NumPhis(Until(c, ren, b), c.f.phis)[w].ops
  {
    hide NumPhis, Until, NumBody, NoRepeats;
    assert OutsideOps(c, b);
  }

  /** Only numbered operations, loads and phis are dropped, and while block b is numbered
      only those of b. */
  lemma StaysUnlessNumbered(c: Ctx, o: Opcodes, ren: Renaming, b: nat, k: nat)
    requires NumOk(c, o, ren) && b < |c.f.blocks| && k < Len(c, b)
    requires var i := c.f.blocks[b].body[k]; !i.Load? && !(i.Op? && i.code.Other? && i.code.n in o.numbered)
    ensures RenInstr(ren, c.f.blocks[b].body[k]) in NumBody(ren, c.f.blocks[b].body)
  {
    hide WellFormed, Suits, RenOk, RenInstr, NumBody;
    var body := c.f.blocks[b].body;
    assert !Dropped(ren, body[k]);
    KeptIsThere(ren, body, k);
  }

  lemma {:induction false} KeptIsThere(ren: Renaming, body: seq<Instruction>, k: nat)
    requires k < |body| && !Dropped(ren, body[k])
    ensures RenInstr(ren, body[k]) in NumBody(ren, body)
    decreases |body|
  {
    hide RenInstr, Dropped;
    var last := |body| - 1;
    if k < last {
      KeptIsThere(ren, body[..last], k);
    }
  }
}
