/** The tables of the SSA pass as one value, the invariant that ties them to the
    function before promotion, and how each change to the tables keeps it. */
module SsaState {
  import opened IR
  import opened Cfg
  import opened SsaPaths
  import opened SsaFacts

  // ---------------------------------------------------------------- replacing uses

  /** The replacements made so far, oldest first. */
  type History = seq<(Value, Value)>

  function Subst(x: Value, y: Value, v: Value): Value {
    if v == x then y else v
  }

  function SubstInstr(x: Value, y: Value, i: Instruction): Instruction {
    match i
    case Alloca(_) => i
    case Load(id, addr) => Load(id, Subst(x, y, addr))
    case Store(id, addr, val) => Store(id, Subst(x, y, addr), Subst(x, y, val))
    case Op(id, code, args) => Op(id, code, seq(|args|, j requires 0 <= j < |args| => Subst(x, y, args[j])))
  }

  function SubstTerm(x: Value, y: Value, t: Terminator): Terminator {
    match t
    case Ret(v) => Ret(Subst(x, y, v))
    case Branch(_) => t
    case BranchIf(v, b0, b1) => BranchIf(Subst(x, y, v), b0, b1)
  }

  function SubstBody(x: Value, y: Value, body: seq<Instruction>): (r: seq<Instruction>)
    ensures |r| == |body|
  {
    seq(|body|, j requires 0 <= j < |body| => SubstInstr(x, y, body[j]))
  }

  function SubstBlock(x: Value, y: Value, b: Block): Block {
    Block(SubstBody(x, y, b.body), SubstTerm(x, y, b.term))
  }

  function SubstOps(x: Value, y: Value, ops: seq<(Value, nat)>): (r: seq<(Value, nat)>)
    ensures |r| == |ops|
  {
    seq(|ops|, j requires 0 <= j < |ops| => (Subst(x, y, ops[j].0), ops[j].1))
  }

  function Chase(hist: History, v: Value): Value {
    if hist == [] then v
    else
      var last := hist[|hist| - 1];
      Subst(last.0, last.1, Chase(hist[..|hist| - 1], v))
  }

  function ChaseInstr(hist: History, i: Instruction): Instruction {
    if hist == [] then i
    else
      var last := hist[|hist| - 1];
      SubstInstr(last.0, last.1, ChaseInstr(hist[..|hist| - 1], i))
  }

  function ChaseTerm(hist: History, t: Terminator): Terminator {
    if hist == [] then t
    else
      var last := hist[|hist| - 1];
      SubstTerm(last.0, last.1, ChaseTerm(hist[..|hist| - 1], t))
  }

  ghost predicate Replaced(hist: History, v: Value) {
    exists i :: 0 <= i < |hist| && hist[i].0 == v
  }

  ghost predicate Gone(hist: History, i: Instruction) {
    i.Load? && Replaced(hist, Instr(i.id))
  }

  /** A block body after the replacements: replaced loads are gone, operands renamed. */
  ghost function Rewrite(hist: History, body: seq<Instruction>): seq<Instruction> {
    if body == [] then []
    else
      var last := body[|body| - 1];
      Rewrite(hist, body[..|body| - 1]) + if Gone(hist, last) then [] else [ChaseInstr(hist, last)]
  }

  lemma {:induction false} RewriteConcat(hist: History, a: seq<Instruction>, b: seq<Instruction>)
    ensures Rewrite(hist, a + b) == Rewrite(hist, a) + Rewrite(hist, b)
  {
    if b == [] {
      assert a + b == a;
    } else {
      var last := b[|b| - 1];
      assert (a + b)[..|a + b| - 1] == a + b[..|b| - 1];
      RewriteConcat(hist, a, b[..|b| - 1]);
    }
  }

  lemma ReplacedAppend(hist: History, x: Value, y: Value, v: Value)
    ensures Replaced(hist + [(x, y)], v) <==> v == x || Replaced(hist, v)
  {
    var h := hist + [(x, y)];
    assert h[|hist|] == (x, y);
    if i :| 0 <= i < |hist| && hist[i].0 == v {
      assert h[i] == hist[i];
    }
  }

  lemma ChaseAppend(hist: History, x: Value, y: Value)
    ensures forall v :: Chase(hist + [(x, y)], v) == Subst(x, y, Chase(hist, v))
    ensures forall i :: ChaseInstr(hist + [(x, y)], i) == SubstInstr(x, y, ChaseInstr(hist, i))
    ensures forall t :: ChaseTerm(hist + [(x, y)], t) == SubstTerm(x, y, ChaseTerm(hist, t))
  {
    assert (hist + [(x, y)])[..|hist|] == hist;
  }

  /** One more replacement of something that is not a load of this body renames its
      operands and removes nothing. */
  lemma {:induction false} RewriteSubst(hist: History, x: Value, y: Value, body: seq<Instruction>)
    requires forall i :: 0 <= i < |body| && body[i].Load? ==> Instr(body[i].id) != x
    ensures Rewrite(hist + [(x, y)], body) == SubstBody(x, y, Rewrite(hist, body))
  {
    if body != [] {
      var last := body[|body| - 1];
      RewriteSubst(hist, x, y, body[..|body| - 1]);
      ChaseAppend(hist, x, y);
      if last.Load? {
        ReplacedAppend(hist, x, y, Instr(last.id));
      }
    }
  }

  lemma RewriteOne(hist: History, i: Instruction)
    ensures Rewrite(hist, [i]) == if Gone(hist, i) then [] else [ChaseInstr(hist, i)]
  {
    assert [i][..0] == [];
    assert Rewrite(hist, [i][..0]) == [];
  }

  lemma RewriteAround(hist: History, body: seq<Instruction>, k: nat)
    requires k < |body|
    ensures Rewrite(hist, body) ==
            Rewrite(hist, body[..k]) + (if Gone(hist, body[k]) then [] else [ChaseInstr(hist, body[k])]) +
              Rewrite(hist, body[k + 1..])
  {
    hide Rewrite, Gone, ChaseInstr;
    assert body == body[..k] + ([body[k]] + body[k + 1..]);
    RewriteConcat(hist, body[..k], [body[k]] + body[k + 1..]);
    RewriteConcat(hist, [body[k]], body[k + 1..]);
    RewriteOne(hist, body[k]);
  }

  /** Replacing the load at position k: its uses are renamed and it disappears. */
  lemma RewriteLoad(hist: History, y: Value, body: seq<Instruction>, k: nat)
    requires k < |body| && body[k].Load?
    requires !Replaced(hist, Instr(body[k].id))
    requires forall i :: 0 <= i < |body| && i != k && body[i].Load? ==> body[i].id != body[k].id
    ensures var x := Instr(body[k].id); var i := |Rewrite(hist, body[..k])|;
            var r := SubstBody(x, y, Rewrite(hist, body));
            i < |r| && Rewrite(hist + [(x, y)], body) == r[..i] + r[i + 1..]
  {
    var x := Instr(body[k].id);
    var A, B := body[..k], body[k + 1..];
    RewriteAround(hist, body, k);
    RewriteAround(hist + [(x, y)], body, k);
    RewriteSubst(hist, x, y, A);
    RewriteSubst(hist, x, y, B);
    ReplacedAppend(hist, x, y, x);
    SubstAround(x, y, Rewrite(hist, A), ChaseInstr(hist, body[k]), Rewrite(hist, B));
  }

  lemma SubstAround(x: Value, y: Value, a: seq<Instruction>, i: Instruction, b: seq<Instruction>)
    ensures var r := SubstBody(x, y, a + [i] + b);
            r[..|a|] == SubstBody(x, y, a) && r[|a| + 1..] == SubstBody(x, y, b)
  {
  }

  // ---------------------------------------------------------------- the tables

  datatype Pending = Pending(block: nat, slot: nat, phi: Value)

  datatype Pass = Pass(
    blocks: seq<Block>,
    phis: map<Value, Phi>,
    defMap: map<(nat, nat), Value>,
    replacement: map<Value, Value>,
    incomplete: seq<Pending>,
    sealed: set<nat>,
    filled: set<nat>,
    next: nat)

  /** Where the pass is: before instruction k of a block. */
  datatype Cursor = Cursor(block: nat, k: nat)

  ghost function Point(c: Ctx, s: Pass, cur: Cursor, b: nat): nat {
    if b in s.filled then Len(c, b) else cur.k
  }

  /** Blocks in which reads are possible: those walked completely and the current one. */
  ghost predicate Readable(c: Ctx, s: Pass, cur: Cursor, b: nat) {
    b < |c.f.blocks| && (b in s.filled || b == cur.block)
  }

  ghost predicate Processed(s: Pass, cur: Cursor, b: nat, j: nat) {
    b in s.filled || (b == cur.block && j < cur.k)
  }

  ghost predicate SlotLoad(c: Ctx, b: nat, j: nat) {
    j < Len(c, b) && c.f.blocks[b].body[j].Load? && IsSlot(c.f.blocks[b].body[j].addr, c.P)
  }

  ghost predicate LoadOf(c: Ctx, s: Pass, cur: Cursor, v: Value, b: nat, j: nat) {
    SlotLoad(c, b, j) && v == Instr(c.f.blocks[b].body[j].id) && Processed(s, cur, b, j)
  }

  /** A value the tables may mention: it is in the function or was replaced. */
  ghost predicate Known(c: Ctx, s: Pass, v: Value) {
    && !IsSlot(v, c.P)
    && (v.NewPhi? ==> v.serial < s.next && v.block < |c.f.blocks| && v.slot in c.P)
    && (v.NewPhi? || v in c.f.phis ==> v in s.phis || v in s.replacement)
  }

  ghost predicate Live(c: Ctx, s: Pass, v: Value) {
    Known(c, s, v) && v !in s.replacement
  }

  /** Replacements form a forest with live roots: a value is replaced once, by one that
      is not replaced yet, and equal to it. */
  ghost predicate HistMap(s: Pass, hist: History) {
    && (forall v :: v in s.replacement <==> Replaced(hist, v))
    && (forall i :: 0 <= i < |hist| ==> hist[i].0 in s.replacement && s.replacement[hist[i].0] == hist[i].1)
    && (forall i, j :: 0 <= i < j < |hist| ==> hist[i].0 != hist[j].0)
    && (forall i, j :: 0 <= j <= i < |hist| ==> hist[j].0 != hist[i].1)
  }

  ghost predicate HistLinks(c: Ctx, s: Pass, cur: Cursor, hist: History) {
    forall i :: 0 <= i < |hist| ==> LinkOk(c, s, cur, hist[i].0, hist[i].1)
  }

  /** The loads walked so far have been replaced. */
  ghost predicate LoadsGone(c: Ctx, s: Pass, cur: Cursor, hist: History) {
    forall b: nat, j: nat :: SlotLoad(c, b, j) && Processed(s, cur, b, j) ==>
      Replaced(hist, Instr(c.f.blocks[b].body[j].id))
  }

  ghost predicate HistOk(c: Ctx, s: Pass, cur: Cursor, hist: History) {
    HistMap(s, hist) && HistLinks(c, s, cur, hist) && LoadsGone(c, s, cur, hist)
  }

  ghost predicate LinkOk(c: Ctx, s: Pass, cur: Cursor, x: Value, y: Value) {
    && (x.NewPhi? || x in c.f.phis || exists b: nat, j: nat :: LoadOf(c, s, cur, x, b, j))
    && !x.Const? && !x.Arg?
    && Known(c, s, x) && Known(c, s, y)
    && MayReplace(c, x, y)
  }

  ghost predicate PhiOk(c: Ctx, s: Pass, phi: Value) {
    && phi in s.phis
    && phi !in s.replacement
    && Known(c, s, phi)
    && GoodOps(c, phi, s.phis[phi].block, s.phis[phi].ops)
    && forall i :: 0 <= i < |s.phis[phi].ops| ==> Live(c, s, s.phis[phi].ops[i].0)
  }

  ghost predicate PhisOk(c: Ctx, s: Pass) {
    && (forall phi :: phi in s.phis ==> PhiOk(c, s, phi))
    && (forall phi :: phi in c.f.phis ==> phi in s.phis || phi in s.replacement)
  }

  ghost predicate DefOk(c: Ctx, s: Pass, cur: Cursor) {
    && (forall b: nat, a: nat :: (b, a) in s.defMap ==> EntryOk(c, s, cur, b, a, s.defMap[(b, a)]))
    && (forall b: nat, a: nat :: Readable(c, s, cur, b) && a in c.P && (b, a) !in s.defMap ==>
      NoStores(c, b, a, Point(c, s, cur, b)))
  }

  ghost predicate EntryOk(c: Ctx, s: Pass, cur: Cursor, b: nat, a: nat, v: Value) {
    && Readable(c, s, cur, b) && a in c.P
    && Known(c, s, v)
    && Sound(c, v, SlotOf(a), b, Point(c, s, cur, b))
  }

  ghost predicate PendingOk(c: Ctx, s: Pass, busy: Value, i: int)
    requires 0 <= i < |s.incomplete|
  {
    var p := s.incomplete[i];
    && p.phi.NewPhi? && p.phi.block == p.block && p.phi.slot == p.slot
    && (p.block, p.slot) in s.defMap
    && p.block !in s.sealed
    && (p.phi != busy ==> p.phi in s.phis && s.phis[p.phi].ops == [])
  }

  /** Phis of blocks that are not sealed wait without operands, except for the one
      that is being completed. */
  ghost predicate PendingsOk(c: Ctx, s: Pass, busy: Value) {
    && (forall i :: 0 <= i < |s.incomplete| ==> PendingOk(c, s, busy, i))
    && (forall i, j :: 0 <= i < j < |s.incomplete| ==> s.incomplete[i].phi != s.incomplete[j].phi)
  }

  ghost predicate BlocksOk(c: Ctx, s: Pass, hist: History) {
    && |s.blocks| == |c.f.blocks|
    && forall b :: 0 <= b < |s.blocks| ==> BlockOk(c, s, hist, b)
  }

  ghost predicate BlockOk(c: Ctx, s: Pass, hist: History, b: nat)
    requires b < |c.f.blocks| && b < |s.blocks|
  {
    s.blocks[b] == Block(Rewrite(hist, c.f.blocks[b].body), ChaseTerm(hist, c.f.blocks[b].term))
  }

  /** Reads go through sealed blocks only to predecessors that have been walked. */
  ghost predicate SealsOk(c: Ctx, s: Pass, cur: Cursor) {
    && cur.block !in s.filled
    && cur.k <= Len(c, cur.block)
    && (forall b :: b in s.filled ==> b < |c.f.blocks|)
    && (forall b, p :: b in s.sealed && b < |c.preds| && p in c.preds[b] ==> p in s.filled)
  }

  ghost predicate Inv(c: Ctx, s: Pass, cur: Cursor, busy: Value, hist: History) {
    && WellFormed(c) && AllReachable(c.f)
    && HistOk(c, s, cur, hist)
    && PhisOk(c, s)
    && DefOk(c, s, cur)
    && PendingsOk(c, s, busy)
    && BlocksOk(c, s, hist)
    && SealsOk(c, s, cur)
  }

  // ---------------------------------------------------------------- old and new

  /** Values in order of creation; everything before the pass has rank 0. */
  function Rank(v: Value): nat {
    if v.NewPhi? then v.serial + 1 else 0
  }

  /** What a read leaves alone: everything created before it. */
  ghost predicate Frame(s: Pass, s': Pass, hist: History, hist': History, lo: nat) {
    && |hist| <= |hist'| && hist == hist'[..|hist|]
    && (forall i :: |hist| <= i < |hist'| ==> Rank(hist'[i].0) >= lo)
    && s.next <= s'.next
    && (forall key :: key in s.defMap ==> key in s'.defMap && s'.defMap[key] == s.defMap[key])
    && |s.incomplete| <= |s'.incomplete| && s.incomplete == s'.incomplete[..|s.incomplete|]
    && s.sealed == s'.sealed && s.filled == s'.filled
    && (forall phi :: Rank(phi) < lo ==> (phi in s.phis <==> phi in s'.phis))
    && (forall phi :: Rank(phi) < lo && phi in s.phis ==> s'.phis[phi] == s.phis[phi])
  }

  /** A phi has all its operands, or it waits for them with none. */
  ghost predicate Done(c: Ctx, s: Pass, phi: Value)
    requires phi in s.phis
  {
    Complete(c.preds, s.phis[phi]) ||
      (s.phis[phi].ops == [] && exists i :: 0 <= i < |s.incomplete| && s.incomplete[i].phi == phi)
  }

  ghost predicate AllDone(c: Ctx, s: Pass, lo: nat) {
    forall phi :: phi in s.phis && Rank(phi) >= lo ==> Done(c, s, phi)
  }

  ghost predicate AllDoneBut(c: Ctx, s: Pass, lo: nat, but: Value) {
    forall phi :: phi in s.phis && Rank(phi) >= lo && phi != but ==> Done(c, s, phi)
  }

  /** Older phis do not use newer values. */
  ghost predicate Isolated(s: Pass, lo: nat) {
    forall phi, i :: phi in s.phis && Rank(phi) < lo && 0 <= i < |s.phis[phi].ops| ==> Rank(s.phis[phi].ops[i].0) < lo
  }

  lemma FrameTrans(s0: Pass, s1: Pass, s2: Pass, h0: History, h1: History, h2: History, lo: nat, lo': nat)
    requires Frame(s0, s1, h0, h1, lo) && Frame(s1, s2, h1, h2, lo') && lo <= lo'
    ensures Frame(s0, s2, h0, h2, lo)
  {
    assert h2[..|h0|] == h2[..|h1|][..|h0|];
    assert s2.incomplete[..|s0.incomplete|] == s2.incomplete[..|s1.incomplete|][..|s0.incomplete|];
    forall i | |h0| <= i < |h2|
      ensures Rank(h2[i].0) >= lo
    {
      if i < |h1| {
        assert h2[i] == h1[i];
      }
    }
    forall key | key in s0.defMap
      ensures key in s2.defMap && s2.defMap[key] == s0.defMap[key]
    {
      assert key in s1.defMap;
    }
  }
}
