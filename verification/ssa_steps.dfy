/** Each change that the pass makes to its tables, as a function on them, and why the
    invariant survives it. */
module SsaSteps {
  import opened IR
  import opened SsaPaths
  import opened SsaReplace
  import opened SsaFacts
  import opened SsaState

  function SubstPhi(x: Value, y: Value, phi: Phi): Phi {
    phi.(ops := SubstOps(x, y, phi.ops))
  }

  /** All uses of x become uses of y. */
  function ReplaceUses(s: Pass, x: Value, y: Value): Pass {
    s.(blocks := seq(|s.blocks|, b requires 0 <= b < |s.blocks| => SubstBlock(x, y, s.blocks[b])),
       phis := map v | v in s.phis :: SubstPhi(x, y, s.phis[v]))
  }

  /** A trivial phi is replaced and removed. */
  function DropPhi(s: Pass, x: Value, y: Value): Pass {
    var s' := ReplaceUses(s, x, y);
    s'.(phis := s'.phis - {x}, replacement := s'.replacement[x := y])
  }

  /** The load x at index i of block b is replaced and removed. */
  function DropLoad(s: Pass, b: nat, i: nat, x: Value, y: Value): Pass
    requires b < |s.blocks| && i < |s.blocks[b].body|
  {
    var s' := ReplaceUses(s, x, y);
    var body := s'.blocks[b].body;
    s'.(blocks := s'.blocks[b := s'.blocks[b].(body := body[..i] + body[i + 1..])],
        replacement := s'.replacement[x := y])
  }

  // ---------------------------------------------------------------- removing a phi

  lemma DropPhiHistMap(s: Pass, hist: History, x: Value, y: Value)
    requires HistMap(s, hist)
    requires x !in s.replacement && y !in s.replacement && x != y
    ensures HistMap(DropPhi(s, x, y), hist + [(x, y)])
  {
    LiveNotReplaced(s, hist, x);
    LiveNotReplaced(s, hist, y);
    HistMapAppend(s, DropPhi(s, x, y), hist, x, y);
  }

  lemma LiveNotReplaced(s: Pass, hist: History, x: Value)
    requires HistMap(s, hist) && x !in s.replacement
    ensures forall i :: 0 <= i < |hist| ==> hist[i].0 != x
  {
  }

  lemma HistMapAppend(s: Pass, s': Pass, hist: History, x: Value, y: Value)
    requires HistMap(s, hist)
    requires s'.replacement == s.replacement[x := y]
    requires forall i :: 0 <= i < |hist| ==> hist[i].0 != x && hist[i].0 != y
    requires x != y
    ensures HistMap(s', hist + [(x, y)])
  {
    forall v
      ensures v in s'.replacement <==> Replaced(hist + [(x, y)], v)
    {
      ReplacedAppend(hist, x, y, v);
    }
  }

  lemma DropPhiKnown(c: Ctx, s: Pass, x: Value, y: Value, v: Value)
    ensures Known(c, s, v) ==> Known(c, DropPhi(s, x, y), v)
  {
  }

  lemma DropPhiLinks(c: Ctx, s: Pass, cur: Cursor, hist: History, x: Value, y: Value)
    requires HistLinks(c, s, cur, hist)
    requires Known(c, s, x) && Known(c, s, y) && MayReplace(c, x, y) && (x.NewPhi? || x in c.f.phis) && !x.Const? &&
               !x.Arg?
    ensures HistLinks(c, DropPhi(s, x, y), cur, hist + [(x, y)])
  {
    hide MayReplace;
    var s' := DropPhi(s, x, y);
    var h := hist + [(x, y)];
    forall i | 0 <= i < |h|
      ensures LinkOk(c, s', cur, h[i].0, h[i].1)
    {
      if i < |hist| {
        assert h[i] == hist[i];
        assert LinkOk(c, s, cur, hist[i].0, hist[i].1);
        if b: nat, j: nat :| LoadOf(c, s, cur, hist[i].0, b, j) {
          assert LoadOf(c, s', cur, hist[i].0, b, j);
        }
      }
      DropPhiKnown(c, s, x, y, h[i].0);
      DropPhiKnown(c, s, x, y, h[i].1);
    }
  }

  lemma LoadsGoneAppend(c: Ctx, s: Pass, s': Pass, cur: Cursor, hist: History, x: Value, y: Value)
    requires LoadsGone(c, s, cur, hist) && s'.filled == s.filled
    ensures LoadsGone(c, s', cur, hist + [(x, y)])
  {
    forall b: nat, j: nat | SlotLoad(c, b, j) && Processed(s', cur, b, j)
      ensures Replaced(hist + [(x, y)], Instr(c.f.blocks[b].body[j].id))
    {
      assert Processed(s, cur, b, j);
      ReplacedAppend(hist, x, y, Instr(c.f.blocks[b].body[j].id));
    }
  }

  /** Operands stay sound and live when one live value replaces another. */
  lemma SubstOpsOk(c: Ctx, s: Pass, x: Value, y: Value, phi: Value)
    requires GoodEdges(c) && GoodDefs(c)
    requires PhiOk(c, s, phi) && MayReplace(c, x, y) && !x.Const? && !x.Arg?
    requires Live(c, s, y)
    ensures GoodOps(c, phi, s.phis[phi].block, SubstOps(x, y, s.phis[phi].ops))
    ensures forall i :: 0 <= i < |s.phis[phi].ops| ==>
      Live(c, s, SubstOps(x, y, s.phis[phi].ops)[i].0) && (SubstOps(x, y, s.phis[phi].ops)[i].0 == x ==> x == y)
  {
    hide MayReplace, Sound, GoodEdges, GoodDefs;
    var ops := s.phis[phi].ops;
    var ops' := SubstOps(x, y, ops);
    forall i | 0 <= i < |ops|
      ensures SoundOp(c, phi, s.phis[phi].block, ops'[i]) && Live(c, s, ops'[i].0)
    {
      assert SoundOp(c, phi, s.phis[phi].block, ops[i]);
      if ops[i].0 == x {
        ReplaceSound(c, x, y, PhiTarget(c, phi, ops[i].1), ops[i].1, Len(c, ops[i].1));
      }
    }
  }

  lemma DropPhiPhis(c: Ctx, s: Pass, x: Value, y: Value)
    requires GoodEdges(c) && GoodDefs(c)
    requires PhisOk(c, s) && MayReplace(c, x, y) && !x.Const? && !x.Arg?
    requires Live(c, s, y) && x in s.phis && x != y
    ensures PhisOk(c, DropPhi(s, x, y))
  {
    hide MayReplace, GoodEdges, GoodDefs, GoodOps;
    var s' := DropPhi(s, x, y);
    forall phi | phi in s'.phis
      ensures PhiOk(c, s', phi)
    {
      assert PhiOk(c, s, phi);
      SubstOpsOk(c, s, x, y, phi);
      DropPhiKnown(c, s, x, y, phi);
      forall i | 0 <= i < |s'.phis[phi].ops|
        ensures Live(c, s', s'.phis[phi].ops[i].0)
      {
        DropPhiKnown(c, s, x, y, s'.phis[phi].ops[i].0);
      }
    }
  }

  lemma DropPhiDefs(c: Ctx, s: Pass, cur: Cursor, x: Value, y: Value)
    requires DefOk(c, s, cur)
    ensures DefOk(c, DropPhi(s, x, y), cur)
  {
    hide Sound, NoStores;
    var s' := DropPhi(s, x, y);
    forall b: nat, a: nat | (b, a) in s'.defMap
      ensures EntryOk(c, s', cur, b, a, s'.defMap[(b, a)])
    {
      assert EntryOk(c, s, cur, b, a, s.defMap[(b, a)]);
      DropPhiKnown(c, s, x, y, s.defMap[(b, a)]);
    }
    forall b: nat, a: nat | Readable(c, s', cur, b) && a in c.P && (b, a) !in s'.defMap
      ensures NoStores(c, b, a, Point(c, s', cur, b))
    {
      assert Readable(c, s, cur, b);
    }
  }

  lemma DropPhiPendings(c: Ctx, s: Pass, busy: Value, x: Value, y: Value)
    requires PendingsOk(c, s, busy)
    requires forall i :: 0 <= i < |s.incomplete| && s.incomplete[i].phi == x ==> x == busy
    ensures PendingsOk(c, DropPhi(s, x, y), busy)
  {
    var s' := DropPhi(s, x, y);
    forall i | 0 <= i < |s'.incomplete|
      ensures PendingOk(c, s', busy, i)
    {
      assert PendingOk(c, s, busy, i);
    }
  }

  lemma ReplaceUsesBlock(c: Ctx, s: Pass, hist: History, x: Value, y: Value, b: nat)
    requires BlocksOk(c, s, hist) && b < |c.f.blocks|
    requires forall i :: 0 <= i < |c.f.blocks[b].body| && c.f.blocks[b].body[i].Load? ==>
               Instr(c.f.blocks[b].body[i].id) != x
    ensures |ReplaceUses(s, x, y).blocks| == |c.f.blocks|
    ensures BlockOk(c, ReplaceUses(s, x, y), hist + [(x, y)], b)
  {
    assert BlockOk(c, s, hist, b);
    RewriteSubst(hist, x, y, c.f.blocks[b].body);
    ChaseAppend(hist, x, y);
  }

  lemma PhiIsNoLoad(c: Ctx, x: Value, b: nat, k: nat)
    requires GoodDefs(c) && (x.NewPhi? || x in c.f.phis)
    requires b < |c.f.blocks| && k < |c.f.blocks[b].body| && c.f.blocks[b].body[k].Load?
    ensures Instr(c.f.blocks[b].body[k].id) != x
  {
  }

  lemma DropPhiBlocks(c: Ctx, s: Pass, hist: History, x: Value, y: Value)
    requires GoodDefs(c) && BlocksOk(c, s, hist) && (x.NewPhi? || x in c.f.phis)
    ensures BlocksOk(c, DropPhi(s, x, y), hist + [(x, y)])
  {
    var s' := DropPhi(s, x, y);
    forall b | 0 <= b < |s'.blocks|
      ensures BlockOk(c, s', hist + [(x, y)], b)
    {
      forall i | 0 <= i < |c.f.blocks[b].body| && c.f.blocks[b].body[i].Load?
        ensures Instr(c.f.blocks[b].body[i].id) != x
      {
        PhiIsNoLoad(c, x, b, i);
      }
      hide GoodDefs;
      ReplaceUsesBlock(c, s, hist, x, y, b);
    }
  }

  lemma PhiIsPhi(c: Ctx, s: Pass, phi: Value)
    requires GoodDefs(c) && PhiOk(c, s, phi)
    ensures (phi.NewPhi? || phi in c.f.phis) && !phi.Const? && !phi.Arg?
    ensures IsPhiOf(c, phi, s.phis[phi].block)
  {
    PhiDef(c, phi, s.phis[phi].block);
  }

  lemma CompleteCovers(preds: seq<seq<nat>>, phi: Phi)
    requires Complete(preds, phi)
    ensures forall p :: p in preds[phi.block] ==> exists i :: 0 <= i < |phi.ops| && phi.ops[i].1 == p
  {
    forall p | p in preds[phi.block]
      ensures exists i :: 0 <= i < |phi.ops| && phi.ops[i].1 == p
    {
      assert p in multiset(preds[phi.block]);
      assert p in Preds(phi.ops);
      var i :| 0 <= i < |Preds(phi.ops)| && Preds(phi.ops)[i] == p;
      assert phi.ops[i].1 == p;
    }
  }

  lemma LeavesStay(c: Ctx, s: Pass, cur: Cursor, hist: History, v: Value)
    requires HistMap(s, hist) && HistLinks(c, s, cur, hist) && (v.Const? || v.Arg?)
    ensures v !in s.replacement
  {
    hide MayReplace;
  }

  lemma PhiOfPhis(c: Ctx, s: Pass, x: Value)
    requires PhisOk(c, s) && x in s.phis
    ensures PhiOk(c, s, x) && Known(c, s, x) && x !in s.replacement
  {
    hide GoodOps;
  }

  /** The trivial phi may be replaced, by a value that is still in the function. */
  lemma TrivialOk(c: Ctx, s: Pass, x: Value, y: Value)
    requires WellFormed(c) && PhisOk(c, s)
    requires x in s.phis && Complete(c.preds, s.phis[x]) && TrivialValue(x, s.phis[x].ops, y)
    requires Const(0) !in s.replacement
    ensures MayReplace(c, x, y) && Live(c, s, y)
  {
    assert PhiOk(c, s, x);
    PhiIsPhi(c, s, x);
    CompleteCovers(c.preds, s.phis[x]);
    hide GoodEdges, GoodDefs, GoodUses, GoodPhis, GoodSlots, MayReplace;
    assert Live(c, s, y) by {
      if y != Const(0) {
        var i :| 0 <= i < |s.phis[x].ops| && s.phis[x].ops[i].0 == y;
      }
    }
    TrivialPhiReplace(c, x, s.phis[x].block, s.phis[x].ops, y);
  }

  lemma DropPhiInv(c: Ctx, s: Pass, cur: Cursor, busy: Value, hist: History, x: Value, y: Value)
    requires Inv(c, s, cur, busy, hist)
    requires x in s.phis && Complete(c.preds, s.phis[x]) && TrivialValue(x, s.phis[x].ops, y)
    requires forall i :: 0 <= i < |s.incomplete| && s.incomplete[i].phi == x ==> x == busy
    ensures Inv(c, DropPhi(s, x, y), cur, busy, hist + [(x, y)])
    ensures Live(c, s, y)
  {
    hide GoodEdges, GoodDefs, GoodUses, GoodPhis, GoodSlots, MayReplace, HistMap, HistLinks, LoadsGone, PhisOk, DefOk,
      PendingsOk, BlocksOk, PhiOk, Complete, IsPhiOf;
    LeavesStay(c, s, cur, hist, Const(0));
    TrivialOk(c, s, x, y);
    PhiOfPhis(c, s, x);
    PhiIsPhi(c, s, x);
    DropPhiHistMap(s, hist, x, y);
    DropPhiLinks(c, s, cur, hist, x, y);
    LoadsGoneAppend(c, s, DropPhi(s, x, y), cur, hist, x, y);
    DropPhiPhis(c, s, x, y);
    DropPhiDefs(c, s, cur, x, y);
    DropPhiPendings(c, s, busy, x, y);
    DropPhiBlocks(c, s, hist, x, y);
    assert SealsOk(c, DropPhi(s, x, y), cur);
  }

  // ---------------------------------------------------------------- following replacements

  /** Following the replacements ends at a value that was not replaced. */
  lemma {:induction false} ChaseFinal(hist: History, n: nat, v: Value)
    requires n <= |hist|
    requires forall i, j :: 0 <= j <= i < |hist| ==> hist[j].0 != hist[i].1
    ensures var u := Chase(hist[..n], v);
            (u == v || exists i :: 0 <= i < n && hist[i].1 == u) && forall j :: 0 <= j < n ==> hist[j].0 != u
  {
    if n > 0 {
      assert hist[..n][..n - 1] == hist[..n - 1];
      ChaseFinal(hist, n - 1, v);
    }
  }

  lemma ChaseLive(c: Ctx, s: Pass, cur: Cursor, hist: History, v: Value)
    requires HistMap(s, hist) && HistLinks(c, s, cur, hist) && Known(c, s, v)
    ensures Live(c, s, Chase(hist, v))
  {
    hide MayReplace;
    ChaseFinal(hist, |hist|, v);
    assert hist[..|hist|] == hist;
    var u := Chase(hist, v);
    if u != v {
      var i :| 0 <= i < |hist| && hist[i].1 == u;
      assert LinkOk(c, s, cur, hist[i].0, hist[i].1);
    }
  }

  lemma {:induction false} ChaseSoundUpTo(c: Ctx, s: Pass, cur: Cursor, hist: History, n: nat, v: Value, t: Target,
                                          b: nat, k: nat)
    requires GoodEdges(c) && GoodDefs(c)
    requires HistLinks(c, s, cur, hist) && n <= |hist|
    requires Sound(c, v, t, b, k)
    ensures Sound(c, Chase(hist[..n], v), t, b, k)
  {
    hide MayReplace, Sound, GoodEdges, GoodDefs;
    if n > 0 {
      assert hist[..n][..n - 1] == hist[..n - 1];
      ChaseSoundUpTo(c, s, cur, hist, n - 1, v, t, b, k);
      var u := Chase(hist[..n - 1], v);
      assert LinkOk(c, s, cur, hist[n - 1].0, hist[n - 1].1);
      if u == hist[n - 1].0 {
        ReplaceSound(c, u, hist[n - 1].1, t, b, k);
      }
    }
  }

  lemma ChaseSound(c: Ctx, s: Pass, cur: Cursor, hist: History, v: Value, t: Target, b: nat, k: nat)
    requires GoodEdges(c) && GoodDefs(c)
    requires HistLinks(c, s, cur, hist)
    requires Sound(c, v, t, b, k)
    ensures Sound(c, Chase(hist, v), t, b, k)
  {
    hide Sound, HistLinks, GoodEdges, GoodDefs;
    ChaseSoundUpTo(c, s, cur, hist, |hist|, v, t, b, k);
    assert hist[..|hist|] == hist;
  }

  lemma {:induction false} ChaseKeeps(hist: History, v: Value)
    requires forall i :: 0 <= i < |hist| ==> hist[i].0 != v
    ensures Chase(hist, v) == v
  {
    if hist != [] {
      ChaseKeeps(hist[..|hist| - 1], v);
    }
  }

  /** An instruction keeps its kind, and addresses a slot after the replacements if and
      only if it did before. */
  lemma ChaseSlot(c: Ctx, s: Pass, cur: Cursor, hist: History, v: Value)
    requires GoodDefs(c) && GoodSlots(c)
    requires HistMap(s, hist) && HistLinks(c, s, cur, hist)
    ensures IsSlot(Chase(hist, v), c.P) <==> IsSlot(v, c.P)
    ensures IsSlot(v, c.P) ==> Chase(hist, v) == v
  {
    hide MayReplace, GoodDefs, GoodSlots;
    if IsSlot(v, c.P) {
      forall i | 0 <= i < |hist|
        ensures hist[i].0 != v
      {
        assert LinkOk(c, s, cur, hist[i].0, hist[i].1);
      }
      ChaseKeeps(hist, v);
    } else {
      ChaseFinal(hist, |hist|, v);
      assert hist[..|hist|] == hist;
      if Chase(hist, v) != v {
        var i :| 0 <= i < |hist| && hist[i].1 == Chase(hist, v);
        assert LinkOk(c, s, cur, hist[i].0, hist[i].1);
      }
    }
  }

  lemma {:induction false} ChaseInstrShape(hist: History, i: Instruction)
    ensures match i
            case Alloca(_) => ChaseInstr(hist, i) == i
            case Load(id, addr) => ChaseInstr(hist, i) == Load(id, Chase(hist, addr))
            case Store(id, addr, val) => ChaseInstr(hist, i) == Store(id, Chase(hist, addr), Chase(hist, val))
            case Op(id, code, args) =>
              ChaseInstr(hist, i) == Op(id, code, seq(|args|, j requires 0 <= j < |args| => Chase(hist, args[j])))
  {
    if hist == [] {
      if i.Op? {
        assert seq(|i.args|, j requires 0 <= j < |i.args| => Chase(hist, i.args[j])) == i.args;
      }
    } else {
      ChaseInstrShape(hist[..|hist| - 1], i);
    }
  }

  lemma {:induction false} ChaseTermShape(hist: History, t: Terminator)
    ensures match t
            case Ret(v) => ChaseTerm(hist, t) == Ret(Chase(hist, v))
            case Branch(_) => ChaseTerm(hist, t) == t
            case BranchIf(v, b0, b1) => ChaseTerm(hist, t) == BranchIf(Chase(hist, v), b0, b1)
  {
    if hist != [] {
      ChaseTermShape(hist[..|hist| - 1], t);
    }
  }

  // ---------------------------------------------------------------- new entries

  lemma MoreKnown(c: Ctx, s: Pass, s': Pass, v: Value)
    requires s.next <= s'.next && s'.replacement == s.replacement
    requires forall p :: p in s.phis ==> p in s'.phis
    ensures Known(c, s, v) ==> Known(c, s', v)
    ensures Live(c, s, v) ==> Live(c, s', v)
  {
  }

  /** The definition of slot a in block b becomes v. */
  lemma WriteDefOk(c: Ctx, s: Pass, cur: Cursor, b: nat, a: nat, v: Value)
    requires DefOk(c, s, cur)
    requires EntryOk(c, s, cur, b, a, v)
    ensures DefOk(c, s.(defMap := s.defMap[(b, a) := v]), cur)
  {
    hide Sound, NoStores;
    var s' := s.(defMap := s.defMap[(b, a) := v]);
    forall b': nat, a': nat | (b', a') in s'.defMap
      ensures EntryOk(c, s', cur, b', a', s'.defMap[(b', a')])
    {
      if (b', a') != (b, a) {
        assert EntryOk(c, s, cur, b', a', s.defMap[(b', a')]);
      } else {
        assert EntryOk(c, s', cur, b, a, v);
      }
    }
    forall b': nat, a': nat | Readable(c, s', cur, b') && a' in c.P && (b', a') !in s'.defMap
      ensures NoStores(c, b', a', Point(c, s', cur, b'))
    {
      assert Readable(c, s, cur, b');
    }
  }

  lemma WriteDefInv(c: Ctx, s: Pass, cur: Cursor, busy: Value, hist: History, b: nat, a: nat, v: Value)
    requires Inv(c, s, cur, busy, hist)
    requires EntryOk(c, s, cur, b, a, v)
    ensures Inv(c, s.(defMap := s.defMap[(b, a) := v]), cur, busy, hist)
  {
    hide GoodEdges, GoodDefs, GoodUses, GoodPhis, GoodSlots, MayReplace, Sound, NoStores, GoodOps;
    var s' := s.(defMap := s.defMap[(b, a) := v]);
    WriteDefOk(c, s, cur, b, a, v);
    hide DefOk;
    SameRest(c, s, s', cur, hist);
    forall i | 0 <= i < |s'.incomplete|
      ensures PendingOk(c, s', busy, i)
    {
      assert PendingOk(c, s, busy, i);
    }
  }

  /** Facts that do not concern the definitions or the waiting phis. */
  lemma SameRest(c: Ctx, s: Pass, s': Pass, cur: Cursor, hist: History)
    requires HistOk(c, s, cur, hist) && PhisOk(c, s) && BlocksOk(c, s, hist) && SealsOk(c, s, cur)
    requires s'.blocks == s.blocks && s'.phis == s.phis && s'.replacement == s.replacement
    requires s'.sealed == s.sealed && s'.filled == s.filled && s'.next == s.next
    ensures HistOk(c, s', cur, hist) && PhisOk(c, s') && BlocksOk(c, s', hist) && SealsOk(c, s', cur)
  {
    hide MayReplace, GoodOps;
    LinksKept(c, s, s', cur, cur, hist);
    forall b: nat, j: nat | SlotLoad(c, b, j) && Processed(s', cur, b, j)
      ensures Replaced(hist, Instr(c.f.blocks[b].body[j].id))
    {
      assert Processed(s, cur, b, j);
    }
    forall phi | phi in s'.phis
      ensures PhiOk(c, s', phi)
    {
      assert PhiOk(c, s, phi);
      forall i | 0 <= i < |s'.phis[phi].ops|
        ensures Live(c, s', s'.phis[phi].ops[i].0)
      {
        assert Live(c, s, s.phis[phi].ops[i].0);
      }
    }
    forall b | 0 <= b < |s'.blocks|
      ensures BlockOk(c, s', hist, b)
    {
      assert BlockOk(c, s, hist, b);
    }
  }

  lemma LinksKept(c: Ctx, s: Pass, s': Pass, cur: Cursor, cur': Cursor, hist: History)
    requires HistLinks(c, s, cur, hist)
    requires s.next <= s'.next && s'.replacement == s.replacement
    requires forall p :: p in s.phis ==> p in s'.phis
    requires s.filled <= s'.filled
    requires cur.block in s'.filled || (cur'.block == cur.block && cur.k <= cur'.k)
    ensures HistLinks(c, s', cur', hist)
  {
    hide MayReplace;
    forall i | 0 <= i < |hist|
      ensures LinkOk(c, s', cur', hist[i].0, hist[i].1)
    {
      assert LinkOk(c, s, cur, hist[i].0, hist[i].1);
      MoreKnown(c, s, s', hist[i].0);
      MoreKnown(c, s, s', hist[i].1);
      if b: nat, j: nat :| LoadOf(c, s, cur, hist[i].0, b, j) {
        assert LoadOf(c, s', cur', hist[i].0, b, j);
      }
    }
  }

  // ---------------------------------------------------------------- phis

  lemma NextIsNew(c: Ctx, s: Pass, cur: Cursor, hist: History, phi: Value)
    requires PhisOk(c, s) && HistMap(s, hist) && HistLinks(c, s, cur, hist)
    requires phi.NewPhi? && phi.serial >= s.next
    ensures phi !in s.phis && phi !in s.replacement
  {
    hide MayReplace, GoodOps;
    assert phi in s.phis ==> PhiOk(c, s, phi);
    assert forall i :: 0 <= i < |hist| ==> LinkOk(c, s, cur, hist[i].0, hist[i].1);
  }

  function AddPhi(s: Pass, b: nat, a: nat): Pass {
    s.(phis := s.phis[NewPhi(s.next, b, a) := Phi(b, [])], next := s.next + 1)
  }

  lemma KeepOtherPhi(c: Ctx, s: Pass, s': Pass, phi: Value)
    requires PhiOk(c, s, phi)
    requires s.next <= s'.next && s'.replacement == s.replacement
    requires forall p :: p in s.phis ==> p in s'.phis
    requires s'.phis[phi] == s.phis[phi]
    ensures PhiOk(c, s', phi)
  {
    hide GoodOps;
    MoreKnown(c, s, s', phi);
    forall i | 0 <= i < |s'.phis[phi].ops|
      ensures Live(c, s', s'.phis[phi].ops[i].0)
    {
      MoreKnown(c, s, s', s.phis[phi].ops[i].0);
    }
  }

  /** Facts kept when phis are added or get operands. */
  lemma MorePhis(c: Ctx, s: Pass, s': Pass, cur: Cursor, hist: History)
    requires HistOk(c, s, cur, hist) && DefOk(c, s, cur) && BlocksOk(c, s, hist) && SealsOk(c, s, cur)
    requires s'.blocks == s.blocks && s'.replacement == s.replacement && s'.defMap == s.defMap
    requires s'.sealed == s.sealed && s'.filled == s.filled && s.next <= s'.next
    requires forall p :: p in s.phis ==> p in s'.phis
    ensures HistOk(c, s', cur, hist) && DefOk(c, s', cur) && BlocksOk(c, s', hist) && SealsOk(c, s', cur)
  {
    hide MayReplace, Sound, NoStores;
    LinksKept(c, s, s', cur, cur, hist);
    forall b: nat, j: nat | SlotLoad(c, b, j) && Processed(s', cur, b, j)
      ensures Replaced(hist, Instr(c.f.blocks[b].body[j].id))
    {
      assert Processed(s, cur, b, j);
    }
    forall b: nat, a: nat | (b, a) in s'.defMap
      ensures EntryOk(c, s', cur, b, a, s'.defMap[(b, a)])
    {
      assert EntryOk(c, s, cur, b, a, s.defMap[(b, a)]);
      MoreKnown(c, s, s', s.defMap[(b, a)]);
    }
    forall b: nat, a: nat | Readable(c, s', cur, b) && a in c.P && (b, a) !in s'.defMap
      ensures NoStores(c, b, a, Point(c, s', cur, b))
    {
      assert Readable(c, s, cur, b);
    }
    forall b | 0 <= b < |s'.blocks|
      ensures BlockOk(c, s', hist, b)
    {
      assert BlockOk(c, s, hist, b);
    }
  }

  lemma AddPhiInv(c: Ctx, s: Pass, cur: Cursor, busy: Value, hist: History, b: nat, a: nat)
    requires Inv(c, s, cur, busy, hist)
    requires b < |c.f.blocks| && a in c.P
    ensures Inv(c, AddPhi(s, b, a), cur, busy, hist)
    ensures NewPhi(s.next, b, a) !in s.phis
  {
    hide GoodDefs, GoodUses, GoodPhis, GoodSlots;
    var s' := AddPhi(s, b, a);
    var phi := NewPhi(s.next, b, a);
    NextIsNew(c, s, cur, hist, phi);
    assert PhiOk(c, s', phi);
    hide GoodEdges;
    MorePhis(c, s, s', cur, hist);
    hide HistOk, DefOk, BlocksOk;
    forall p | p in s'.phis
      ensures PhiOk(c, s', p)
    {
      if p != phi {
        assert PhiOk(c, s, p);
        KeepOtherPhi(c, s, s', p);
      }
    }
    forall i | 0 <= i < |s'.incomplete|
      ensures PendingOk(c, s', busy, i)
    {
      assert PendingOk(c, s, busy, i);
    }
  }

  function AppendOp(s: Pass, phi: Value, v: Value, p: nat): Pass
    requires phi in s.phis
  {
    s.(phis := s.phis[phi := s.phis[phi].(ops := s.phis[phi].ops + [(v, p)])])
  }

  /** The phi that got a pair is right, and so are the others. */
  lemma AppendOpPhis(c: Ctx, s: Pass, phi: Value, v: Value, p: nat)
    requires PhisOk(c, s) && phi in s.phis && SoundOp(c, phi, s.phis[phi].block, (v, p)) && Live(c, s, v)
    ensures PhisOk(c, AppendOp(s, phi, v, p))
  {
    hide SoundOp, Live;
    var s' := AppendOp(s, phi, v, p);
    assert PhiOk(c, s, phi);
    MoreKnown(c, s, s', phi);
    forall i | 0 <= i < |s'.phis[phi].ops|
      ensures SoundOp(c, phi, s.phis[phi].block, s'.phis[phi].ops[i]) && Live(c, s', s'.phis[phi].ops[i].0)
    {
      MoreKnown(c, s, s', s'.phis[phi].ops[i].0);
    }
    assert PhiOk(c, s', phi);
    hide GoodOps;
    forall q | q in s'.phis
      ensures PhiOk(c, s', q)
    {
      if q != phi {
        assert PhiOk(c, s, q);
        KeepOtherPhi(c, s, s', q);
      }
    }
  }

  lemma AppendOpPendings(c: Ctx, s: Pass, busy: Value, phi: Value, v: Value, p: nat)
    requires PendingsOk(c, s, busy) && phi in s.phis
    requires forall i :: 0 <= i < |s.incomplete| && s.incomplete[i].phi == phi ==> phi == busy
    ensures PendingsOk(c, AppendOp(s, phi, v, p), busy)
  {
    var s' := AppendOp(s, phi, v, p);
    forall i | 0 <= i < |s'.incomplete|
      ensures PendingOk(c, s', busy, i)
    {
      assert PendingOk(c, s, busy, i);
    }
  }

  lemma AppendOpInv(c: Ctx, s: Pass, cur: Cursor, busy: Value, hist: History, phi: Value, v: Value, p: nat)
    requires Inv(c, s, cur, busy, hist)
    requires phi in s.phis && SoundOp(c, phi, s.phis[phi].block, (v, p)) && Live(c, s, v)
    requires forall i :: 0 <= i < |s.incomplete| && s.incomplete[i].phi == phi ==> phi == busy
    ensures Inv(c, AppendOp(s, phi, v, p), cur, busy, hist)
  {
    hide GoodEdges, GoodDefs, GoodUses, GoodPhis, GoodSlots, SoundOp, HistOk, DefOk, BlocksOk, PhisOk, PendingsOk,
      SealsOk;
    var s' := AppendOp(s, phi, v, p);
    MorePhis(c, s, s', cur, hist);
    AppendOpPhis(c, s, phi, v, p);
    AppendOpPendings(c, s, busy, phi, v, p);
  }

  /** A phi starts waiting for its block to be sealed. */
  lemma PendInv(c: Ctx, s: Pass, cur: Cursor, busy: Value, hist: History, p: Pending)
    requires Inv(c, s, cur, busy, hist)
    requires p.phi in s.phis && s.phis[p.phi].ops == [] && p.phi.NewPhi? && p.phi.block == p.block &&
               p.phi.slot == p.slot
    requires (p.block, p.slot) in s.defMap && p.block !in s.sealed
    requires forall i :: 0 <= i < |s.incomplete| ==> s.incomplete[i].phi != p.phi
    ensures Inv(c, s.(incomplete := s.incomplete + [p]), cur, busy, hist)
  {
    hide WellFormed, MayReplace, Sound, NoStores, GoodOps;
    var s' := s.(incomplete := s.incomplete + [p]);
    MorePhis(c, s, s', cur, hist);
    hide HistOk, DefOk, BlocksOk;
    forall q | q in s'.phis
      ensures PhiOk(c, s', q)
    {
      assert PhiOk(c, s, q);
      KeepOtherPhi(c, s, s', q);
    }
    forall i | 0 <= i < |s'.incomplete|
      ensures PendingOk(c, s', busy, i)
    {
      assert i < |s.incomplete| ==> PendingOk(c, s, busy, i);
    }
  }

  /** It stops waiting once its operands are there. */
  lemma UnpendInv(c: Ctx, s: Pass, cur: Cursor, hist: History, i: nat)
    requires i < |s.incomplete| && Inv(c, s, cur, s.incomplete[i].phi, hist)
    ensures Inv(c, s.(incomplete := s.incomplete[..i] + s.incomplete[i + 1..]), cur, Const(0), hist)
  {
    hide WellFormed, MayReplace, Sound, NoStores, GoodOps;
    var s' := s.(incomplete := s.incomplete[..i] + s.incomplete[i + 1..]);
    MorePhis(c, s, s', cur, hist);
    hide HistOk, DefOk, BlocksOk;
    forall q | q in s'.phis
      ensures PhiOk(c, s', q)
    {
      assert PhiOk(c, s, q);
      KeepOtherPhi(c, s, s', q);
    }
    forall j | 0 <= j < |s'.incomplete|
      ensures PendingOk(c, s', Const(0), j)
    {
      var j' := if j < i then j else j + 1;
      assert s'.incomplete[j] == s.incomplete[j'];
      assert PendingOk(c, s, s.incomplete[i].phi, j');
      assert s.incomplete[j'].phi != s.incomplete[i].phi;
    }
  }
}
