/** How the invariant moves with the pass: over an instruction, a store, a promoted
    load, and from a block that has been walked to the next one. */
module SsaWalk {
  import opened IR
  import opened Cfg
  import opened SsaPaths
  import opened SsaReplace
  import opened SsaFacts
  import opened SsaState
  import opened SsaSteps

  ghost predicate AtInstr(c: Ctx, s: Pass, cur: Cursor) {
    cur.block < |c.f.blocks| && cur.k < Len(c, cur.block) && cur.block !in s.filled
  }

  ghost function CurInstr(c: Ctx, cur: Cursor): Instruction
    requires cur.block < |c.f.blocks| && cur.k < Len(c, cur.block)
  {
    c.f.blocks[cur.block].body[cur.k]
  }

  function Advance(cur: Cursor): Cursor {
    cur.(k := cur.k + 1)
  }

  /** Definitions other than that of slot `but` survive the current instruction. */
  lemma StepDefs(c: Ctx, s: Pass, cur: Cursor, b: nat, a: nat, v: Value)
    requires GoodDefs(c) && AtInstr(c, s, cur)
    requires EntryOk(c, s, cur, b, a, v)
    requires b == cur.block ==> !StoresTo(CurInstr(c, cur), a)
    ensures EntryOk(c, s, Advance(cur), b, a, v)
  {
    hide GoodDefs;
    if b == cur.block {
      SoundStep(c, v, a, b, cur.k);
    }
  }

  lemma StepNoStores(c: Ctx, s: Pass, cur: Cursor, b: nat, a: nat)
    requires AtInstr(c, s, cur) && NoStores(c, b, a, Point(c, s, cur, b))
    requires Readable(c, s, cur, b)
    requires b == cur.block ==> !StoresTo(CurInstr(c, cur), a)
    ensures NoStores(c, b, a, Point(c, s, Advance(cur), b))
  {
  }

  /** An instruction that does not access a promoted slot. */
  lemma AdvanceDefs(c: Ctx, s: Pass, cur: Cursor)
    requires GoodDefs(c) && AtInstr(c, s, cur) && DefOk(c, s, cur)
    requires forall a :: a in c.P ==> !StoresTo(CurInstr(c, cur), a)
    ensures DefOk(c, s, Advance(cur))
  {
    hide GoodDefs, Sound, NoStores;
    forall b: nat, a: nat | (b, a) in s.defMap
      ensures EntryOk(c, s, Advance(cur), b, a, s.defMap[(b, a)])
    {
      assert EntryOk(c, s, cur, b, a, s.defMap[(b, a)]);
      StepDefs(c, s, cur, b, a, s.defMap[(b, a)]);
    }
    forall b: nat, a: nat | Readable(c, s, Advance(cur), b) && a in c.P && (b, a) !in s.defMap
      ensures NoStores(c, b, a, Point(c, s, Advance(cur), b))
    {
      assert Readable(c, s, cur, b);
      StepNoStores(c, s, cur, b, a);
    }
  }

  lemma AdvanceLoads(c: Ctx, s: Pass, cur: Cursor, hist: History)
    requires LoadsGone(c, s, cur, hist)
    requires SlotLoad(c, cur.block, cur.k) ==> Replaced(hist, Instr(c.f.blocks[cur.block].body[cur.k].id))
    ensures LoadsGone(c, s, Advance(cur), hist)
  {
    forall b: nat, j: nat | SlotLoad(c, b, j) && Processed(s, Advance(cur), b, j)
      ensures Replaced(hist, Instr(c.f.blocks[b].body[j].id))
    {
      assert Processed(s, cur, b, j) || (b == cur.block && j == cur.k);
    }
  }

  lemma AdvanceInv(c: Ctx, s: Pass, cur: Cursor, busy: Value, hist: History)
    requires Inv(c, s, cur, busy, hist) && AtInstr(c, s, cur)
    requires forall a :: a in c.P ==> !StoresTo(CurInstr(c, cur), a)
    requires !SlotLoad(c, cur.block, cur.k)
    ensures Inv(c, s, Advance(cur), busy, hist)
  {
    hide GoodDefs, GoodEdges, GoodUses, GoodPhis, GoodSlots;
    AdvanceDefs(c, s, cur);
    LinksKept(c, s, s, cur, Advance(cur), hist);
    AdvanceLoads(c, s, cur, hist);
    hide DefOk, HistLinks, LoadsGone, HistMap, PhisOk, PendingsOk, BlocksOk;
  }

  // ---------------------------------------------------------------- stores

  lemma StoredValueKnown(c: Ctx, s: Pass, cur: Cursor, a: nat)
    requires WellFormed(c) && PhisOk(c, s) && AtInstr(c, s, cur)
    requires StoresTo(CurInstr(c, cur), a) && a in c.P
    ensures var u := CurInstr(c, cur).val; Known(c, s, u) && GoodUse(c, u, cur.block, cur.k)
  {
    var u := CurInstr(c, cur).val;
    assert UsedBy(c.f.blocks[cur.block].body[cur.k], u);
    hide GoodDefs, GoodEdges, GoodPhis;
    assert IsSlot(u, c.P) ==> Promotable(c.f, u.id);
  }

  /** The stored value, after the replacements so far, is what the slot now holds. */
  lemma StoreEntry(c: Ctx, s: Pass, cur: Cursor, hist: History, a: nat)
    requires WellFormed(c) && PhisOk(c, s) && HistOk(c, s, cur, hist) && AtInstr(c, s, cur)
    requires StoresTo(CurInstr(c, cur), a) && a in c.P
    ensures EntryOk(c, s, Advance(cur), cur.block, a, Chase(hist, CurInstr(c, cur).val))
  {
    hide GoodDefs, GoodEdges, GoodUses, GoodPhis, GoodSlots, PhisOk, HistMap, HistLinks, LoadsGone, Sound, AlwaysAvail,
      Chase, Known;
    StoredValueKnown(c, s, cur, a);
    var u := CurInstr(c, cur).val;
    var v := Chase(hist, u);
    SoundSelf(c, u, cur.block, cur.k);
    ChaseSound(c, s, cur, hist, u, ValueOf(u), cur.block, cur.k);
    ChaseLive(c, s, cur, hist, u);
    SoundStore(c, v, a, u, cur.block, cur.k);
  }

  lemma StoreDefs(c: Ctx, s: Pass, cur: Cursor, a: nat, v: Value)
    requires GoodDefs(c) && AtInstr(c, s, cur) && DefOk(c, s, cur)
    requires StoresTo(CurInstr(c, cur), a) && a in c.P
    requires EntryOk(c, s, Advance(cur), cur.block, a, v)
    ensures DefOk(c, s.(defMap := s.defMap[(cur.block, a) := v]), Advance(cur))
  {
    hide GoodDefs, Sound, NoStores;
    var s' := s.(defMap := s.defMap[(cur.block, a) := v]);
    forall b: nat, a': nat | (b, a') in s'.defMap
      ensures EntryOk(c, s', Advance(cur), b, a', s'.defMap[(b, a')])
    {
      if (b, a') != (cur.block, a) {
        assert EntryOk(c, s, cur, b, a', s.defMap[(b, a')]);
        StepDefs(c, s, cur, b, a', s.defMap[(b, a')]);
        assert EntryOk(c, s, Advance(cur), b, a', s.defMap[(b, a')]);
      }
    }
    forall b: nat, a': nat | Readable(c, s', Advance(cur), b) && a' in c.P && (b, a') !in s'.defMap
      ensures NoStores(c, b, a', Point(c, s', Advance(cur), b))
    {
      assert Readable(c, s, cur, b);
      StepNoStores(c, s, cur, b, a');
    }
  }

  lemma StoreInv(c: Ctx, s: Pass, cur: Cursor, busy: Value, hist: History, a: nat)
    requires Inv(c, s, cur, busy, hist) && AtInstr(c, s, cur)
    requires StoresTo(CurInstr(c, cur), a) && a in c.P
    ensures Inv(c, s.(defMap := s.defMap[(cur.block, a) := Chase(hist, CurInstr(c, cur).val)]), Advance(cur), busy,
              hist)
  {
    hide GoodDefs, GoodEdges, GoodUses, GoodPhis, GoodSlots;
    var v := Chase(hist, CurInstr(c, cur).val);
    var s' := s.(defMap := s.defMap[(cur.block, a) := v]);
    StoreEntry(c, s, cur, hist, a);
    StoreDefs(c, s, cur, a, v);
    SameRest(c, s, s', cur, hist);
    LinksKept(c, s', s', cur, Advance(cur), hist);
    AdvanceLoads(c, s', cur, hist);
    forall i | 0 <= i < |s'.incomplete|
      ensures PendingOk(c, s', busy, i)
    {
      assert PendingOk(c, s, busy, i);
    }
    hide DefOk, HistLinks, LoadsGone, HistMap, PhisOk, BlocksOk;
  }

  // ---------------------------------------------------------------- loads

  /** The current load is not replaced yet. */
  lemma LoadIsFresh(c: Ctx, s: Pass, cur: Cursor, hist: History)
    requires GoodDefs(c) && HistMap(s, hist) && HistLinks(c, s, cur, hist)
    requires AtInstr(c, s, cur) && CurInstr(c, cur).Load?
    ensures Instr(CurInstr(c, cur).id) !in s.replacement
    ensures !Replaced(hist, Instr(CurInstr(c, cur).id))
    ensures Instr(CurInstr(c, cur).id) !in c.f.phis
  {
    hide MayReplace;
    var x := Instr(CurInstr(c, cur).id);
    assert c.defs[x] == (cur.block, cur.k + 1);
    forall i | 0 <= i < |hist|
      ensures hist[i].0 != x
    {
      assert LinkOk(c, s, cur, hist[i].0, hist[i].1);
    }
  }

  lemma LoadIsNoSlot(c: Ctx, b: nat, k: nat)
    requires GoodDefs(c) && GoodSlots(c) && b < |c.f.blocks| && k < Len(c, b) && c.f.blocks[b].body[k].Load?
    ensures c.f.blocks[b].body[k].id !in c.P
  {
    assert c.defs[Instr(c.f.blocks[b].body[k].id)] == (b, k + 1);
  }

  lemma DropLoadLinks(c: Ctx, s: Pass, s': Pass, cur: Cursor, hist: History, x: Value, y: Value)
    requires HistLinks(c, s, cur, hist) && AtInstr(c, s, cur)
    requires LoadOf(c, s, Advance(cur), x, cur.block, cur.k)
    requires Known(c, s, x) && Known(c, s, y) && MayReplace(c, x, y)
    requires s'.replacement == s.replacement[x := y] && s'.phis.Keys == s.phis.Keys && s'.next == s.next &&
               s'.filled == s.filled
    ensures HistLinks(c, s', Advance(cur), hist + [(x, y)])
  {
    hide MayReplace;
    var h := hist + [(x, y)];
    assert LoadOf(c, s', Advance(cur), x, cur.block, cur.k);
    forall i | 0 <= i < |h|
      ensures LinkOk(c, s', Advance(cur), h[i].0, h[i].1)
    {
      if i < |hist| {
        assert h[i] == hist[i];
        assert LinkOk(c, s, cur, hist[i].0, hist[i].1);
        if b: nat, j: nat :| LoadOf(c, s, cur, hist[i].0, b, j) {
          assert LoadOf(c, s', Advance(cur), hist[i].0, b, j);
        }
      }
    }
  }

  lemma ReplacePhis(c: Ctx, s: Pass, s': Pass, x: Value, y: Value)
    requires GoodEdges(c) && GoodDefs(c)
    requires PhisOk(c, s) && MayReplace(c, x, y) && !x.Const? && !x.Arg?
    requires Live(c, s, y) && x != y && x !in s.phis
    requires s'.replacement == s.replacement[x := y] && s'.next == s.next
    requires s'.phis == ReplaceUses(s, x, y).phis
    ensures PhisOk(c, s')
  {
    hide MayReplace, GoodEdges, GoodDefs, GoodOps;
    forall phi | phi in s'.phis
      ensures PhiOk(c, s', phi)
    {
      assert PhiOk(c, s, phi);
      SubstOpsOk(c, s, x, y, phi);
    }
  }

  lemma DropLoadDefs(c: Ctx, s: Pass, s': Pass, cur: Cursor)
    requires DefOk(c, s, cur)
    requires s'.defMap == s.defMap && s'.filled == s.filled && s'.next == s.next
    requires s'.phis.Keys == s.phis.Keys && s.replacement.Keys <= s'.replacement.Keys
    ensures DefOk(c, s', cur)
  {
    hide Sound, NoStores;
    forall b: nat, a: nat | (b, a) in s'.defMap
      ensures EntryOk(c, s', cur, b, a, s'.defMap[(b, a)])
    {
      assert EntryOk(c, s, cur, b, a, s.defMap[(b, a)]);
    }
    forall b: nat, a: nat | Readable(c, s', cur, b) && a in c.P && (b, a) !in s'.defMap
      ensures NoStores(c, b, a, Point(c, s', cur, b))
    {
      assert Readable(c, s, cur, b);
    }
  }

  lemma DropLoadBlocks(c: Ctx, s: Pass, cur: Cursor, hist: History, y: Value)
    requires GoodDefs(c) && BlocksOk(c, s, hist)
    requires AtInstr(c, s, cur) && CurInstr(c, cur).Load? && !Replaced(hist, Instr(CurInstr(c, cur).id))
    ensures var b := cur.block; var x := Instr(CurInstr(c, cur).id);
              var i := |Rewrite(hist, c.f.blocks[b].body[..cur.k])|;
            b < |s.blocks| && i < |s.blocks[b].body| && BlocksOk(c, DropLoad(s, b, i, x, y), hist + [(x, y)])
  {
    var b, x := cur.block, Instr(CurInstr(c, cur).id);
    var i := |Rewrite(hist, c.f.blocks[b].body[..cur.k])|;
    assert BlockOk(c, s, hist, b);
    assert c.defs[x] == (b, cur.k + 1);
    RewriteLoad(hist, y, c.f.blocks[b].body, cur.k);
    ChaseAppend(hist, x, y);
    var s' := DropLoad(s, b, i, x, y);
    forall b' | 0 <= b' < |s'.blocks|
      ensures BlockOk(c, s', hist + [(x, y)], b')
    {
      if b' != b {
        ReplaceUsesBlock(c, s, hist, x, y, b');
        assert s'.blocks[b'] == ReplaceUses(s, x, y).blocks[b'];
      }
    }
  }

  lemma DropLoadPendings(c: Ctx, s: Pass, s': Pass, busy: Value, x: Value, y: Value)
    requires PendingsOk(c, s, busy)
    requires s'.incomplete == s.incomplete && s'.defMap == s.defMap && s'.sealed == s.sealed
    requires s'.phis == ReplaceUses(s, x, y).phis
    ensures PendingsOk(c, s', busy)
  {
    forall i | 0 <= i < |s'.incomplete|
      ensures PendingOk(c, s', busy, i)
    {
      assert PendingOk(c, s, busy, i);
    }
  }

  /** The current load is replaced by a value equal to its slot and removed. */
  lemma DropLoadInv(c: Ctx, s: Pass, cur: Cursor, busy: Value, hist: History, a: nat, y: Value)
    requires Inv(c, s, cur, busy, hist) && AtInstr(c, s, cur)
    requires CurInstr(c, cur).Load? && CurInstr(c, cur).addr == Instr(a) && a in c.P
    requires Live(c, s, y) && Sound(c, y, SlotOf(a), cur.block, cur.k)
    ensures var b := cur.block; var x := Instr(CurInstr(c, cur).id);
              var i := |Rewrite(hist, c.f.blocks[b].body[..cur.k])|;
            b < |s.blocks| && i < |s.blocks[b].body| &&
            Inv(c, DropLoad(s, b, i, x, y), Advance(cur), busy, hist + [(x, y)])
  {
    hide GoodDefs, GoodEdges, GoodUses, GoodPhis, GoodSlots, MayReplace, Sound;
    var b, x := cur.block, Instr(CurInstr(c, cur).id);
    var hist' := hist + [(x, y)];
    LoadIsFresh(c, s, cur, hist);
    LoadIsNoSlot(c, b, cur.k);
    LoadReplace(c, y, a, b, cur.k);
    LoadNotItself(c, x, y, a, b, cur.k);
    DropLoadBlocks(c, s, cur, hist, y);
    var i := |Rewrite(hist, c.f.blocks[b].body[..cur.k])|;
    var s' := DropLoad(s, b, i, x, y);
    assert x !in s.phis by { if x in s.phis { assert PhiOk(c, s, x); PhiIsPhi(c, s, x); } }
    DropLoadLinks(c, s, s', cur, hist, x, y);
    LiveNotReplaced(s, hist, x);
    LiveNotReplaced(s, hist, y);
    HistMapAppend(s, s', hist, x, y);
    LoadsGoneAppend(c, s, s', cur, hist, x, y);
    ReplacedAppend(hist, x, y, x);
    AdvanceLoads(c, s', cur, hist');
    ReplacePhis(c, s, s', x, y);
    DropLoadDefs(c, s, s', cur);
    AdvanceDefs(c, s', cur);
    DropLoadPendings(c, s, s', busy, x, y);
    hide DefOk, HistLinks, LoadsGone, HistMap, PhisOk, PendingsOk, BlocksOk;
  }

  lemma LoadNotItself(c: Ctx, x: Value, y: Value, a: nat, b: nat, k: nat)
    requires GoodDefs(c) && GoodEdges(c) && Reachable(c.f, b) && b < |c.f.blocks| && k < Len(c, b)
    requires c.f.blocks[b].body[k].Load? && x == Instr(c.f.blocks[b].body[k].id)
    requires Sound(c, y, SlotOf(a), b, k)
    ensures x != y
  {
    SoundIsAvail(c, y, SlotOf(a), b, k);
    hide Sound;
    assert c.defs[x] == (b, k + 1);
    var path := PathInto(c, b);
    if !y.Const? && !y.Arg? {
      AvailBefore(c, y, b, k, path);
    }
  }

  // ---------------------------------------------------------------- blocks

  /** A walked block counts as filled; the walk goes on at the next block. */
  lemma FillInv(c: Ctx, s: Pass, cur: Cursor, hist: History)
    requires Inv(c, s, cur, Const(0), hist)
    requires cur.block < |c.f.blocks| && cur.k == Len(c, cur.block)
    requires cur.block + 1 !in s.filled
    ensures Inv(c, s.(filled := s.filled + {cur.block}), Cursor(cur.block + 1, 0), Const(0), hist)
  {
    hide WellFormed, MayReplace, Sound, NoStores, GoodOps;
    var s' := s.(filled := s.filled + {cur.block});
    var cur' := Cursor(cur.block + 1, 0);
    LinksKept(c, s, s', cur, cur', hist);
    FillDefs(c, s, cur);
    forall b: nat, j: nat | SlotLoad(c, b, j) && Processed(s', cur', b, j)
      ensures Replaced(hist, Instr(c.f.blocks[b].body[j].id))
    {
      assert Processed(s, cur, b, j);
    }
    forall q | q in s'.phis
      ensures PhiOk(c, s', q)
    {
      assert PhiOk(c, s, q);
      KeepOtherPhi(c, s, s', q);
    }
    forall b | 0 <= b < |s'.blocks|
      ensures BlockOk(c, s', hist, b)
    {
      assert BlockOk(c, s, hist, b);
    }
    forall i | 0 <= i < |s'.incomplete|
      ensures PendingOk(c, s', Const(0), i)
    {
      assert PendingOk(c, s, Const(0), i);
    }
  }

  lemma FillDefs(c: Ctx, s: Pass, cur: Cursor)
    requires DefOk(c, s, cur)
    requires cur.block < |c.f.blocks| && cur.k == Len(c, cur.block)
    ensures DefOk(c, s.(filled := s.filled + {cur.block}), Cursor(cur.block + 1, 0))
  {
    hide Sound, NoStores;
    var s' := s.(filled := s.filled + {cur.block});
    var cur' := Cursor(cur.block + 1, 0);
    forall b: nat, a: nat | (b, a) in s'.defMap
      ensures EntryOk(c, s', cur', b, a, s'.defMap[(b, a)])
    {
      assert EntryOk(c, s, cur, b, a, s.defMap[(b, a)]);
    }
    forall b: nat, a: nat | Readable(c, s', cur', b) && a in c.P && (b, a) !in s'.defMap
      ensures NoStores(c, b, a, Point(c, s', cur', b))
    {
      if b == cur'.block && b !in s'.filled {
        NoStoresAtTop(c, b, a);
      } else {
        assert Readable(c, s, cur, b);
      }
    }
  }

  lemma NoStoresAtTop(c: Ctx, b: nat, a: nat)
    ensures NoStores(c, b, a, 0)
  {
  }

  lemma SealInv(c: Ctx, s: Pass, cur: Cursor, hist: History, b: nat)
    requires Inv(c, s, cur, Const(0), hist)
    requires b < |c.preds| && forall p :: p in c.preds[b] ==> p in s.filled
    requires forall i :: 0 <= i < |s.incomplete| ==> s.incomplete[i].block != b
    ensures Inv(c, s.(sealed := s.sealed + {b}), cur, Const(0), hist)
  {
    hide WellFormed, MayReplace, Sound, NoStores, GoodOps;
    var s' := s.(sealed := s.sealed + {b});
    LinksKept(c, s, s', cur, cur, hist);
    DropLoadDefs(c, s, s', cur);
    forall b: nat, j: nat | SlotLoad(c, b, j) && Processed(s', cur, b, j)
      ensures Replaced(hist, Instr(c.f.blocks[b].body[j].id))
    {
      assert Processed(s, cur, b, j);
    }
    forall q | q in s'.phis
      ensures PhiOk(c, s', q)
    {
      assert PhiOk(c, s, q);
      KeepOtherPhi(c, s, s', q);
    }
    forall b | 0 <= b < |s'.blocks|
      ensures BlockOk(c, s', hist, b)
    {
      assert BlockOk(c, s, hist, b);
    }
    forall i | 0 <= i < |s'.incomplete|
      ensures PendingOk(c, s', Const(0), i)
    {
      assert PendingOk(c, s, Const(0), i);
    }
  }
}
