/** The sealing protocol and the walk over the block list: a block is sealed once all
    its predecessors have been walked, its waiting phis are completed then, and at the
    end no phi waits. */
module SsaSeals {
  import opened IR
  import opened Cfg
  import opened SsaPaths
  import opened SsaFacts
  import opened SsaState
  import opened SsaSteps
  import opened SsaWalk
  import opened SsaReads

  ghost predicate AllFilled(preds: seq<nat>, filled: set<nat>) {
    forall p :: p in preds ==> p in filled
  }

  /** Every block that could be sealed is, except entries of which no walk has begun. */
  ghost predicate SealsDone(preds: seq<seq<nat>>, s: Pass, n: nat) {
    forall b :: 0 <= b < |preds| && AllFilled(preds[b], s.filled) && (b < n || preds[b] != []) ==> b in s.sealed
  }

  // ---------------------------------------------------------------- sealing

  lemma SealReady(c: Ctx, s: Pass, cur: Cursor, hist: History, b: nat, i: nat)
    requires Inv(c, s, cur, Const(0), hist) && AllDone(c, s, 0)
    requires i < |s.incomplete| && s.incomplete[i].block == b && b < |c.preds| && AllFilled(c.preds[b], s.filled)
    ensures var p := s.incomplete[i];
            Inv(c, s, cur, p.phi, hist) && Filling(c, s, p.phi, p.slot, 0) && PendingOnly(s, p.phi, p.phi) &&
            Isolated(s, 0) && AllDoneBut(c, s, 0, p.phi)
  {
    hide HistOk, BlocksOk, GoodEdges, GoodDefs, GoodUses, GoodPhis, GoodSlots, Sound, NoStores, Complete;
    var p := s.incomplete[i];
    assert PendingOk(c, s, Const(0), i);
    assert PhiOk(c, s, p.phi);
    assert EntryOk(c, s, cur, p.block, p.slot, s.defMap[(p.block, p.slot)]);
    forall j | 0 <= j < |s.incomplete|
      ensures PendingOk(c, s, p.phi, j)
    {
      assert PendingOk(c, s, Const(0), j);
    }
  }

  lemma SealStep(c: Ctx, s: Pass, s': Pass, cur: Cursor, hist: History, hist': History, b: nat, i: nat)
    requires i < |s.incomplete| && s.incomplete[i].block == b
    requires (b, s.incomplete[i].slot) in s.defMap
    requires Inv(c, s', cur, s.incomplete[i].phi, hist')
    requires Frame(s, s', hist, hist', 0) && AllDone(c, s', 0) && NewPendings(s, s', s.incomplete[i].slot)
    requires s.incomplete[i].phi in s'.phis ==> Complete(c.preds, s'.phis[s.incomplete[i].phi])
    requires forall j :: i < j < |s.incomplete| ==> s.incomplete[j].block != b
    ensures var s'' := s'.(incomplete := s'.incomplete[..i] + s'.incomplete[i + 1..]);
            Inv(c, s'', cur, Const(0), hist') && AllDone(c, s'', 0) &&
            forall j :: i <= j < |s''.incomplete| ==> s''.incomplete[j].block != b
  {
    assert s'.incomplete[i] == s'.incomplete[..|s.incomplete|][i];
    hide Inv, Complete, AllDone;
    UnpendInv(c, s', cur, hist', i);
    UnpendDone(c, s', i);
    var s'' := s'.(incomplete := s'.incomplete[..i] + s'.incomplete[i + 1..]);
    forall j | i <= j < |s''.incomplete|
      ensures s''.incomplete[j].block != b
    {
      assert s''.incomplete[j] == s'.incomplete[j + 1];
      if j + 1 < |s.incomplete| {
        assert s'.incomplete[j + 1] == s'.incomplete[..|s.incomplete|][j + 1];
      }
    }
  }

  lemma UnpendDone(c: Ctx, s: Pass, i: nat)
    requires AllDone(c, s, 0) && i < |s.incomplete|
    requires s.incomplete[i].phi in s.phis ==> Complete(c.preds, s.phis[s.incomplete[i].phi])
    ensures AllDone(c, s.(incomplete := s.incomplete[..i] + s.incomplete[i + 1..]), 0)
  {
    hide Complete;
    var s' := s.(incomplete := s.incomplete[..i] + s.incomplete[i + 1..]);
    forall q | q in s'.phis
      ensures Done(c, s', q)
    {
      assert Done(c, s, q);
      if j :| 0 <= j < |s.incomplete| && s.incomplete[j].phi == q && j != i {
        assert s'.incomplete[if j < i then j else j - 1].phi == q;
      }
    }
  }

  lemma PendingDefined(c: Ctx, s: Pass, cur: Cursor, hist: History, i: nat)
    requires Inv(c, s, cur, Const(0), hist) && i < |s.incomplete|
    ensures (s.incomplete[i].block, s.incomplete[i].slot) in s.defMap
  {
    hide HistOk, BlocksOk, DefOk, PhisOk, WellFormed, SealsOk;
    assert PendingOk(c, s, Const(0), i);
  }

  lemma SealEnd(c: Ctx, s: Pass, cur: Cursor, hist: History, b: nat)
    requires Inv(c, s, cur, Const(0), hist) && AllDone(c, s, 0)
    requires b < |c.preds| && AllFilled(c.preds[b], s.filled)
    requires forall i :: 0 <= i < |s.incomplete| ==> s.incomplete[i].block != b
    ensures var s' := s.(sealed := s.sealed + {b}); Inv(c, s', cur, Const(0), hist) && AllDone(c, s', 0)
  {
    SealInv(c, s, cur, hist, b);
    hide Inv, Complete;
    forall q | q in s.phis
      ensures Done(c, s.(sealed := s.sealed + {b}), q)
    {
      assert Done(c, s, q);
    }
  }

  // ---------------------------------------------------------------- walking

  lemma BlockLen(c: Ctx, s: Pass, cur: Cursor, busy: Value, hist: History, b: nat)
    requires Inv(c, s, cur, busy, hist)
    ensures |s.blocks| == |c.f.blocks| == |c.preds|
    ensures b < |c.f.blocks| ==>
              s.blocks[b].body == Rewrite(hist, c.f.blocks[b].body) &&
              s.blocks[b].term == ChaseTerm(hist, c.f.blocks[b].term)
  {
    hide HistOk, DefOk, PhisOk, PendingsOk, SealsOk, GoodDefs, GoodUses, GoodPhis, GoodSlots;
    if b < |c.f.blocks| {
      assert BlockOk(c, s, hist, b);
    }
  }

  /** The current instruction, renamed, is the next one in the rewritten block; if there
      is none the block has been walked. */
  lemma WalkAt(c: Ctx, s: Pass, cur: Cursor, busy: Value, hist: History, i: nat)
    requires Inv(c, s, cur, busy, hist) && cur.block < |c.f.blocks|
    requires i == |Rewrite(hist, c.f.blocks[cur.block].body[..cur.k])|
    ensures cur.block < |s.blocks|
    ensures cur.k < Len(c, cur.block) ==>
      i < |s.blocks[cur.block].body| && s.blocks[cur.block].body[i] == ChaseInstr(hist, CurInstr(c, cur)) &&
      !Gone(hist, CurInstr(c, cur)) &&
      |Rewrite(hist, c.f.blocks[cur.block].body[..cur.k + 1])| == i + 1
    ensures cur.k == Len(c, cur.block) ==> i == |s.blocks[cur.block].body|
  {
    hide Inv, Gone, Rewrite, ChaseInstr, ChaseTerm;
    BlockLen(c, s, cur, busy, hist, cur.block);
    var body := c.f.blocks[cur.block].body;
    if cur.k < |body| {
      NotGoneYet(c, s, cur, busy, hist);
      RewriteAt(hist, body, cur.k);
    } else if cur.k == |body| {
      assert body[..cur.k] == body;
    }
  }

  lemma RewriteAt(hist: History, body: seq<Instruction>, k: nat)
    requires k < |body| && !Gone(hist, body[k])
    ensures var i := |Rewrite(hist, body[..k])|;
            i < |Rewrite(hist, body)| && Rewrite(hist, body)[i] == ChaseInstr(hist, body[k]) &&
              |Rewrite(hist, body[..k + 1])| == i + 1
  {
    hide Gone, Rewrite, ChaseInstr;
    RewriteAround(hist, body, k);
    assert body[..k + 1] == body[..k] + [body[k]];
    RewriteConcat(hist, body[..k], [body[k]]);
    RewriteOne(hist, body[k]);
  }

  lemma NotGoneYet(c: Ctx, s: Pass, cur: Cursor, busy: Value, hist: History)
    requires Inv(c, s, cur, busy, hist) && cur.block < |c.f.blocks| && cur.k < Len(c, cur.block)
    ensures !Gone(hist, CurInstr(c, cur))
  {
    hide DefOk, PhisOk, PendingsOk, BlocksOk, GoodEdges, GoodDefs, GoodUses, GoodPhis, GoodSlots, HistMap, HistLinks,
      LoadsGone;
    if CurInstr(c, cur).Load? {
      LoadIsFresh(c, s, cur, hist);
    }
  }

  /** The kind of the current instruction can be read off its renamed form. */
  lemma CurKind(c: Ctx, s: Pass, cur: Cursor, busy: Value, hist: History)
    requires Inv(c, s, cur, busy, hist) && cur.block < |c.f.blocks| && cur.k < Len(c, cur.block)
    ensures var i, i' := CurInstr(c, cur), ChaseInstr(hist, CurInstr(c, cur));
            && (i.Store? <==> i'.Store?) && (i.Load? <==> i'.Load?)
            && (i.Store? ==> i'.val == Chase(hist, i.val))
            && (i.Load? ==> i'.id == i.id)
            && (i.Store? || i.Load? ==> (IsSlot(i.addr, c.P) <==> IsSlot(i'.addr, c.P)))
            && ((i.Store? || i.Load?) && IsSlot(i.addr, c.P) ==> i'.addr == i.addr)
  {
    hide DefOk, PhisOk, PendingsOk, BlocksOk, GoodEdges, GoodDefs, GoodUses, GoodPhis, GoodSlots, HistMap, HistLinks,
      LoadsGone;
    var i := CurInstr(c, cur);
    ChaseInstrShape(hist, i);
    if i.Store? || i.Load? {
      ChaseSlot(c, s, cur, hist, i.addr);
    }
  }

  lemma {:induction false} SameLength(hist: History, hist': History, body: seq<Instruction>)
    requires forall i :: 0 <= i < |body| ==> (Gone(hist, body[i]) <==> Gone(hist', body[i]))
    ensures |Rewrite(hist, body)| == |Rewrite(hist', body)|
  {
    if body != [] {
      SameLength(hist, hist', body[..|body| - 1]);
    }
  }

  /** A read replaces new phis only, so no load disappears. */
  lemma ReadLength(s: Pass, s': Pass, hist: History, hist': History, body: seq<Instruction>)
    requires Frame(s, s', hist, hist', s.next + 1)
    ensures |Rewrite(hist, body)| == |Rewrite(hist', body)|
  {
    forall i | 0 <= i < |body|
      ensures Gone(hist, body[i]) <==> Gone(hist', body[i])
    {
      if body[i].Load? {
        var v := Instr(body[i].id);
        if j :| 0 <= j < |hist| && hist[j].0 == v {
          assert hist'[..|hist|][j] == hist'[j];
        }
        if j :| 0 <= j < |hist'| && hist'[j].0 == v {
          assert Rank(hist'[j].0) == 0;
          assert hist'[j] == hist[j];
        }
      }
    }
    SameLength(hist, hist', body);
  }

  lemma AllDoneStays(c: Ctx, s: Pass, s': Pass, hist: History, hist': History, addr: nat)
    requires AllDone(c, s, 0) && ReadFrame(c, s, s', hist, hist', addr)
    ensures AllDone(c, s', 0)
  {
    hide Complete;
    forall q | q in s'.phis
      ensures Done(c, s', q)
    {
      if Rank(q) < s.next + 1 {
        assert Done(c, s, q);
        if i :| 0 <= i < |s.incomplete| && s.incomplete[i].phi == q {
          assert s'.incomplete[i] == s.incomplete[i];
        }
      }
    }
  }

  lemma DoneSamePhis(c: Ctx, s: Pass, s': Pass)
    requires AllDone(c, s, 0) && s'.phis == s.phis && s'.incomplete == s.incomplete
    ensures AllDone(c, s', 0)
  {
    hide Complete;
    forall q | q in s'.phis
      ensures Done(c, s', q)
    {
      assert Done(c, s, q);
    }
  }

  lemma DoneReplaced(c: Ctx, s: Pass, s': Pass, x: Value, y: Value)
    requires AllDone(c, s, 0) && s'.phis == ReplaceUses(s, x, y).phis && s'.incomplete == s.incomplete
    ensures AllDone(c, s', 0)
  {
    forall q | q in s'.phis
      ensures Done(c, s', q)
    {
      assert Done(c, s, q);
      assert Preds(s'.phis[q].ops) == Preds(s.phis[q].ops);
    }
  }

  /** After the current load is gone the position in the rewritten block is the same. */
  lemma LoadLength(hist: History, y: Value, body: seq<Instruction>, k: nat)
    requires k < |body| && body[k].Load?
    requires forall i :: 0 <= i < |body| && i != k && body[i].Load? ==> body[i].id != body[k].id
    ensures |Rewrite(hist + [(Instr(body[k].id), y)], body[..k + 1])| == |Rewrite(hist, body[..k])|
  {
    var x := Instr(body[k].id);
    var hist' := hist + [(x, y)];
    assert body[..k + 1] == body[..k] + [body[k]];
    RewriteConcat(hist', body[..k], [body[k]]);
    RewriteOne(hist', body[k]);
    ReplacedAppend(hist, x, y, x);
    RewriteSubst(hist, x, y, body[..k]);
  }

  lemma UniqueLoad(c: Ctx, b: nat, k: nat)
    requires GoodDefs(c) && b < |c.f.blocks| && k < Len(c, b) && c.f.blocks[b].body[k].Load?
    ensures forall i :: 0 <= i < Len(c, b) && i != k && c.f.blocks[b].body[i].Load? ==>
      c.f.blocks[b].body[i].id != c.f.blocks[b].body[k].id
  {
  }

  /** Everything about the walk over a promoted load, once its value has been read. */
  lemma LoadStep(c: Ctx, s: Pass, cur: Cursor, hist: History, a: nat, y: Value, i: nat)
    requires Inv(c, s, cur, Const(0), hist) && AllDone(c, s, 0) && AtInstr(c, s, cur)
    requires CurInstr(c, cur).Load? && CurInstr(c, cur).addr == Instr(a) && a in c.P
    requires Live(c, s, y) && Sound(c, y, SlotOf(a), cur.block, cur.k)
    requires i == |Rewrite(hist, c.f.blocks[cur.block].body[..cur.k])|
    ensures var x := Instr(CurInstr(c, cur).id); var b := cur.block;
            b < |s.blocks| && i < |s.blocks[b].body| && HistMap(s, hist) && Chase(hist, y) == y &&
            Inv(c, DropLoad(s, b, i, x, y), Advance(cur), Const(0), hist + [(x, y)]) &&
            AllDone(c, DropLoad(s, b, i, x, y), 0) &&
            |Rewrite(hist + [(x, y)], c.f.blocks[b].body[..cur.k + 1])| == i
  {
    hide GoodEdges, GoodDefs, GoodUses, GoodPhis, GoodSlots, HistLinks, LoadsGone, DefOk, PhisOk, PendingsOk, BlocksOk,
      SealsOk, Sound, AllDone, Rewrite, HistMap, Chase;
    BlockLen(c, s, cur, Const(0), hist, cur.block);
    DropLoadInv(c, s, cur, Const(0), hist, a, y);
    UniqueLoad(c, cur.block, cur.k);
    LoadLength(hist, y, c.f.blocks[cur.block].body, cur.k);
    LiveStays(s, hist, y);
    DoneReplaced(c, s, DropLoad(s, cur.block, i, Instr(CurInstr(c, cur).id), y), Instr(CurInstr(c, cur).id), y);
  }

  lemma NoSlotStore(c: Ctx, cur: Cursor)
    requires cur.block < |c.f.blocks| && cur.k < Len(c, cur.block)
    requires CurInstr(c, cur).Store? ==> !IsSlot(CurInstr(c, cur).addr, c.P)
    ensures forall a :: a in c.P ==> !StoresTo(CurInstr(c, cur), a)
  {
  }

  lemma AtCurrent(c: Ctx, s: Pass, cur: Cursor, busy: Value, hist: History)
    requires Inv(c, s, cur, busy, hist) && cur.block < |c.f.blocks|
    ensures cur.k <= Len(c, cur.block) && cur.block !in s.filled
    ensures cur.k < Len(c, cur.block) ==> AtInstr(c, s, cur)
    ensures Readable(c, s, cur, cur.block) && Point(c, s, cur, cur.block) == cur.k
    ensures exists path :: PathTo(c.f, path, cur.block)
  {
    hide HistOk, DefOk, PhisOk, PendingsOk, BlocksOk, GoodDefs, GoodUses, GoodPhis, GoodSlots;
    assert Reachable(c.f, cur.block);
  }

  // ---------------------------------------------------------------- block ends

  lemma ChaseSuccs(hist: History, t: Terminator)
    ensures Succs(ChaseTerm(hist, t)) == Succs(t)
  {
    ChaseTermShape(hist, t);
  }

  lemma FillReady(c: Ctx, s: Pass, cur: Cursor, hist: History, bb: nat)
    requires Inv(c, s, cur, Const(0), hist)
    requires cur == Cursor(bb, Len(c, bb)) && bb < |c.preds| && bb + 1 !in s.filled
    ensures GoodEdges(c)
    ensures |s.blocks| == |c.f.blocks| == |c.preds|
    ensures Succs(s.blocks[bb].term) == Succs(c.f.blocks[bb].term)
    ensures forall j :: 0 <= j < |Succs(s.blocks[bb].term)| ==> Succs(s.blocks[bb].term)[j] < |c.preds|
    ensures Inv(c, s.(filled := s.filled + {bb}), Cursor(bb + 1, 0), Const(0), hist)
  {
    BlockLen(c, s, cur, Const(0), hist, bb);
    FillInv(c, s, cur, hist);
    hide HistOk, DefOk, PhisOk, PendingsOk, BlocksOk, SealsOk, GoodDefs, GoodUses, GoodPhis, GoodSlots;
    ChaseSuccs(hist, c.f.blocks[bb].term);
    var succs := Succs(s.blocks[bb].term);
    forall j | 0 <= j < |succs|
      ensures succs[j] < |c.preds|
    {
      assert succs[j] in Succs(c.f.blocks[bb].term);
    }
  }

  lemma BlocksReady(c: Ctx, s: Pass, cur: Cursor, hist: History)
    requires Inv(c, s, cur, Const(0), hist) && s.filled == {}
    ensures |s.blocks| == |c.f.blocks| == |c.preds|
    ensures SealsDone(c.preds, s, 0)
  {
    BlockLen(c, s, cur, Const(0), hist, 0);
    hide HistOk, DefOk, PhisOk, PendingsOk, BlocksOk, SealsOk, GoodDefs, GoodUses, GoodPhis, GoodSlots, SealsDone;
    SealsStart(c, s);
  }

  lemma SealsAfterFill(c: Ctx, s: Pass, s': Pass, bb: nat, succs: seq<nat>)
    requires GoodEdges(c) && bb < |c.f.blocks| && succs == Succs(c.f.blocks[bb].term)
    requires SealsDone(c.preds, s, bb + 1)
    requires s'.filled == s.filled + {bb} && s.sealed <= s'.sealed
    requires forall t :: t in succs && t < |c.preds| && AllFilled(c.preds[t], s'.filled) ==> t in s'.sealed
    ensures SealsDone(c.preds, s', bb + 1)
  {
    forall b | 0 <= b < |c.preds| && AllFilled(c.preds[b], s'.filled) && (b < bb + 1 || c.preds[b] != [])
      ensures b in s'.sealed
    {
      if bb in c.preds[b] {
        assert Edge(c.f, bb, b);
      } else {
        assert AllFilled(c.preds[b], s.filled);
      }
    }
  }

  lemma PendingBlock(c: Ctx, s: Pass, cur: Cursor, hist: History, i: nat)
    requires Inv(c, s, cur, Const(0), hist) && i < |s.incomplete|
    ensures s.incomplete[i].block < |c.preds| && s.incomplete[i].block !in s.sealed
  {
    hide HistOk, BlocksOk, PhisOk, GoodDefs, GoodUses, GoodPhis, GoodSlots;
    assert PendingOk(c, s, Const(0), i);
    var p := s.incomplete[i];
    assert EntryOk(c, s, cur, p.block, p.slot, s.defMap[(p.block, p.slot)]);
  }

  lemma NothingPending(c: Ctx, s: Pass, cur: Cursor, hist: History)
    requires Inv(c, s, cur, Const(0), hist) && AllDone(c, s, 0)
    requires forall b :: 0 <= b < |c.preds| ==> b in s.filled
    requires SealsDone(c.preds, s, |c.preds|)
    ensures s.incomplete == []
    ensures forall b :: 0 <= b < |c.preds| ==> b in s.sealed
    ensures forall phi :: phi in s.phis ==> Complete(c.preds, s.phis[phi])
  {
    forall b | 0 <= b < |c.preds|
      ensures b in s.sealed
    {
      assert forall p :: p in c.preds[b] ==> Edge(c.f, p, b);
      assert AllFilled(c.preds[b], s.filled);
    }
    hide HistOk, BlocksOk, PhisOk, GoodDefs, GoodUses, GoodPhis, GoodSlots, Complete;
    if s.incomplete != [] {
      PendingBlock(c, s, cur, hist, 0);
    }
    forall phi | phi in s.phis
      ensures Complete(c.preds, s.phis[phi])
    {
      assert Done(c, s, phi);
    }
  }

  lemma FrameSets(s: Pass, s': Pass, hist: History, hist': History, lo: nat)
    requires Frame(s, s', hist, hist', lo)
    ensures s'.sealed == s.sealed && s'.filled == s.filled && |s.incomplete| <= |s'.incomplete|
  {
  }

  lemma AfterRead(c: Ctx, s0: Pass, s1: Pass, cur: Cursor, h0: History, h1: History, a: nat)
    requires ReadFrame(c, s0, s1, h0, h1, a) && AllDone(c, s0, 0)
    requires cur.block < |c.f.blocks| && cur.k <= Len(c, cur.block)
    ensures AllDone(c, s1, 0)
    ensures s1.sealed == s0.sealed && s1.filled == s0.filled
    ensures |Rewrite(h1, c.f.blocks[cur.block].body[..cur.k])| == |Rewrite(h0, c.f.blocks[cur.block].body[..cur.k])|
  {
    AllDoneStays(c, s0, s1, h0, h1, a);
    hide AllDone, NewPendings;
    ReadLength(s0, s1, h0, h1, c.f.blocks[cur.block].body[..cur.k]);
  }

  lemma SealsStart(c: Ctx, s: Pass)
    requires GoodEdges(c) && s.filled == {}
    ensures SealsDone(c.preds, s, 0)
  {
    forall b | 0 <= b < |c.preds| && c.preds[b] != []
      ensures !AllFilled(c.preds[b], s.filled)
    {
      assert c.preds[b][0] in c.preds[b];
    }
  }

  lemma SealsHere(preds: seq<seq<nat>>, s: Pass, s': Pass, bb: nat)
    requires bb < |preds| && SealsDone(preds, s, bb)
    requires s'.filled == s.filled && s.sealed <= s'.sealed
    requires AllFilled(preds[bb], s.filled) ==> bb in s'.sealed
    ensures SealsDone(preds, s', bb + 1)
  {
  }

  lemma SealsKept(preds: seq<seq<nat>>, s: Pass, s': Pass, n: nat)
    requires SealsDone(preds, s, n) && s'.filled == s.filled && s'.sealed == s.sealed
    ensures SealsDone(preds, s', n)
  {
  }
}
