/** Why reads keep the tables in order: a read touches only what it creates, a phi under
    completion gets one operand per predecessor, and reading stops because every join
    defines its slot before it goes on. */
module SsaReads {
  import opened IR
  import opened Cfg
  import opened Collections
  import opened SsaPaths
  import opened SsaFacts
  import opened SsaState
  import opened SsaSteps

  predicate UsesIn(ops: seq<(Value, nat)>, v: Value) {
    exists i :: 0 <= i < |ops| && ops[i].0 == v
  }

  /** The operand pairs without the first one whose value is v. */
  function RemoveFirst(ops: seq<(Value, nat)>, v: Value): seq<(Value, nat)> {
    if ops == [] then []
    else if ops[0].0 == v then ops[1..]
    else [ops[0]] + RemoveFirst(ops[1..], v)
  }

  ghost function Pairs(c: Ctx): set<(nat, nat)> {
    set b: nat, a: nat | 0 <= b < |c.f.blocks| && a in c.P :: (b, a)
  }

  /** How many (block, slot) pairs have no definition yet. */
  ghost function Missing(c: Ctx, defMap: map<(nat, nat), Value>): nat {
    |Pairs(c) - defMap.Keys|
  }

  lemma MissingShrinks(c: Ctx, d: map<(nat, nat), Value>, d': map<(nat, nat), Value>)
    requires d.Keys <= d'.Keys
    ensures Missing(c, d') <= Missing(c, d)
    ensures forall key :: key in Pairs(c) && key !in d && key in d' ==> Missing(c, d') < Missing(c, d)
  {
    SubsetCard(Pairs(c) - d'.Keys, Pairs(c) - d.Keys);
    forall key | key in Pairs(c) && key !in d && key in d'
      ensures Missing(c, d') < Missing(c, d)
    {
      SubsetCard(Pairs(c) - d'.Keys, Pairs(c) - d.Keys - {key});
    }
  }

  // ---------------------------------------------------------------- frames

  lemma DropPhiFrame(c: Ctx, s: Pass, hist: History, x: Value, y: Value, lo: nat)
    requires Rank(x) >= lo && Isolated(s, lo) && AllDone(c, s, lo)
    ensures Frame(s, DropPhi(s, x, y), hist, hist + [(x, y)], lo)
    ensures Isolated(DropPhi(s, x, y), lo)
    ensures AllDone(c, DropPhi(s, x, y), lo)
    ensures SamePreds(s, DropPhi(s, x, y))
  {
    var s' := DropPhi(s, x, y);
    forall phi | Rank(phi) < lo && phi in s.phis
      ensures s'.phis[phi] == s.phis[phi]
    {
      assert SubstOps(x, y, s.phis[phi].ops) == s.phis[phi].ops;
    }
    forall phi | phi in s'.phis
      ensures s'.phis[phi].block == s.phis[phi].block && Preds(s'.phis[phi].ops) == Preds(s.phis[phi].ops)
    {
    }
    forall phi | phi in s'.phis && Rank(phi) >= lo
      ensures Done(c, s', phi)
    {
      assert Done(c, s, phi);
    }
  }

  /** Phis may go, and values may be renamed, but predecessors stay. */
  ghost predicate SamePreds(s: Pass, s': Pass) {
    forall phi :: phi in s'.phis ==>
      phi in s.phis && s'.phis[phi].block == s.phis[phi].block && Preds(s'.phis[phi].ops) == Preds(s.phis[phi].ops)
  }

  /** Values in use are older than the next phi, so reads cannot touch their phis. */
  lemma IsolatedNow(c: Ctx, s: Pass)
    requires PhisOk(c, s)
    ensures Isolated(s, s.next + 1)
    ensures AllDone(c, s, s.next + 1)
    ensures forall phi :: phi in s.phis ==> Rank(phi) < s.next + 1
  {
    hide GoodOps;
    forall phi, i | phi in s.phis && Rank(phi) < s.next + 1 && 0 <= i < |s.phis[phi].ops|
      ensures Rank(s.phis[phi].ops[i].0) < s.next + 1
    {
      assert PhiOk(c, s, phi);
      assert Live(c, s, s.phis[phi].ops[i].0);
    }
    forall phi | phi in s.phis
      ensures Rank(phi) < s.next + 1
    {
      assert PhiOk(c, s, phi);
    }
  }

  /** What a read promises about the tables. */
  ghost predicate ReadFrame(c: Ctx, s: Pass, s': Pass, hist: History, hist': History, slot: nat) {
    && Frame(s, s', hist, hist', s.next + 1)
    && AllDone(c, s', s.next + 1)
    && NewPendings(s, s', slot)
  }

  /** Phis that started to wait do so in blocks without a definition of the slot. */
  ghost predicate NewPendings(s: Pass, s': Pass, slot: nat) {
    forall i :: |s.incomplete| <= i < |s'.incomplete| ==>
      s'.incomplete[i].slot == slot && (s'.incomplete[i].block, s'.incomplete[i].slot) !in s.defMap
  }

  // ---------------------------------------------------------------- following replacements

  lemma {:induction false} ChaseSkip(hist: History, n: nat, m: nat, v: Value)
    requires n <= m <= |hist|
    requires forall j :: n <= j < m ==> hist[j].0 != Chase(hist[..n], v)
    ensures Chase(hist[..m], v) == Chase(hist[..n], v)
  {
    if n < m {
      assert hist[..m][..m - 1] == hist[..m - 1];
      ChaseSkip(hist, n, m - 1, v);
    }
  }

  /** One link of the chain: it comes later in the history than those before it. */
  lemma WhereReplaced(s: Pass, hist: History, v: Value) returns (j: nat)
    requires HistMap(s, hist) && v in s.replacement
    ensures j < |hist| && hist[j].0 == v && hist[j].1 == s.replacement[v]
    ensures forall i :: 0 <= i <= j ==> hist[i].0 != hist[j].1
  {
    j :| j < |hist| && hist[j].0 == v;
  }

  lemma ChaseOne(hist: History, j: nat, v: Value)
    requires j < |hist|
    ensures Chase(hist[..j + 1], v) == Subst(hist[j].0, hist[j].1, Chase(hist[..j], v))
  {
    assert hist[..j + 1][..j] == hist[..j];
  }

  lemma ChaseStep(s: Pass, hist: History, n: nat, v: Value) returns (n': nat)
    requires HistMap(s, hist) && n <= |hist|
    requires Chase(hist[..n], v) in s.replacement
    requires forall j :: 0 <= j < n ==> hist[j].0 != Chase(hist[..n], v)
    ensures n < n' <= |hist|
    ensures var r := s.replacement[Chase(hist[..n], v)];
            Chase(hist[..n'], v) == r && forall j :: 0 <= j < n' ==> hist[j].0 != r
  {
    var j := WhereReplaced(s, hist, Chase(hist[..n], v));
    OnlyOnce(s, hist, n, j, Chase(hist[..n], v));
    hide HistMap, Chase;
    ChaseSkip(hist, n, j, v);
    ChaseOne(hist, j, v);
    n' := j + 1;
  }

  /** A value is replaced once, so not again before place j. */
  lemma OnlyOnce(s: Pass, hist: History, n: nat, j: nat, v: Value)
    requires HistMap(s, hist) && n <= |hist| && j < |hist| && hist[j].0 == v
    requires forall i :: 0 <= i < n ==> hist[i].0 != v
    ensures n <= j && forall i :: 0 <= i < j ==> hist[i].0 != v
  {
  }

  lemma LiveStays(s: Pass, hist: History, v: Value)
    requires HistMap(s, hist) && v !in s.replacement
    ensures Chase(hist, v) == v
  {
    LiveNotReplaced(s, hist, v);
    ChaseKeeps(hist, v);
  }

  lemma {:induction false} ChaseTogether(hist: History, n: nat, m: nat, v: Value, u: Value)
    requires n <= m <= |hist| && Chase(hist[..n], v) == Chase(hist[..n], u)
    ensures Chase(hist[..m], v) == Chase(hist[..m], u)
  {
    if n < m {
      assert hist[..m][..m - 1] == hist[..m - 1];
      ChaseTogether(hist, n, m - 1, v, u);
    }
  }

  /** A replaced phi leads where its replacement leads. */
  lemma ChaseThrough(hist: History, h0: History, phi: Value, same: Value)
    requires |h0| < |hist| && hist[..|h0| + 1] == h0 + [(phi, same)]
    requires Chase(h0, phi) == phi && Chase(h0, same) == same && phi != same
    ensures Chase(hist, phi) == Chase(hist, same)
  {
    ChaseAppend(h0, phi, same);
    ChaseTogether(hist, |h0| + 1, |hist|, phi, same);
    assert hist[..|hist|] == hist;
  }

  // ---------------------------------------------------------------- trivial phis

  /** A user of a removed phi has all its operands: it is not a phi that still waits for
      them or that an outer call is completing. */
  ghost predicate UserOk(c: Ctx, s: Pass, busy: Value, phi: Value, u: Value) {
    u in s.phis && Complete(c.preds, s.phis[u]) &&
    forall i :: 0 <= i < |s.incomplete| && s.incomplete[i].phi == u ==> u == busy
  }

  lemma UsersComplete(c: Ctx, s: Pass, busy: Value, phi: Value, lo: nat)
    requires PendingsOk(c, s, busy) && Isolated(s, lo) && AllDone(c, s, lo) && Rank(phi) >= lo
    ensures forall u :: u in s.phis && UsesIn(s.phis[u].ops, phi) ==> Rank(u) >= lo && UserOk(c, s, busy, phi, u)
  {
    forall u | u in s.phis && UsesIn(s.phis[u].ops, phi)
      ensures Rank(u) >= lo && UserOk(c, s, busy, phi, u)
    {
      assert Rank(u) >= lo;
      assert Done(c, s, u);
      forall i | 0 <= i < |s.incomplete| && s.incomplete[i].phi == u
        ensures u == busy
      {
        assert PendingOk(c, s, busy, i);
      }
    }
  }

  lemma CascadeFrame(s0: Pass, s1: Pass, s2: Pass, h0: History, h1: History, h2: History, lo: nat)
    requires Frame(s0, s1, h0, h1, lo) && Frame(s1, s2, h1, h2, lo)
    requires SamePreds(s0, s1) && SamePreds(s1, s2)
    requires |h0| < |h1|
    ensures Frame(s0, s2, h0, h2, lo) && SamePreds(s0, s2)
    ensures |h0| < |h2| && h2[..|h0| + 1] == h1[..|h0| + 1]
    ensures s2.phis.Keys <= s1.phis.Keys
  {
    FrameTrans(s0, s1, s2, h0, h1, h2, lo, lo);
    assert h2[..|h0| + 1] == h2[..|h1|][..|h0| + 1];
  }

  lemma FrameSame(s: Pass, hist: History, lo: nat)
    ensures Frame(s, s, hist, hist, lo) && SamePreds(s, s)
  {
  }

  lemma PhiReady(c: Ctx, s: Pass, cur: Cursor, busy: Value, hist: History, phi: Value)
    requires Inv(c, s, cur, busy, hist)
    ensures HistMap(s, hist)
    ensures phi in s.phis ==> phi != Const(0) && Chase(hist, phi) == phi && phi !in s.replacement
  {
    hide GoodEdges, GoodUses, GoodPhis, GoodSlots, HistLinks, LoadsGone, DefOk, PendingsOk, BlocksOk, SealsOk;
    if phi in s.phis {
      PhiNotLeaf(c, s, phi);
      PhiKeeps(c, s, hist, phi);
    }
  }

  /** Users of a phi that no longer names itself used it before. */
  lemma UsersBefore(phis: map<Value, Phi>, phi: Value, phis': map<Value, Phi>, users: set<Value>)
    requires phi in phis && phis' == phis[phi := phis[phi].(ops := RemoveFirst(phis[phi].ops, phi))]
    requires forall u :: u in users ==> u in phis' && UsesIn(phis'[u].ops, phi)
    ensures forall u :: u in users ==> u in phis && UsesIn(phis[u].ops, phi)
  {
    UsesInRemoveFirst(phis[phi].ops, phi);
  }

  /** What is done to a phi before it is taken out does not matter. */
  lemma DropPhiMap(phis: map<Value, Phi>, phi: Value, p: Phi, same: Value)
    requires phi in phis
    ensures var phis' := phis[phi := p];
            (map v | v in phis' :: SubstPhi(phi, same, phis'[v])) - {phi} ==
              (map v | v in phis :: SubstPhi(phi, same, phis[v])) - {phi}
  {
  }

  lemma DropPhiSame(s: Pass, phi: Value, p: Phi, same: Value)
    requires phi in s.phis
    ensures DropPhi(s.(phis := s.phis[phi := p]), phi, same) == DropPhi(s, phi, same)
  {
    hide SubstPhi, SubstBlock;
    DropPhiMap(s.phis, phi, p, same);
  }

  lemma WasReplaced(s: Pass, hist: History, h0: History, phi: Value, same: Value)
    requires HistMap(s, hist)
    requires |h0| < |hist| && hist[..|h0| + 1] == h0 + [(phi, same)]
    ensures phi in s.replacement
  {
    assert hist[|h0|] == hist[..|h0| + 1][|h0|];
  }

  lemma TrivialDiffers(phi: Value, ops: seq<(Value, nat)>, same: Value)
    requires TrivialValue(phi, ops, same)
    ensures phi != same
  {
  }

  lemma ReplaceReady(c: Ctx, s: Pass, cur: Cursor, busy: Value, hist: History, phi: Value, same: Value, lo: nat)
    requires Inv(c, s, cur, busy, hist)
    requires phi in s.phis && Complete(c.preds, s.phis[phi]) && TrivialValue(phi, s.phis[phi].ops, same)
    requires forall i :: 0 <= i < |s.incomplete| && s.incomplete[i].phi == phi ==> phi == busy
    requires Isolated(s, lo) && AllDone(c, s, lo) && Rank(phi) >= lo
    ensures Inv(c, DropPhi(s, phi, same), cur, busy, hist + [(phi, same)])
    ensures Chase(hist, same) == same
    ensures forall u :: u in s.phis && UsesIn(s.phis[u].ops, phi) ==> Rank(u) >= lo && UserOk(c, s, busy, phi, u)
  {
    DropPhiInv(c, s, cur, busy, hist, phi, same);
    hide WellFormed, HistLinks, LoadsGone, DefOk, BlocksOk, SealsOk, PhisOk, Complete, TrivialValue;
    LiveStays(s, hist, same);
    UsersComplete(c, s, busy, phi, lo);
  }

  lemma UserStays(c: Ctx, s0: Pass, s: Pass, busy: Value, phi: Value, u: Value)
    requires UserOk(c, s0, busy, phi, u) && SamePreds(s0, s) && u in s.phis && s.incomplete == s0.incomplete
    ensures Complete(c.preds, s.phis[u])
    ensures forall i :: 0 <= i < |s.incomplete| && s.incomplete[i].phi == u ==> u == busy
  {
  }

  lemma UsesInRemoveFirst(ops: seq<(Value, nat)>, v: Value)
    ensures UsesIn(RemoveFirst(ops, v), v) ==> UsesIn(ops, v)
  {
    if ops != [] && ops[0].0 != v {
      UsesInRemoveFirst(ops[1..], v);
      assert forall i :: 0 <= i < |ops[1..]| ==> ops[1..][i] == ops[i + 1];
    }
  }

  lemma PhiKeeps(c: Ctx, s: Pass, hist: History, phi: Value)
    requires PhisOk(c, s) && HistMap(s, hist) && phi in s.phis
    ensures Chase(hist, phi) == phi && phi !in s.replacement
  {
    hide GoodOps;
    assert PhiOk(c, s, phi);
    LiveStays(s, hist, phi);
  }

  lemma PhiNotLeaf(c: Ctx, s: Pass, phi: Value)
    requires GoodDefs(c) && PhisOk(c, s) && phi in s.phis
    ensures phi != Const(0)
  {
    assert PhiOk(c, s, phi);
    PhiIsPhi(c, s, phi);
  }

  // ---------------------------------------------------------------- the start

  ghost function InitPass(c: Ctx): Pass {
    Pass(c.f.blocks, c.f.phis, map[], map[], [], {}, {}, 0)
  }

  lemma InitPhiOk(c: Ctx, phi: Value)
    requires WellFormed(c) && phi in c.f.phis
    ensures PhiOk(c, InitPass(c), phi)
  {
    var s := InitPass(c);
    var b, ops := c.f.phis[phi].block, c.f.phis[phi].ops;
    assert DefPlace(c.f, phi, c.defs[phi]);
    PhiIsNoAlloca(c, phi);
    assert Complete(c.preds, c.f.phis[phi]);
    forall i | 0 <= i < |ops|
      ensures SoundOp(c, phi, b, ops[i]) && Live(c, s, ops[i].0)
    {
      InitOpOk(c, phi, i);
    }
  }

  lemma PhiIsNoAlloca(c: Ctx, phi: Value)
    requires GoodDefs(c) && GoodSlots(c) && phi in c.f.phis
    ensures !IsSlot(phi, c.P)
  {
    assert c.defs[phi] == (c.f.phis[phi].block, 0);
    hide Promotable;
  }

  lemma InitOpOk(c: Ctx, phi: Value, i: nat)
    requires GoodEdges(c) && GoodPhis(c) && GoodUses(c) && GoodSlots(c)
    requires phi in c.f.phis && !phi.NewPhi? && i < |c.f.phis[phi].ops|
    ensures SoundOp(c, phi, c.f.phis[phi].block, c.f.phis[phi].ops[i])
    ensures Live(c, InitPass(c), c.f.phis[phi].ops[i].0)
  {
    var b, ops := c.f.phis[phi].block, c.f.phis[phi].ops;
    var v, p := ops[i].0, ops[i].1;
    assert GoodUse(c, v, p, Len(c, p));
    assert IsSlot(v, c.P) ==> Promotable(c.f, v.id);
    assert Preds(ops)[i] == p;
    assert p in multiset(Preds(ops));
    assert Incoming(ops, p) == v by {
      assert (Incoming(ops, p), p) in ops;
    }
    SoundSelf(c, v, p, Len(c, p));
  }

  lemma {:induction false} RewriteNothing(body: seq<Instruction>)
    ensures Rewrite([], body) == body
  {
    if body != [] {
      RewriteNothing(body[..|body| - 1]);
      assert body == body[..|body| - 1] + [body[|body| - 1]];
    }
  }

  lemma InitPhis(c: Ctx)
    requires WellFormed(c)
    ensures PhisOk(c, InitPass(c))
  {
    hide WellFormed, PhiOk;
    forall phi | phi in c.f.phis
      ensures PhiOk(c, InitPass(c), phi)
    {
      InitPhiOk(c, phi);
    }
  }

  lemma InitBlocks(c: Ctx)
    ensures BlocksOk(c, InitPass(c), [])
  {
    var s := InitPass(c);
    forall b | 0 <= b < |s.blocks|
      ensures BlockOk(c, s, [], b)
    {
      RewriteNothing(c.f.blocks[b].body);
    }
  }

  lemma InitRest(c: Ctx)
    ensures HistOk(c, InitPass(c), Cursor(0, 0), []) && PendingsOk(c, InitPass(c), Const(0))
    ensures SealsOk(c, InitPass(c), Cursor(0, 0)) && DefOk(c, InitPass(c), Cursor(0, 0))
  {
  }

  lemma InitInv(c: Ctx)
    requires WellFormed(c) && AllReachable(c.f)
    ensures Inv(c, InitPass(c), Cursor(0, 0), Const(0), [])
    ensures AllDone(c, InitPass(c), 0)
  {
    hide GoodEdges, GoodDefs, GoodUses, GoodSlots, PhisOk, BlocksOk, HistOk, DefOk, PendingsOk, SealsOk, Complete;
    InitPhis(c);
    InitBlocks(c);
    InitRest(c);
  }

  // ---------------------------------------------------------------- completing a phi

  /** The first i predecessors have their operand; all of them have been walked. */
  ghost predicate Filling(c: Ctx, s: Pass, phi: Value, addr: nat, i: nat) {
    && phi in s.phis && phi.NewPhi? && phi.slot == addr && addr in c.P
    && s.phis[phi].block == phi.block < |c.preds|
    && (phi.block, addr) in s.defMap
    && (forall p :: p in c.preds[phi.block] ==> p in s.filled)
    && |s.phis[phi].ops| == i <= |c.preds[phi.block]|
    && (forall j :: 0 <= j < i ==> s.phis[phi].ops[j].1 == c.preds[phi.block][j])
  }

  /** Only the phi being completed may be waiting and have operands. */
  ghost predicate PendingOnly(s: Pass, phi: Value, busy: Value) {
    forall i :: 0 <= i < |s.incomplete| && s.incomplete[i].phi == phi ==> phi == busy
  }

  ghost predicate Progress(c: Ctx, s0: Pass, s: Pass, h0: History, h: History, phi: Value, addr: nat, lo: nat,
                           busy: Value) {
    && Frame(s0, s, h0, h, lo)
    && NewPendings(s0, s, addr)
    && Isolated(s, lo) && AllDoneBut(c, s, lo, phi)
    && PendingOnly(s, phi, busy)
    && Missing(c, s.defMap) <= Missing(c, s0.defMap)
    && Rank(phi) >= lo
  }

  lemma FillingStart(c: Ctx, s: Pass, h: History, phi: Value, addr: nat, lo: nat, busy: Value)
    requires Filling(c, s, phi, addr, 0) && Rank(phi) >= lo && PendingOnly(s, phi, busy)
    requires Isolated(s, lo) && AllDoneBut(c, s, lo, phi)
    ensures Progress(c, s, s, h, h, phi, addr, lo, busy)
  {
    FrameSame(s, h, lo);
  }

  lemma FillingPred(c: Ctx, s0: Pass, s: Pass, cur: Cursor, busy: Value, h0: History, hist: History,
                    phi: Value, addr: nat, lo: nat, i: nat) returns (path: seq<nat>)
    requires Inv(c, s, cur, busy, hist) && Filling(c, s, phi, addr, i) && i < |c.preds[phi.block]|
    requires Progress(c, s0, s, h0, hist, phi, addr, lo, busy)
    ensures Readable(c, s, cur, c.preds[phi.block][i]) && PathTo(c.f, path, c.preds[phi.block][i])
    ensures Missing(c, s.defMap) <= Missing(c, s0.defMap)
  {
    hide HistOk, DefOk, PhisOk, PendingsOk, BlocksOk, GoodDefs, GoodPhis, GoodUses, GoodSlots;
    var p := c.preds[phi.block][i];
    assert p in c.preds[phi.block];
    assert Reachable(c.f, p);
    path :| PathTo(c.f, path, p);
  }

  lemma ReadKeepsPhi(c: Ctx, s1: Pass, s2: Pass, cur: Cursor, busy: Value, h1: History, h2: History, phi: Value,
                     addr: nat, i: nat)
    requires PhisOk(c, s1) && PendingsOk(c, s2, busy)
    requires Filling(c, s1, phi, addr, i) && PendingOnly(s1, phi, busy)
    requires ReadFrame(c, s1, s2, h1, h2, addr)
    ensures Filling(c, s2, phi, addr, i) && PendingOnly(s2, phi, busy)
    ensures Rank(phi) < s1.next + 1
  {
    hide GoodOps, AllDone;
    assert PhiOk(c, s1, phi);
    forall j | 0 <= j < |s2.incomplete| && s2.incomplete[j].phi == phi
      ensures phi == busy
    {
      assert PendingOk(c, s2, busy, j);
      if j < |s1.incomplete| {
        assert s2.incomplete[j] == s1.incomplete[j];
      }
    }
  }

  lemma DoneStays(c: Ctx, s1: Pass, s2: Pass, h1: History, h2: History, lo: nat, addr: nat, phi: Value)
    requires AllDoneBut(c, s1, lo, phi) && ReadFrame(c, s1, s2, h1, h2, addr)
    ensures AllDoneBut(c, s2, lo, phi)
  {
    forall q | q in s2.phis && Rank(q) >= lo && q != phi
      ensures Done(c, s2, q)
    {
      if Rank(q) < s1.next + 1 {
        assert Done(c, s1, q);
        if i :| 0 <= i < |s1.incomplete| && s1.incomplete[i].phi == q {
          assert s2.incomplete[i] == s1.incomplete[i];
        }
      }
    }
  }

  lemma NewPendingsTrans(s0: Pass, s1: Pass, s2: Pass, addr: nat)
    requires NewPendings(s0, s1, addr) && NewPendings(s1, s2, addr)
    requires forall key :: key in s0.defMap ==> key in s1.defMap
    requires |s1.incomplete| <= |s2.incomplete| && s1.incomplete == s2.incomplete[..|s1.incomplete|]
    ensures NewPendings(s0, s2, addr)
  {
    forall i | |s0.incomplete| <= i < |s2.incomplete|
      ensures s2.incomplete[i].slot == addr && (s2.incomplete[i].block, s2.incomplete[i].slot) !in s0.defMap
    {
      if i < |s1.incomplete| {
        assert s2.incomplete[i] == s1.incomplete[i];
      }
    }
  }

  lemma IsolatedStays(s1: Pass, s2: Pass, h1: History, h2: History, lo: nat, lo': nat)
    requires Isolated(s1, lo) && Frame(s1, s2, h1, h2, lo') && lo <= lo'
    ensures Isolated(s2, lo)
  {
  }

  /** A read between two operands leaves the phi and everything older alone. */
  lemma ReadProgress(c: Ctx, s0: Pass, s1: Pass, s2: Pass, cur: Cursor, busy: Value, h0: History, h1: History,
                     h2: History,
                     phi: Value, addr: nat, lo: nat, i: nat)
    requires PhisOk(c, s1) && PendingsOk(c, s2, busy)
    requires Filling(c, s1, phi, addr, i)
    requires Progress(c, s0, s1, h0, h1, phi, addr, lo, busy)
    requires ReadFrame(c, s1, s2, h1, h2, addr)
    ensures Filling(c, s2, phi, addr, i)
    ensures Progress(c, s0, s2, h0, h2, phi, addr, lo, busy)
  {
    hide AllDone, AllDoneBut, Missing;
    ReadKeepsPhi(c, s1, s2, cur, busy, h1, h2, phi, addr, i);
    DoneStays(c, s1, s2, h1, h2, lo, addr, phi);
    FrameTrans(s0, s1, s2, h0, h1, h2, lo, s1.next + 1);
    IsolatedStays(s1, s2, h1, h2, lo, s1.next + 1);
    NewPendingsTrans(s0, s1, s2, addr);
    MissingShrinks(c, s1.defMap, s2.defMap);
  }

  lemma AppendProgress(c: Ctx, s0: Pass, s: Pass, h0: History, h: History, phi: Value, addr: nat, lo: nat, busy: Value,
                       i: nat, v: Value)
    requires Filling(c, s, phi, addr, i) && i < |c.preds[phi.block]|
    requires Progress(c, s0, s, h0, h, phi, addr, lo, busy)
    ensures Filling(c, AppendOp(s, phi, v, c.preds[phi.block][i]), phi, addr, i + 1)
    ensures Progress(c, s0, AppendOp(s, phi, v, c.preds[phi.block][i]), h0, h, phi, addr, lo, busy)
  {
    hide Missing, Complete;
    var s' := AppendOp(s, phi, v, c.preds[phi.block][i]);
    forall q | q in s'.phis && Rank(q) >= lo && q != phi
      ensures Done(c, s', q)
    {
      assert Done(c, s, q);
    }
  }

  lemma FillingStep(c: Ctx, s0: Pass, s1: Pass, s2: Pass, cur: Cursor, busy: Value, h0: History, h1: History,
                    h2: History,
                    phi: Value, addr: nat, lo: nat, i: nat, v: Value)
    requires Inv(c, s1, cur, busy, h1) && Inv(c, s2, cur, busy, h2)
    requires Filling(c, s1, phi, addr, i) && i < |c.preds[phi.block]|
    requires Progress(c, s0, s1, h0, h1, phi, addr, lo, busy)
    requires ReadFrame(c, s1, s2, h1, h2, addr)
    requires Live(c, s2, v) &&
               Sound(c, v, SlotOf(addr), c.preds[phi.block][i], Point(c, s2, cur, c.preds[phi.block][i]))
    ensures phi in s2.phis
    ensures var s3 := AppendOp(s2, phi, v, c.preds[phi.block][i]);
            Inv(c, s3, cur, busy, h2) && Filling(c, s3, phi, addr, i + 1) &&
            Progress(c, s0, s3, h0, h2, phi, addr, lo, busy)
  {
    hide HistOk, DefOk, BlocksOk, GoodDefs, GoodPhis, GoodUses, GoodSlots, Live, Sound, Progress, ReadFrame;
    ReadProgress(c, s0, s1, s2, cur, busy, h0, h1, h2, phi, addr, lo, i);
    var p := c.preds[phi.block][i];
    assert p in c.preds[phi.block];
    assert SoundOp(c, phi, phi.block, (v, p));
    FillingPending(c, s0, s2, h0, h2, phi, addr, lo, busy);
    hide SoundOp;
    AppendOpInv(c, s2, cur, busy, h2, phi, v, p);
    AppendProgress(c, s0, s2, h0, h2, phi, addr, lo, busy, i, v);
  }

  lemma FillingPending(c: Ctx, s0: Pass, s: Pass, h0: History, h: History, phi: Value, addr: nat, lo: nat, busy: Value)
    requires Progress(c, s0, s, h0, h, phi, addr, lo, busy)
    ensures PendingOnly(s, phi, busy) && Isolated(s, lo) && AllDoneBut(c, s, lo, phi) && Rank(phi) >= lo
    ensures Frame(s0, s, h0, h, lo) && NewPendings(s0, s, addr)
  {
  }

  lemma FillingDone(c: Ctx, s0: Pass, s: Pass, h0: History, h: History, phi: Value, addr: nat, lo: nat, busy: Value)
    requires phi.NewPhi? && phi.block < |c.preds| && Filling(c, s, phi, addr, |c.preds[phi.block]|)
    requires Progress(c, s0, s, h0, h, phi, addr, lo, busy)
    ensures phi in s.phis && Complete(c.preds, s.phis[phi])
    ensures AllDone(c, s, lo) && Isolated(s, lo) && PendingOnly(s, phi, busy) && Rank(phi) >= lo
    ensures forall i :: 0 <= i < |s.incomplete| && s.incomplete[i].phi == phi ==> phi == busy
  {
    hide Missing, Frame;
    assert Preds(s.phis[phi].ops) == c.preds[phi.block];
  }

  lemma FillingEnd(c: Ctx, s0: Pass, s3: Pass, s4: Pass, h0: History, h3: History, h4: History,
                   phi: Value, addr: nat, lo: nat, busy: Value)
    requires Progress(c, s0, s3, h0, h3, phi, addr, lo, busy)
    requires phi in s3.phis && Complete(c.preds, s3.phis[phi])
    requires Frame(s3, s4, h3, h4, lo) && SamePreds(s3, s4) && s4.incomplete == s3.incomplete
    ensures Frame(s0, s4, h0, h4, lo) && NewPendings(s0, s4, addr)
    ensures phi in s4.phis ==> Complete(c.preds, s4.phis[phi])
  {
    FrameTrans(s0, s3, s4, h0, h3, h4, lo, lo);
  }

  // ---------------------------------------------------------------- reading

  lemma ReadableBlock(c: Ctx, s: Pass, cur: Cursor, busy: Value, hist: History, b: nat)
    requires Inv(c, s, cur, busy, hist) && Readable(c, s, cur, b)
    ensures b < |c.f.blocks| && |c.preds| == |c.f.blocks|
  {
  }

  /** A definition that is there: follow its replacements. */
  lemma DefinedRead(c: Ctx, s: Pass, cur: Cursor, busy: Value, hist: History, b: nat, a: nat)
    requires Inv(c, s, cur, busy, hist) && (b, a) in s.defMap
    ensures HistMap(s, hist)
    ensures ReadFrame(c, s, s, hist, hist, a)
    ensures var v := Chase(hist, s.defMap[(b, a)]);
            Live(c, s, v) && Sound(c, v, SlotOf(a), b, Point(c, s, cur, b))
  {
    hide PhisOk, PendingsOk, BlocksOk, GoodPhis, GoodUses, GoodSlots, GoodEdges, GoodDefs, Sound;
    var v := s.defMap[(b, a)];
    assert EntryOk(c, s, cur, b, a, v);
    ChaseSound(c, s, cur, hist, v, SlotOf(a), b, Point(c, s, cur, b));
    ChaseLive(c, s, cur, hist, v);
    IsolatedNow(c, s);
    FrameSame(s, hist, s.next + 1);
  }

  function UnsealedPass(s: Pass, b: nat, a: nat): Pass {
    var phi := NewPhi(s.next, b, a);
    var s1 := AddPhi(s, b, a);
    s1.(defMap := s1.defMap[(b, a) := phi], incomplete := s1.incomplete + [Pending(b, a, phi)])
  }

  function JoinPass(s: Pass, b: nat, a: nat): Pass {
    var s1 := AddPhi(s, b, a);
    s1.(defMap := s1.defMap[(b, a) := NewPhi(s.next, b, a)])
  }

  /** A new phi is a sound definition of its slot in its block. */
  lemma NewPhiEntry(c: Ctx, s: Pass, cur: Cursor, busy: Value, hist: History, b: nat, a: nat)
    requires Inv(c, s, cur, busy, hist) && Readable(c, s, cur, b) && a in c.P && (b, a) !in s.defMap
    ensures var phi := NewPhi(s.next, b, a); var s1 := AddPhi(s, b, a);
            Inv(c, s1, cur, busy, hist) && EntryOk(c, s1, cur, b, a, phi) && Live(c, s1, phi) && phi !in s.phis
  {
    hide Sound, GoodEdges, GoodDefs, GoodUses, GoodPhis, GoodSlots;
    var phi := NewPhi(s.next, b, a);
    AddPhiInv(c, s, cur, busy, hist, b, a);
    NextIsNew(c, s, cur, hist, phi);
    assert NoStores(c, b, a, Point(c, s, cur, b));
    hide HistOk, PhisOk, DefOk, PendingsOk, BlocksOk, SealsOk, NoStores;
    PhiSound(c, phi, Point(c, s, cur, b));
  }

  lemma JoinInv(c: Ctx, s: Pass, cur: Cursor, busy: Value, hist: History, b: nat, a: nat)
    requires Inv(c, s, cur, busy, hist) && Readable(c, s, cur, b) && a in c.P && (b, a) !in s.defMap
    ensures Inv(c, JoinPass(s, b, a), cur, busy, hist)
    ensures Live(c, JoinPass(s, b, a), NewPhi(s.next, b, a))
    ensures Sound(c, NewPhi(s.next, b, a), SlotOf(a), b, Point(c, JoinPass(s, b, a), cur, b))
    ensures NewPhi(s.next, b, a) !in s.phis
  {
    hide Inv, Sound;
    NewPhiEntry(c, s, cur, busy, hist, b, a);
    WriteDefInv(c, AddPhi(s, b, a), cur, busy, hist, b, a, NewPhi(s.next, b, a));
  }

  lemma NoOldPending(c: Ctx, s: Pass, cur: Cursor, busy: Value, hist: History, b: nat, a: nat)
    requires Inv(c, s, cur, busy, hist) && (b, a) !in s.defMap
    ensures forall i :: 0 <= i < |s.incomplete| ==> s.incomplete[i].phi != NewPhi(s.next, b, a)
  {
    hide WellFormed, HistOk, PhisOk, DefOk, BlocksOk, SealsOk;
    forall i | 0 <= i < |s.incomplete|
      ensures s.incomplete[i].phi != NewPhi(s.next, b, a)
    {
      assert PendingOk(c, s, busy, i);
    }
  }

  lemma UnsealedRead(c: Ctx, s: Pass, cur: Cursor, busy: Value, hist: History, b: nat, a: nat)
    requires Inv(c, s, cur, busy, hist) && Readable(c, s, cur, b) && a in c.P && (b, a) !in s.defMap && b !in s.sealed
    ensures var s' := UnsealedPass(s, b, a);
            Inv(c, s', cur, busy, hist) && ReadFrame(c, s, s', hist, hist, a) &&
            Live(c, s', NewPhi(s.next, b, a)) && Sound(c, NewPhi(s.next, b, a), SlotOf(a), b, Point(c, s', cur, b))
  {
    hide Sound, Inv;
    var phi := NewPhi(s.next, b, a);
    JoinInv(c, s, cur, busy, hist, b, a);
    NoOldPending(c, s, cur, busy, hist, b, a);
    var s1 := JoinPass(s, b, a);
    PendInv(c, s1, cur, busy, hist, Pending(b, a, phi));
    var s' := UnsealedPass(s, b, a);
    assert s' == s1.(incomplete := s1.incomplete + [Pending(b, a, phi)]);
    NewPhiDone(c, s, cur, busy, hist, b, a);
  }

  lemma NewPhiDone(c: Ctx, s: Pass, cur: Cursor, busy: Value, hist: History, b: nat, a: nat)
    requires Inv(c, s, cur, busy, hist) && NewPhi(s.next, b, a) !in s.phis && (b, a) !in s.defMap
    ensures ReadFrame(c, s, UnsealedPass(s, b, a), hist, hist, a)
  {
    hide WellFormed, HistOk, DefOk, BlocksOk, SealsOk, PendingsOk, Complete;
    var s' := UnsealedPass(s, b, a);
    var phi := NewPhi(s.next, b, a);
    IsolatedNow(c, s);
    assert s'.incomplete[|s.incomplete|].phi == phi;
    forall q | q in s'.phis && Rank(q) >= s.next + 1
      ensures Done(c, s', q)
    {
      assert q == phi;
    }
  }

  lemma JoinStart(c: Ctx, s: Pass, cur: Cursor, busy: Value, hist: History, b: nat, a: nat)
    requires Inv(c, s, cur, busy, hist) && Readable(c, s, cur, b) && a in c.P && (b, a) !in s.defMap && b in s.sealed
    ensures var phi := NewPhi(s.next, b, a); var s' := JoinPass(s, b, a);
            Inv(c, s', cur, busy, hist) && Filling(c, s', phi, a, 0) && PendingOnly(s', phi, busy) &&
            Isolated(s', Rank(phi)) && AllDoneBut(c, s', Rank(phi), phi) &&
            Frame(s, s', hist, hist, s.next + 1) && NewPendings(s, s', a) &&
            Missing(c, s'.defMap) < Missing(c, s.defMap)
  {
    JoinInv(c, s, cur, busy, hist, b, a);
    NoOldPending(c, s, cur, busy, hist, b, a);
    JoinFilling(c, s, cur, busy, hist, b, a);
    IsolatedNow(c, s);
    hide Inv, Filling, Sound, Live, Isolated, AllDone, AllDoneBut, Frame, NewPendings, Missing;
    JoinMissing(c, s, b, a);
    JoinKeeps(s, hist, b, a);
    JoinDone(c, s, b, a, s.next + 1);
  }

  lemma JoinFilling(c: Ctx, s: Pass, cur: Cursor, busy: Value, hist: History, b: nat, a: nat)
    requires Inv(c, s, cur, busy, hist) && Readable(c, s, cur, b) && a in c.P && b in s.sealed
    ensures Filling(c, JoinPass(s, b, a), NewPhi(s.next, b, a), a, 0)
  {
    hide HistOk, DefOk, PhisOk, BlocksOk, PendingsOk, GoodDefs, GoodUses, GoodPhis, GoodSlots;
  }

  lemma JoinMissing(c: Ctx, s: Pass, b: nat, a: nat)
    requires b < |c.f.blocks| && a in c.P && (b, a) !in s.defMap
    ensures Missing(c, JoinPass(s, b, a).defMap) < Missing(c, s.defMap)
  {
    assert (b, a) in Pairs(c);
    MissingShrinks(c, s.defMap, JoinPass(s, b, a).defMap);
  }

  lemma JoinKeeps(s: Pass, hist: History, b: nat, a: nat)
    requires (b, a) !in s.defMap && NewPhi(s.next, b, a) !in s.phis
    ensures Frame(s, JoinPass(s, b, a), hist, hist, s.next + 1) && NewPendings(s, JoinPass(s, b, a), a)
    ensures Isolated(s, s.next + 1) ==> Isolated(JoinPass(s, b, a), s.next + 1)
  {
  }

  lemma JoinDone(c: Ctx, s: Pass, b: nat, a: nat, lo: nat)
    requires AllDone(c, s, lo) && NewPhi(s.next, b, a) !in s.phis
    ensures AllDoneBut(c, JoinPass(s, b, a), lo, NewPhi(s.next, b, a))
  {
    hide Complete;
    var s' := JoinPass(s, b, a);
    forall q | q in s'.phis && Rank(q) >= lo && q != NewPhi(s.next, b, a)
      ensures Done(c, s', q)
    {
      assert Done(c, s, q);
    }
  }

  /** The sealed block has one predecessor, which has been walked. */
  lemma SinglePred(c: Ctx, s: Pass, cur: Cursor, busy: Value, hist: History, b: nat, path: seq<nat>)
    requires Inv(c, s, cur, busy, hist) && b in s.sealed && PathTo(c.f, path, b)
    requires b < |c.preds| && |c.preds[b]| == 1
    ensures |path| > 1
    ensures Readable(c, s, cur, c.preds[b][0]) && PathTo(c.f, path[..|path| - 1], c.preds[b][0]) &&
              c.preds[b][0] in s.filled
  {
    hide HistOk, DefOk, BlocksOk, PhisOk, PendingsOk, GoodDefs, GoodUses, GoodPhis, GoodSlots;
    PathHasPred(c, path, b);
    assert c.preds[b][0] in c.preds[b];
  }

  lemma EntryHere(c: Ctx, s0: Pass, s: Pass, cur: Cursor, b: nat, a: nat, v: Value)
    requires Readable(c, s0, cur, b) && a in c.P
    requires s.filled == s0.filled && Live(c, s, v) && Sound(c, v, SlotOf(a), b, Point(c, s, cur, b))
    ensures EntryOk(c, s, cur, b, a, v)
  {
    hide Sound;
  }

  lemma WriteDefFrame(c: Ctx, s0: Pass, s: Pass, h0: History, h: History, b: nat, a: nat, v: Value, slot: nat)
    requires ReadFrame(c, s0, s, h0, h, slot) && (b, a) !in s0.defMap
    ensures ReadFrame(c, s0, s.(defMap := s.defMap[(b, a) := v]), h0, h, slot)
  {
    hide Complete;
    var s' := s.(defMap := s.defMap[(b, a) := v]);
    forall q | q in s'.phis && Rank(q) >= s0.next + 1
      ensures Done(c, s', q)
    {
      assert Done(c, s, q);
    }
  }

  lemma WriteDefLive(c: Ctx, s: Pass, b: nat, a: nat, u: Value, v: Value)
    requires Live(c, s, v)
    ensures Live(c, s.(defMap := s.defMap[(b, a) := u]), v)
  {
  }

  lemma FinishRead(c: Ctx, s0: Pass, s: Pass, cur: Cursor, busy: Value, h0: History, hist: History, b: nat, a: nat,
                   v: Value)
    requires Inv(c, s, cur, busy, hist) && ReadFrame(c, s0, s, h0, hist, a)
    requires Readable(c, s0, cur, b) && a in c.P && (b, a) !in s0.defMap
    requires Live(c, s, v) && Sound(c, v, SlotOf(a), b, Point(c, s0, cur, b))
    ensures var s' := s.(defMap := s.defMap[(b, a) := v]);
            Inv(c, s', cur, busy, hist) && ReadFrame(c, s0, s', h0, hist, a) &&
            Live(c, s', v) && Sound(c, v, SlotOf(a), b, Point(c, s', cur, b))
  {
    hide Inv, Sound, Live, AllDone, NewPendings;
    EntryHere(c, s0, s, cur, b, a, v);
    WriteDefInv(c, s, cur, busy, hist, b, a, v);
    WriteDefFrame(c, s0, s, h0, hist, b, a, v, a);
    WriteDefLive(c, s, b, a, v, v);
  }

  lemma SingleRead(c: Ctx, s0: Pass, s: Pass, cur: Cursor, busy: Value, h0: History, hist: History, b: nat, a: nat,
                   v: Value)
    requires Inv(c, s0, cur, busy, h0) && Inv(c, s, cur, busy, hist) && ReadFrame(c, s0, s, h0, hist, a)
    requires Readable(c, s0, cur, b) && a in c.P && (b, a) !in s0.defMap && b in s0.sealed
    requires b < |c.preds| && |c.preds[b]| == 1 && c.preds[b][0] != b
    requires Live(c, s, v) && Sound(c, v, SlotOf(a), c.preds[b][0], Point(c, s, cur, c.preds[b][0]))
    ensures var s' := s.(defMap := s.defMap[(b, a) := v]);
            Inv(c, s', cur, busy, hist) && ReadFrame(c, s0, s', h0, hist, a) &&
            Live(c, s', v) && Sound(c, v, SlotOf(a), b, Point(c, s', cur, b))
  {
    hide HistOk, BlocksOk, PhisOk, PendingsOk, GoodDefs, GoodUses, GoodPhis, GoodSlots, Sound, Live, AllDone,
      NewPendings;
    var p := c.preds[b][0];
    assert c.preds[b] == [p];
    assert p in c.preds[b];
    assert NoStores(c, b, a, Point(c, s0, cur, b));
    SoundFromPred(c, v, a, b, p);
    SoundDown(c, v, a, b, Point(c, s0, cur, b));
    hide DefOk, GoodEdges, NoStores, SealsOk;
    FinishRead(c, s0, s, cur, busy, h0, hist, b, a, v);
  }

  lemma JoinSound(c: Ctx, s0: Pass, s: Pass, cur: Cursor, busy: Value, h0: History, hist: History, b: nat, a: nat,
                  v: Value)
    requires Inv(c, s0, cur, busy, h0) && Inv(c, s, cur, busy, hist)
    requires Readable(c, s0, cur, b) && a in c.P && (b, a) !in s0.defMap
    requires v == Chase(hist, NewPhi(s0.next, b, a)) && s0.next < s.next
    requires NewPhi(s0.next, b, a) in s.phis || NewPhi(s0.next, b, a) in s.replacement
    ensures Live(c, s, v) && Sound(c, v, SlotOf(a), b, Point(c, s0, cur, b))
  {
    hide BlocksOk, PhisOk, PendingsOk, GoodEdges, GoodDefs, GoodUses, GoodPhis, GoodSlots, Sound;
    var phi := NewPhi(s0.next, b, a);
    assert NoStores(c, b, a, Point(c, s0, cur, b));
    hide DefOk, NoStores, SealsOk;
    PhiSound(c, phi, Point(c, s0, cur, b));
    ChaseSound(c, s, cur, hist, phi, SlotOf(a), b, Point(c, s0, cur, b));
    assert Known(c, s, phi);
    ChaseLive(c, s, cur, hist, phi);
  }

  lemma JoinEnd(c: Ctx, s0: Pass, s: Pass, cur: Cursor, busy: Value, h0: History, hist: History, b: nat, a: nat,
                v: Value)
    requires Inv(c, s0, cur, busy, h0) && Inv(c, s, cur, busy, hist)
    requires Readable(c, s0, cur, b) && a in c.P && (b, a) !in s0.defMap
    requires Frame(s0, JoinPass(s0, b, a), h0, h0, s0.next + 1) && NewPendings(s0, JoinPass(s0, b, a), a)
    requires Frame(JoinPass(s0, b, a), s, h0, hist, s0.next + 1) && NewPendings(JoinPass(s0, b, a), s, a)
    requires AllDone(c, s, s0.next + 1)
    requires v == Chase(hist, NewPhi(s0.next, b, a))
    requires NewPhi(s0.next, b, a) in s.phis || NewPhi(s0.next, b, a) in s.replacement
    ensures var s' := s.(defMap := s.defMap[(b, a) := v]);
            Inv(c, s', cur, busy, hist) && ReadFrame(c, s0, s', h0, hist, a) &&
            Live(c, s', v) && Sound(c, v, SlotOf(a), b, Point(c, s', cur, b))
  {
    hide Inv, Live, Sound, AllDone;
    var s1 := JoinPass(s0, b, a);
    FrameTrans(s0, s1, s, h0, h0, hist, s0.next + 1, s0.next + 1);
    NewPendingsTrans(s0, s1, s, a);
    JoinSound(c, s0, s, cur, busy, h0, hist, b, a, v);
    hide Frame, NewPendings;
    FinishRead(c, s0, s, cur, busy, h0, hist, b, a, v);
  }
}
