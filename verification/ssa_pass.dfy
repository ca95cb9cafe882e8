/** Promotion of allocas to SSA values, after "Simple and Efficient Construction of
    Static Single Assignment Form" (Braun et al.): the tables of the pass are fields
    that its methods update while they walk the block list once. */
module SimpleSSA {
  import opened IR
  import opened Cfg
  import opened Collections
  import opened SsaPaths
  import opened SsaFacts
  import opened SsaState
  import opened SsaSteps
  import opened SsaWalk
  import opened SsaReads
  import opened SsaSeals
  import opened SsaCorrect
  import opened DeadAllocas

  /** The flags of the n blocks against what this round has sealed and filled.  They are
      that, or they are all set from a round before; then no phi waits. */
  ghost predicate FlagsAre(again: bool, n: nat, sealedFlags: set<nat>, filledFlags: set<nat>, sealed: set<nat>,
                           filled: set<nat>,
                           incomplete: seq<Pending>)
  {
    if again then
      && incomplete == [] && (forall b :: b in filled ==> b in sealed)
      && forall b :: 0 <= b < n ==> b in sealedFlags && b in filledFlags
    else
      sealedFlags == sealed && filledFlags == filled
  }

  /** Every predecessor comes before its block in the list. */
  ghost predicate InOrder(preds: seq<seq<nat>>) {
    forall b, p :: 0 <= b < |preds| && p in preds[b] ==> p < b
  }

  /** In a later round what has been walked counts as sealed. */
  lemma FlagsBelow(pass: Promoter, p: nat)
    requires FlagsAre(pass.again, |pass.preds|, pass.sealedFlags, pass.filledFlags, pass.sealed, pass.filled,
               pass.incompletePhis)
    ensures pass.again && p in pass.filled ==> p in pass.sealed
  {
  }

  lemma FlagsSet(pass: Promoter, b: nat)
    requires FlagsAre(pass.again, |pass.preds|, pass.sealedFlags, pass.filledFlags, pass.sealed, pass.filled,
               pass.incompletePhis)
    ensures !pass.again ==> (b in pass.sealedFlags <==> b in pass.sealed)
  {
  }

  lemma FlagsUnset(pass: Promoter, b: nat)
    requires FlagsAre(pass.again, |pass.preds|, pass.sealedFlags, pass.filledFlags, pass.sealed, pass.filled,
               pass.incompletePhis)
    requires b < |pass.preds| && b !in pass.sealedFlags
    ensures !pass.again && b !in pass.sealed
  {
  }

  /** In the first round nothing depends on the phis that wait. */
  lemma FlagsFresh(again: bool, n: nat, sealedFlags: set<nat>, filledFlags: set<nat>, sealed: set<nat>,
                   filled: set<nat>,
                   incomplete: seq<Pending>, incomplete': seq<Pending>)
    requires FlagsAre(again, n, sealedFlags, filledFlags, sealed, filled, incomplete) && !again
    ensures FlagsAre(again, n, sealedFlags, filledFlags, sealed, filled, incomplete')
  {
  }

  lemma NothingWalked(hist: History, body: seq<Instruction>)
    ensures |Rewrite(hist, body[..0])| == 0
  {
  }

  lemma HistMapPhis(s: Pass, s': Pass, hist: History)
    requires HistMap(s, hist) && s'.replacement == s.replacement
    ensures HistMap(s', hist)
  {
  }

  class Promoter {
    const preds: seq<seq<nat>>
    const promotable: set<nat>
    /** The flags are still set from a round before. */
    const again: bool
    ghost const c: Ctx

    var blocks: seq<Block>
    var phis: map<Value, Phi>
    var defMap: map<(nat, nat), Value>
    var replacementMap: map<Value, Value>
    var incompletePhis: seq<Pending>
    var sealedFlags: set<nat>
    var filledFlags: set<nat>
    var nextSerial: nat

    ghost var sealed: set<nat>
    ghost var filled: set<nat>
    ghost var hist: History
    ghost var cur: Cursor

    ghost function S(): Pass
      reads this
    {
      Pass(blocks, phis, defMap, replacementMap, incompletePhis, sealed, filled, nextSerial)
    }

    ghost predicate Valid(busy: Value)
      reads this
    {
      && preds == c.preds && promotable == c.P && Inv(c, S(), cur, busy, hist)
      && FlagsAre(again, |preds|, sealedFlags, filledFlags, sealed, filled, incompletePhis)
    }

    constructor (f: Func, preds: seq<seq<nat>>, promotable: set<nat>, again: bool, ghost c: Ctx)
      requires WellFormed(c) && AllReachable(f) && c.f == f && c.preds == preds && c.P == promotable
      ensures Valid(Const(0)) && this.c == c && this.preds == preds
      ensures blocks == f.blocks && phis == f.phis && hist == [] && cur == Cursor(0, 0)
      ensures incompletePhis == [] && sealed == {} && filled == {} && this.again == again
      ensures AllDone(c, S(), 0)
    {
      this.preds, this.promotable, this.again := preds, promotable, again;
      this.c := c;
      blocks, phis := f.blocks, f.phis;
      defMap, replacementMap, incompletePhis := map[], map[], [];
      BelowCard(|preds|);
      sealedFlags := if again then Below(|preds|) else {};
      filledFlags, nextSerial := sealedFlags, 0;
      sealed, filled := {}, {};
      hist, cur := [], Cursor(0, 0);
      new;
      InitInv(c);
      assert S() == InitPass(c);
    }

    /** Follows the replacement map to a value that is still in the function. */
    method GetReplacementValue(v: Value) returns (r: Value)
      requires HistMap(S(), hist)
      ensures r == Chase(hist, v)
    {
      r := v;
      ghost var n := 0;
      assert hist[..0] == [];
      while r in replacementMap
        invariant n <= |hist| && Chase(hist[..n], v) == r
        invariant forall j :: 0 <= j < n ==> hist[j].0 != r
        decreases |hist| - n
      {
        n := ChaseStep(S(), hist, n, v);
        r := replacementMap[r];
      }
      LiveNotReplaced(S(), hist, r);
      ChaseSkip(hist, n, |hist|, v);
      assert hist[..|hist|] == hist;
    }

    /** All uses of x, in blocks and phis, become uses of y. */
    method ReplaceAllUsesWith(x: Value, y: Value)
      modifies this`blocks, this`phis
      ensures S() == ReplaceUses(old(S()), x, y)
    {
      blocks := seq(|blocks|, b requires 0 <= b < |blocks| reads this => SubstBlock(x, y, blocks[b]));
      phis := map v | v in phis :: SubstPhi(x, y, phis[v]);
    }

    method ReplaceVariable(x: Value, newVal: Value)
      requires HistMap(S(), hist)
      modifies this`blocks, this`phis, this`replacementMap
      ensures var y := Chase(hist, newVal);
              S() == ReplaceUses(old(S()), x, y).(replacement := old(replacementMap)[x := y])
    {
      var y := GetReplacementValue(newVal);
      ReplaceAllUsesWith(x, y);
      replacementMap := replacementMap[x := y];
    }

    /** Whether a phi has at most one operand besides itself, and which. */
    method FindTrivialValue(phi: Value) returns (trivial: bool, same: Value)
      requires phi in phis && phi != Const(0)
      ensures trivial ==> TrivialValue(phi, phis[phi].ops, same)
      ensures !trivial ==> forall v :: !TrivialValue(phi, phis[phi].ops, v)
      ensures trivial <==> !TwoValues(phi, phis[phi].ops)
    {
      var ops := phis[phi].ops;
      var found := false;
      same := Const(0);
      var i := 0;
      while i < |ops|
        invariant 0 <= i <= |ops|
        invariant found ==> same != phi && exists j :: 0 <= j < i && ops[j].0 == same
        invariant !found ==> same == Const(0)
        invariant forall j :: 0 <= j < i ==> ops[j].0 == phi || (found && ops[j].0 == same)
      {
        var v := ops[i].0;
        if !(found && v == same) && v != phi {
          if found {
            return false, phi;
          }
          same, found := v, true;
        }
        i := i + 1;
      }
      trivial := true;
    }

    /** Replaces a trivial phi and takes it out; returns the phis that used it. */
    method ReplacePhi(phi: Value, same: Value, ghost lo: nat, ghost busy: Value) returns (users: set<Value>)
      requires Valid(busy)
      requires phi in phis && Complete(preds, phis[phi]) && Rank(phi) >= lo
      requires forall i :: 0 <= i < |incompletePhis| && incompletePhis[i].phi == phi ==> phi == busy
      requires Isolated(S(), lo) && AllDone(c, S(), lo)
      requires TrivialValue(phi, phis[phi].ops, same)
      modifies this`blocks, this`phis, this`defMap, this`replacementMap, this`incompletePhis, this`nextSerial, this`hist
      ensures Valid(busy) && cur == old(cur)
      ensures S() == DropPhi(old(S()), phi, same) && hist == old(hist) + [(phi, same)]
      ensures Chase(old(hist), phi) == phi && Chase(old(hist), same) == same
      ensures forall u :: u in users ==> Rank(u) >= lo && UserOk(c, old(S()), busy, phi, u)
    {
      hide Inv, FlagsAre, Isolated, AllDone, Complete, UserOk, DropPhi, HistMap, Chase, UsesIn, RemoveFirst,
        TrivialValue, Rank;
      ghost var s0, h0 := S(), hist;
      PhiReady(c, s0, cur, busy, h0, phi);
      ReplaceReady(c, s0, cur, busy, h0, phi, same, lo);

      // The phi no longer names itself
      ghost var p := phis[phi].(ops := RemoveFirst(phis[phi].ops, phi));
      DropPhiSame(s0, phi, p, same);
      phis := phis[phi := phis[phi].(ops := RemoveFirst(phis[phi].ops, phi))];
      assert S() == s0.(phis := s0.phis[phi := p]);

      // Its other users are remembered
      users := set u | u in phis && UsesIn(phis[u].ops, phi);
      UsersBefore(s0.phis, phi, phis, users);
      HistMapPhis(s0, S(), h0);

      TakePhiOut(phi, same);
      hist := hist + [(phi, same)];
    }

    /** The phi's uses are replaced and it goes. */
    method TakePhiOut(phi: Value, same: Value)
      requires HistMap(S(), hist) && Chase(hist, same) == same
      modifies this`blocks, this`phis, this`replacementMap
      ensures S() == DropPhi(old(S()), phi, same)
    {
      hide HistMap, Chase, SubstBlock, SubstPhi;
      ReplaceVariable(phi, same);
      phis := phis - {phi};
    }

    /** Removes a phi that merges one value with itself, and then phis that used it and
        became trivial.  A user that an inner call has already removed is skipped. */
    method TryRemoveTrivialPhi(phi: Value, ghost lo: nat, ghost busy: Value) returns (r: Value)
      requires Valid(busy)
      requires phi in phis && Complete(preds, phis[phi]) && Rank(phi) >= lo
      requires forall i :: 0 <= i < |incompletePhis| && incompletePhis[i].phi == phi ==> phi == busy
      requires Isolated(S(), lo) && AllDone(c, S(), lo)
      modifies this`blocks, this`phis, this`defMap, this`replacementMap, this`incompletePhis, this`nextSerial, this`hist
      ensures Valid(busy) && cur == old(cur)
      ensures Frame(old(S()), S(), old(hist), hist, lo) && SamePreds(old(S()), S())
      ensures Isolated(S(), lo) && AllDone(c, S(), lo)
      ensures nextSerial == old(nextSerial) && defMap == old(defMap) && incompletePhis == old(incompletePhis)
      ensures r == Chase(hist, phi) && (phi in phis || phi in replacementMap)
      ensures if TwoValues(phi, old(phis[phi].ops)) then r == phi && S() == old(S()) && hist == old(hist)
              else phi !in phis
      decreases |phis|
    {
      hide Inv, FlagsAre, Frame, SamePreds, Isolated, AllDone, UserOk, Complete, HistMap, TrivialValue, TwoValues;
      ghost var s0, h0 := S(), hist;
      PhiReady(c, s0, cur, busy, h0, phi);
      var trivial, same := FindTrivialValue(phi);
      if !trivial {
        FrameSame(s0, h0, lo);
        return phi;
      }
      var users := ReplacePhi(phi, same, lo, busy);
      DropPhiFrame(c, s0, h0, phi, same, lo);
      TrivialDiffers(phi, s0.phis[phi].ops, same);

      // Each of these users may be trivial now and goes the same way
      while users != {}
        invariant Valid(busy) && cur == old(cur)
        invariant Frame(s0, S(), h0, hist, lo) && SamePreds(s0, S())
        invariant |h0| < |hist| && hist[..|h0| + 1] == h0 + [(phi, same)]
        invariant Isolated(S(), lo) && AllDone(c, S(), lo)
        invariant nextSerial == s0.next && defMap == s0.defMap && incompletePhis == s0.incomplete
        invariant phis.Keys <= s0.phis.Keys - {phi}
        invariant forall u :: u in users ==> Rank(u) >= lo && UserOk(c, s0, busy, phi, u)
        decreases |users|
      {
        var u :| u in users;
        users := users - {u};
        if u in phis {
          ghost var s1, h1 := S(), hist;
          SubsetCard(phis.Keys, s0.phis.Keys - {phi});
          UserStays(c, s0, s1, busy, phi, u);
          var _ := TryRemoveTrivialPhi(u, lo, busy);
          CascadeFrame(s0, s1, S(), h0, h1, hist, lo);
        }
      }
      PhiReady(c, S(), cur, busy, hist, same);
      WasReplaced(S(), hist, h0, phi, same);
      r := GetReplacementValue(same);
      ChaseThrough(hist, h0, phi, same);
    }

    /** Gives a phi one operand pair for each predecessor, in their order, and then tries
        to do without it. */
    method AddPhiOperands(phi: Value, addr: nat, ghost lo: nat, ghost busy: Value) returns (r: Value)
      requires Valid(busy)
      requires Filling(c, S(), phi, addr, 0) && Rank(phi) >= lo
      requires PendingOnly(S(), phi, busy)
      requires Isolated(S(), lo) && AllDoneBut(c, S(), lo, phi)
      modifies this`blocks, this`phis, this`defMap, this`replacementMap, this`incompletePhis, this`nextSerial, this`hist
      ensures Valid(busy) && cur == old(cur)
      ensures Frame(old(S()), S(), old(hist), hist, lo)
      ensures AllDone(c, S(), lo) && NewPendings(old(S()), S(), addr)
      ensures phi in phis ==> Complete(preds, phis[phi])
      ensures r == Chase(hist, phi) && (phi in phis || phi in replacementMap)
      ensures phi in phis ==> TwoValues(phi, phis[phi].ops)
      decreases Missing(c, defMap), 1, 0, 0
    {
      hide Inv, FlagsAre, Progress, Isolated, AllDone, AllDoneBut, Complete, Missing, Frame, NewPendings, ReadFrame;
      hide TwoValues, Live, Sound, Readable, Point, PendingOnly, SamePreds;
      ghost var s0, h0 := S(), hist;
      FillingStart(c, s0, h0, phi, addr, lo, busy);
      var i := 0;
      while i < |preds[phi.block]|
        invariant Valid(busy) && cur == old(cur)
        invariant phi.block < |preds| && Filling(c, S(), phi, addr, i)
        invariant Progress(c, s0, S(), h0, hist, phi, addr, lo, busy)
      {
        var pred := preds[phi.block][i];
        ghost var s1, h1 := S(), hist;
        ghost var path := FillingPred(c, s0, s1, cur, busy, h0, h1, phi, addr, lo, i);
        FlagsBelow(this, pred);
        var v := ReadVariable(pred, addr, path, busy);
        ghost var s2, h2 := S(), hist;
        FillingStep(c, s0, s1, s2, cur, busy, h0, h1, h2, phi, addr, lo, i, v);
        phis := phis[phi := phis[phi].(ops := phis[phi].ops + [(v, pred)])];
        assert S() == AppendOp(s2, phi, v, pred);
        i := i + 1;
      }
      ghost var s3, h3 := S(), hist;
      FillingDone(c, s0, s3, h0, h3, phi, addr, lo, busy);
      r := TryRemoveTrivialPhi(phi, lo, busy);
      FillingEnd(c, s0, s3, S(), h0, h3, hist, phi, addr, lo, busy);
    }

    /** The value of slot addr at the end of block bb, or at the current instruction. */
    method ReadVariable(bb: nat, addr: nat, ghost path: seq<nat>, ghost busy: Value) returns (v: Value)
      requires Valid(busy)
      requires again ==> bb in sealed
      requires Readable(c, S(), cur, bb) && addr in c.P && PathTo(c.f, path, bb)
      modifies this`blocks, this`phis, this`defMap, this`replacementMap, this`incompletePhis, this`nextSerial, this`hist
      ensures Valid(busy) && cur == old(cur)
      ensures ReadFrame(c, old(S()), S(), old(hist), hist, addr)
      ensures Live(c, S(), v) && Sound(c, v, SlotOf(addr), bb, Point(c, S(), cur, bb))
      decreases Missing(c, defMap), 0, |path|, 2
    {
      hide Inv, FlagsAre, ReadFrame, Live, Sound, Missing, PathTo;
      if (bb, addr) in defMap {
        DefinedRead(c, S(), cur, busy, hist, bb, addr);
        v := GetReplacementValue(defMap[(bb, addr)]);
      } else {
        v := ReadVariableR(bb, addr, path, busy);
      }
    }

    method ReadVariableR(bb: nat, addr: nat, ghost path: seq<nat>, ghost busy: Value) returns (v: Value)
      requires Valid(busy) && (again ==> bb in sealed)
      requires Readable(c, S(), cur, bb) && addr in c.P && PathTo(c.f, path, bb)
      requires (bb, addr) !in defMap
      modifies this`blocks, this`phis, this`defMap, this`replacementMap, this`incompletePhis, this`nextSerial, this`hist
      ensures Valid(busy) && cur == old(cur)
      ensures ReadFrame(c, old(S()), S(), old(hist), hist, addr)
      ensures Live(c, S(), v) && Sound(c, v, SlotOf(addr), bb, Point(c, S(), cur, bb))
      decreases Missing(c, defMap), 0, |path|, 1
    {
      hide Inv, ReadFrame, Live, Sound, Missing, PathTo, Readable, Point;
      ReadableBlock(c, S(), cur, busy, hist, bb);
      if bb !in sealedFlags {
        v := ReadUnsealed(bb, addr, busy);
      } else if |preds[bb]| == 1 && preds[bb][0] != bb {
        v := ReadThrough(bb, addr, path, busy);
      } else {
        v := ReadJoin(bb, addr, |path|, busy);
      }
    }

    /** A phi that is completed when the block is sealed. */
    method ReadUnsealed(bb: nat, addr: nat, ghost busy: Value) returns (v: Value)
      requires Valid(busy) && (again ==> bb in sealed)
      requires Readable(c, S(), cur, bb) && addr in c.P && bb < |preds| && bb !in sealedFlags
      requires (bb, addr) !in defMap
      modifies this`phis, this`defMap, this`incompletePhis, this`nextSerial
      ensures Valid(busy) && cur == old(cur)
      ensures ReadFrame(c, old(S()), S(), old(hist), hist, addr)
      ensures Live(c, S(), v) && Sound(c, v, SlotOf(addr), bb, Point(c, S(), cur, bb))
    {
      hide Inv, FlagsAre, ReadFrame, Frame, AllDone, AllDoneBut, NewPendings, Live, Sound, Missing, PathTo, Isolated,
        Readable, Point;
      hide Filling, PendingOnly, Complete;
      ghost var s0, h0 := S(), hist;
      FlagsUnset(this, bb);
      var phi := NewPhi(nextSerial, bb, addr);
      UnsealedRead(c, s0, cur, busy, h0, bb, addr);
      phis := phis[phi := Phi(bb, [])];
      nextSerial := nextSerial + 1;
      incompletePhis := incompletePhis + [Pending(bb, addr, phi)];
      v := phi;
      defMap := defMap[(bb, addr) := v];
      assert S() == UnsealedPass(s0, bb, addr);
      FlagsFresh(again, |preds|, sealedFlags, filledFlags, sealed, filled, s0.incomplete, incompletePhis);
    }

    /** With a single predecessor its value is taken over as it is. */
    method ReadThrough(bb: nat, addr: nat, ghost path: seq<nat>, ghost busy: Value) returns (v: Value)
      requires Valid(busy) && (again ==> bb in sealed)
      requires Readable(c, S(), cur, bb) && addr in c.P && PathTo(c.f, path, bb) && bb < |preds|
      requires (bb, addr) !in defMap
      requires bb in sealedFlags && |preds[bb]| == 1 && preds[bb][0] != bb
      modifies this`blocks, this`phis, this`defMap, this`replacementMap, this`incompletePhis, this`nextSerial, this`hist
      ensures Valid(busy) && cur == old(cur)
      ensures ReadFrame(c, old(S()), S(), old(hist), hist, addr)
      ensures Live(c, S(), v) && Sound(c, v, SlotOf(addr), bb, Point(c, S(), cur, bb))
      decreases Missing(c, defMap), 0, |path|, 0
    {
      hide Inv, FlagsAre, ReadFrame, Frame, AllDone, AllDoneBut, NewPendings, Live, Sound, Missing, PathTo, Isolated,
        Readable, Point;
      hide Filling, PendingOnly, Complete;
      ghost var s0, h0 := S(), hist;
      FlagsSet(this, bb);
      SinglePred(c, s0, cur, busy, h0, bb, path);
      FlagsBelow(this, preds[bb][0]);
      v := ReadVariable(preds[bb][0], addr, path[..|path| - 1], busy);
      SingleRead(c, s0, S(), cur, busy, h0, hist, bb, addr, v);
      defMap := defMap[(bb, addr) := v];
    }

    /** With several a phi is made, entered and then completed. */
    method ReadJoin(bb: nat, addr: nat, ghost length: nat, ghost busy: Value) returns (v: Value)
      requires Valid(busy) && (again ==> bb in sealed)
      requires Readable(c, S(), cur, bb) && addr in c.P && bb < |preds|
      requires (bb, addr) !in defMap
      requires bb in sealedFlags && !(|preds[bb]| == 1 && preds[bb][0] != bb)
      modifies this`blocks, this`phis, this`defMap, this`replacementMap, this`incompletePhis, this`nextSerial, this`hist
      ensures Valid(busy) && cur == old(cur)
      ensures ReadFrame(c, old(S()), S(), old(hist), hist, addr)
      ensures Live(c, S(), v) && Sound(c, v, SlotOf(addr), bb, Point(c, S(), cur, bb))
      decreases Missing(c, defMap), 0, length, 0
    {
      hide Inv, FlagsAre, ReadFrame, Frame, AllDone, AllDoneBut, NewPendings, Live, Sound, Missing, PathTo, Isolated,
        Readable, Point;
      hide Filling, PendingOnly, Complete;
      ghost var s0, h0 := S(), hist;
      FlagsSet(this, bb);
      var phi := NewPhi(nextSerial, bb, addr);
      JoinStart(c, s0, cur, busy, h0, bb, addr);
      phis := phis[phi := Phi(bb, [])];
      nextSerial := nextSerial + 1;
      defMap := defMap[(bb, addr) := phi];
      assert S() == JoinPass(s0, bb, addr);
      v := AddPhiOperands(phi, addr, Rank(phi), busy);
      JoinEnd(c, s0, S(), cur, busy, h0, hist, bb, addr, v);
      defMap := defMap[(bb, addr) := v];
    }

    /** Seals a block all of whose predecessors have been walked: its waiting phis get
        their operands.  The list is gone through backwards because entries are deleted
        and reads append new ones. */
    method TrySealBlock(bb: nat) returns (ok: bool)
      requires Valid(Const(0)) && AllDone(c, S(), 0) && bb < |preds|
      modifies this
      ensures Valid(Const(0)) && AllDone(c, S(), 0) && cur == old(cur) && filled == old(filled)
      ensures ok <==> again || bb in old(sealed) || AllFilled(preds[bb], filled)
      ensures sealed == old(sealed) + if bb in old(sealed) || AllFilled(preds[bb], filled) then {bb} else {}
    {
      hide Inv, AllDone, Frame, NewPendings, Filling, PendingOnly, Isolated, AllDoneBut, Complete;
      if bb in sealedFlags {
        if again {
          SealAgain(bb);
        }
        return true;
      }
      var numPred := |preds[bb]|;
      var numPredFilled := 0;
      for i := 0 to numPred
        invariant numPredFilled <= i
        invariant numPredFilled == i <==> forall j :: 0 <= j < i ==> preds[bb][j] in filledFlags
      {
        if preds[bb][i] in filledFlags {
          numPredFilled := numPredFilled + 1;
        }
      }
      ok := numPredFilled == numPred;
      if ok {
        var iPhi := |incompletePhis|;
        while iPhi > 0
          invariant 0 <= iPhi <= |incompletePhis|
          invariant Valid(Const(0)) && AllDone(c, S(), 0)
          invariant cur == old(cur) && filled == old(filled) && sealed == old(sealed)
          invariant forall j :: iPhi <= j < |incompletePhis| ==> incompletePhis[j].block != bb
        {
          iPhi := iPhi - 1;
          var p := incompletePhis[iPhi];
          if p.block == bb {
            ghost var s, h := S(), hist;
            SealReady(c, s, cur, h, bb, iPhi);
            PendingDefined(c, s, cur, h, iPhi);
            var _ := AddPhiOperands(p.phi, p.slot, 0, p.phi);
            SealStep(c, s, S(), cur, h, hist, bb, iPhi);
            FrameSets(s, S(), h, hist, 0);
            incompletePhis := incompletePhis[..iPhi] + incompletePhis[iPhi + 1..];
          }
        }
        SealEnd(c, S(), cur, hist, bb);
        sealedFlags := sealedFlags + {bb};
        sealed := sealed + {bb};
      }
    }

    /** A flag that is still set is right as soon as all predecessors have been walked. */
    ghost method SealAgain(bb: nat)
      requires Valid(Const(0)) && AllDone(c, S(), 0) && bb < |preds| && again
      modifies this`sealed
      ensures Valid(Const(0)) && AllDone(c, S(), 0)
      ensures sealed == old(sealed) + if bb in old(sealed) || AllFilled(preds[bb], filled) then {bb} else {}
    {
      hide Inv, AllDone;
      if AllFilled(preds[bb], filled) {
        SealEnd(c, S(), cur, hist, bb);
        sealed := sealed + {bb};
      }
    }

    /** Marks the current block as walked and tries to seal its successors. */
    method FillBlock(bb: nat)
      requires Valid(Const(0)) && AllDone(c, S(), 0)
      requires cur == Cursor(bb, Len(c, bb)) && bb < |preds| && bb + 1 !in filled
      requires SealsDone(preds, S(), bb + 1) && (again ==> bb in sealed)
      modifies this
      ensures Valid(Const(0)) && AllDone(c, S(), 0) && cur == Cursor(bb + 1, 0)
      ensures filled == old(filled) + {bb} && SealsDone(preds, S(), bb + 1)
    {
      hide Inv, AllDone, SealsDone;
      ghost var s := S();
      FillReady(c, s, cur, hist, bb);
      var succs := Succs(blocks[bb].term);
      filledFlags := filledFlags + {bb};
      filled := filled + {bb};
      cur := Cursor(bb + 1, 0);
      DoneSamePhis(c, s, S());
      for iSucc := 0 to |succs|
        invariant Valid(Const(0)) && AllDone(c, S(), 0) && cur == Cursor(bb + 1, 0)
        invariant filled == old(filled) + {bb} && s.sealed <= sealed
        invariant forall j :: 0 <= j < |succs| ==> succs[j] < |preds|
        invariant forall j :: 0 <= j < iSucc && AllFilled(preds[succs[j]], filled) ==> succs[j] in sealed
      {
        var _ := TrySealBlock(succs[iSucc]);
      }
      SealsAfterFill(c, s, S(), bb, succs);
    }

    /** Replaces the promoted load at index i of the current block by the slot's value
        and removes it. */
    method WalkLoad(bb: nat, i: nat, ghost path: seq<nat>)
      requires Valid(Const(0)) && AllDone(c, S(), 0)
      requires cur.block == bb && AtInstr(c, S(), cur) && PathTo(c.f, path, bb)
      requires CurInstr(c, cur).Load? && IsSlot(CurInstr(c, cur).addr, promotable)
      requires i == |Rewrite(hist, c.f.blocks[bb].body[..cur.k])|
      requires bb < |blocks| && i < |blocks[bb].body| && blocks[bb].body[i].Load? && (again ==> bb in sealed)
      requires blocks[bb].body[i].id == CurInstr(c, cur).id && blocks[bb].body[i].addr == CurInstr(c, cur).addr
      modifies this
      ensures Valid(Const(0)) && AllDone(c, S(), 0) && cur == Advance(old(cur))
      ensures i == |Rewrite(hist, c.f.blocks[bb].body[..cur.k])|
      ensures filled == old(filled) && sealed == old(sealed)
    {
      hide Inv, FlagsAre, AllDone, ReadFrame, Live, Sound, Readable, PathTo, Point;
      ghost var s0, h0 := S(), hist;
      var instr := blocks[bb].body[i];
      AtCurrent(c, s0, cur, Const(0), h0);
      var val := ReadVariable(bb, instr.addr.id, path, Const(0));
      ghost var s1, h1 := S(), hist;
      AfterRead(c, s0, s1, cur, h0, h1, instr.addr.id);
      AtCurrent(c, s1, cur, Const(0), h1);
      LoadStep(c, s1, cur, h1, instr.addr.id, val, i);
      hide HistMap, Chase, DropLoad, Rewrite;
      TakeLoadOut(bb, i, Instr(instr.id), val);
      hist := hist + [(Instr(instr.id), val)];
      cur := Advance(cur);
    }

    /** The load's uses are replaced; then it has no users left and goes. */
    method TakeLoadOut(bb: nat, i: nat, load: Value, val: Value)
      requires HistMap(S(), hist) && Chase(hist, val) == val && bb < |blocks| && i < |blocks[bb].body|
      modifies this`blocks, this`phis, this`replacementMap
      ensures S() == DropLoad(old(S()), bb, i, load, val)
    {
      hide HistMap, Chase, SubstPhi;
      ReplaceVariable(load, val);
      blocks := blocks[bb := blocks[bb].(body := blocks[bb].body[..i] + blocks[bb].body[i + 1..])];
    }

    /** Walks one block: stores to promoted slots become definitions, loads from them
        are replaced by the slot's value and removed. */
    method WalkBlock(bb: nat)
      requires Valid(Const(0)) && AllDone(c, S(), 0)
      requires cur == Cursor(bb, 0) && bb < |preds| && (again ==> bb in sealed)
      modifies this
      ensures Valid(Const(0)) && AllDone(c, S(), 0) && cur == Cursor(bb, Len(c, bb))
      ensures filled == old(filled) && sealed == old(sealed)
    {
      hide Inv, FlagsAre, AllDone, PathTo, Rewrite, Readable, Point;
      BlockLen(c, S(), cur, Const(0), hist, bb);
      var i := 0;
      NothingWalked(hist, c.f.blocks[bb].body);
      WalkAt(c, S(), cur, Const(0), hist, i);
      while i < |blocks[bb].body|
        invariant Valid(Const(0)) && AllDone(c, S(), 0)
        invariant cur.block == bb && cur.k <= Len(c, bb) && bb < |blocks|
        invariant i == |Rewrite(hist, c.f.blocks[bb].body[..cur.k])|
        invariant cur.k == Len(c, bb) ==> i == |blocks[bb].body|
        invariant filled == old(filled) && sealed == old(sealed)
        decreases Len(c, bb) - cur.k
      {
        ghost var s0 := S();
        WalkAt(c, s0, cur, Const(0), hist, i);
        AtCurrent(c, s0, cur, Const(0), hist);
        CurKind(c, s0, cur, Const(0), hist);
        var instr := blocks[bb].body[i];
        if instr.Load? && IsSlot(instr.addr, promotable) {
          ghost var path :| PathTo(c.f, path, bb);
          WalkLoad(bb, i, path);
        } else {
          if instr.Store? && IsSlot(instr.addr, promotable) {
            StoreInv(c, s0, cur, Const(0), hist, instr.addr.id);
            defMap := defMap[(bb, instr.addr.id) := instr.val];
            DoneSamePhis(c, s0, S());
          } else {
            NoSlotStore(c, cur);
            AdvanceInv(c, s0, cur, Const(0), hist);
          }
          cur := Advance(cur);
          i := i + 1;
        }
        AtCurrent(c, S(), cur, Const(0), hist);
        WalkAt(c, S(), cur, Const(0), hist, i);
      }
      WalkAt(c, S(), cur, Const(0), hist, i);
    }

    /** Seals a block if possible, walks it and marks it as walked. */
    method ProcessBlock(bb: nat)
      requires Valid(Const(0)) && AllDone(c, S(), 0)
      requires cur == Cursor(bb, 0) && bb < |preds| && bb + 1 !in filled
      requires SealsDone(preds, S(), bb) && (again ==> AllFilled(preds[bb], filled))
      modifies this
      ensures Valid(Const(0)) && AllDone(c, S(), 0) && cur == Cursor(bb + 1, 0)
      ensures filled == old(filled) + {bb} && SealsDone(preds, S(), bb + 1)
    {
      hide Inv, AllDone, SealsDone, Len;
      ghost var s0 := S();
      var _ := TrySealBlock(bb);
      SealsHere(preds, s0, S(), bb);
      ghost var s1 := S();
      WalkBlock(bb);
      SealsKept(preds, s1, S(), bb + 1);
      FillBlock(bb);
    }

    /** One round over all blocks, in list order. */
    method WalkBlocks()
      requires Valid(Const(0)) && AllDone(c, S(), 0)
      requires cur == Cursor(0, 0) && filled == {} && sealed == {} && (again ==> InOrder(preds))
      modifies this
      ensures Valid(Const(0)) && cur == Cursor(|c.f.blocks|, 0)
      ensures forall b :: 0 <= b < |preds| ==> b in filled && b in sealed
      ensures incompletePhis == []
      ensures forall phi :: phi in phis ==> Complete(preds, phis[phi])
    {
      hide Inv, AllDone, SealsDone, Complete;
      BlocksReady(c, S(), cur, hist);
      var bb := 0;
      while bb < |blocks|
        invariant 0 <= bb <= |blocks| == |c.f.blocks| == |preds|
        invariant Valid(Const(0)) && AllDone(c, S(), 0) && cur == Cursor(bb, 0)
        invariant forall b: nat :: b in filled <==> b < bb
        invariant SealsDone(preds, S(), bb)
      {
        ProcessBlock(bb);
        bb := bb + 1;
        BlockLen(c, S(), cur, Const(0), hist, 0);
      }
      NothingPending(c, S(), cur, hist);
    }

    /** Removes an alloca that is only stored to: first its users, then the alloca. */
    method TryRemoveDeadAlloca(a: nat)
      modifies this`blocks
      ensures !OnlyStoreUses(old(blocks), phis, a) ==> blocks == old(blocks)
      ensures OnlyStoreUses(old(blocks), phis, a) ==>
                Forgotten(blocks, phis, a) && OthersSurvive(old(blocks), blocks, a)
    {
      hide OnlyStoreUses, IsUserOf, WithoutIn, OthersSurvive, Forgotten;
      var users, hasOnlyStores := StoreUsers(blocks, phis, a);
      if hasOnlyStores {
        ghost var all, removed := users, {};
        WithoutNone(blocks);
        while users != {}
          invariant users !! removed && users + removed == all && blocks == WithoutIn(removed, old(blocks))
          decreases |users|
        {
          var use :| use in users;
          users := users - {use};
          WithoutOneMore(removed, use, old(blocks));
          blocks := WithoutIn({use}, blocks);
          removed := removed + {use};
        }
        WithoutOneMore(removed, Alloca(a), old(blocks));
        blocks := WithoutIn({Alloca(a)}, blocks);
        RemovedAll(old(blocks), phis, a, all);
      }
    }
  }

  /** Promotable, said of the uses: instructions that name the alloca load something or store
      something else than it, and no terminator and no phi names it. */
  lemma PromotableIs(f: Func, a: nat)
    ensures Promotable(f, a) <==>
      && (forall b, k ::
            0 <= b < |f.blocks| && 0 <= k < |f.blocks[b].body| && UsedBy(f.blocks[b].body[k], Instr(a)) ==>
            f.blocks[b].body[k].Load? || (f.blocks[b].body[k].Store? && f.blocks[b].body[k].val != Instr(a)))
      && (forall b :: 0 <= b < |f.blocks| ==> !UsedByTerm(f.blocks[b].term, Instr(a)))
      && (forall v, i :: v in f.phis && 0 <= i < |f.phis[v].ops| ==> f.phis[v].ops[i].0 != Instr(a))
  {
    forall b, k | 0 <= b < |f.blocks| && 0 <= k < |f.blocks[b].body|
      ensures SlotUse(f.blocks[b].body[k], Instr(a)) <==>
        (UsedBy(f.blocks[b].body[k], Instr(a)) ==>
          f.blocks[b].body[k].Load? || (f.blocks[b].body[k].Store? && f.blocks[b].body[k].val != Instr(a)))
    {
    }
  }

  /** Whether all uses of the alloca are loads from it and stores to it. */
  method IsAllocaPromotable(f: Func, a: nat) returns (ok: bool)
    ensures ok <==> Promotable(f, a)
    ensures ok <==>
      && (forall b, k ::
            0 <= b < |f.blocks| && 0 <= k < |f.blocks[b].body| && UsedBy(f.blocks[b].body[k], Instr(a)) ==>
            f.blocks[b].body[k].Load? || (f.blocks[b].body[k].Store? && f.blocks[b].body[k].val != Instr(a)))
      && (forall b :: 0 <= b < |f.blocks| ==> !UsedByTerm(f.blocks[b].term, Instr(a)))
      && (forall v, i :: v in f.phis && 0 <= i < |f.phis[v].ops| ==> f.phis[v].ops[i].0 != Instr(a))
  {
    PromotableIs(f, a);
    for b := 0 to |f.blocks|
      invariant forall b', k :: 0 <= b' < b && 0 <= k < |f.blocks[b'].body| ==> SlotUse(f.blocks[b'].body[k], Instr(a))
      invariant forall b' :: 0 <= b' < b ==> !UsedByTerm(f.blocks[b'].term, Instr(a))
    {
      for k := 0 to |f.blocks[b].body|
        invariant forall k' :: 0 <= k' < k ==> SlotUse(f.blocks[b].body[k'], Instr(a))
      {
        if !SlotUse(f.blocks[b].body[k], Instr(a)) {
          return false;
        }
      }
      if UsedByTerm(f.blocks[b].term, Instr(a)) {
        return false;
      }
    }
    var rest := f.phis.Keys;
    while rest != {}
      invariant rest <= f.phis.Keys
      invariant forall v, i :: v in f.phis && v !in rest && 0 <= i < |f.phis[v].ops| ==> f.phis[v].ops[i].0 != Instr(a)
      decreases |rest|
    {
      var v :| v in rest;
      if UsesIn(f.phis[v].ops, Instr(a)) {
        return false;
      }
      rest := rest - {v};
    }
    ok := true;
  }

  /** The promotable allocas of the entry block. */
  method FindPromotable(f: Func) returns (P: seq<nat>)
    requires |f.blocks| > 0
    ensures forall a :: a in P <==> Alloca(a) in f.blocks[0].body && Promotable(f, a)
    ensures forall a :: a in P <==>
      && Alloca(a) in f.blocks[0].body
      && (forall b, k ::
            0 <= b < |f.blocks| && 0 <= k < |f.blocks[b].body| && UsedBy(f.blocks[b].body[k], Instr(a)) ==>
            f.blocks[b].body[k].Load? || (f.blocks[b].body[k].Store? && f.blocks[b].body[k].val != Instr(a)))
      && (forall b :: 0 <= b < |f.blocks| ==> !UsedByTerm(f.blocks[b].term, Instr(a)))
      && (forall v, i :: v in f.phis && 0 <= i < |f.phis[v].ops| ==> f.phis[v].ops[i].0 != Instr(a))
  {
    hide Promotable, UsedBy, UsedByTerm;
    P := [];
    var entry := f.blocks[0].body;
    for k := 0 to |entry|
      invariant forall a :: a in P <==> Alloca(a) in entry[..k] && Promotable(f, a)
    {
      assert entry[..k + 1] == entry[..k] + [entry[k]];
      if entry[k].Alloca? {
        var ok := IsAllocaPromotable(f, entry[k].id);
        if ok {
          P := P + [entry[k].id];
        }
      }
    }
    assert entry[..|entry|] == entry;
    forall a: nat {
      PromotableIs(f, a);
    }
  }

  /** The phi has two different operands besides itself. */
  ghost predicate TwoValues(phi: Value, ops: seq<(Value, nat)>) {
    exists i, j ::
      0 <= i < |ops| && 0 <= j < |ops| && ops[i].0 != phi && ops[j].0 != phi && ops[i].0 != ops[j].0
  }

  lemma TwoValuesIs(phi: Value, ops: seq<(Value, nat)>)
    ensures TwoValues(phi, ops) <==> exists i, j ::
              0 <= i < |ops| && 0 <= j < |ops| && ops[i].0 != phi && ops[j].0 != phi && ops[i].0 != ops[j].0
  {
  }

  ghost function FirstOf(P: seq<nat>, i: nat): set<nat>
    requires i <= |P|
  {
    set j | 0 <= j < i :: P[j]
  }

  /** Takes the dead allocas out, one after the other. */
  method RemoveDeadAllocas(pass: Promoter, P: seq<nat>)
    requires Finished(pass.c, pass.S(), pass.hist) && StrippedTo(pass.c, pass.hist, {}, pass.blocks)
    requires FirstOf(P, |P|) == pass.c.P
    modifies pass`blocks
    ensures StrippedTo(pass.c, pass.hist, pass.c.P, pass.blocks)
  {
    hide Finished, StrippedTo, StripBlocks, OnlyStoreUses;
    ghost var s := pass.S();
    assert FirstOf(P, 0) == {};
    for i := 0 to |P|
      invariant pass.S() == s.(blocks := pass.blocks)
      invariant StrippedTo(pass.c, pass.hist, FirstOf(P, i), pass.blocks)
    {
      ghost var D := FirstOf(P, i);
      assert P[i] in FirstOf(P, |P|);
      PromotedAreDead(pass.c, s, pass.hist, D, pass.blocks, P[i]);
      StripMore(pass.c, pass.hist, D, pass.blocks, P[i]);
      assert FirstOf(P, i + 1) == D + {P[i]};
      ghost var blocks := pass.blocks;
      pass.TryRemoveDeadAlloca(P[i]);
      TouchedIsDead(pass.c, s, pass.hist, D, blocks, P[i]);
      OthersAreStripped(blocks, pass.blocks, P[i]);
    }
  }

  /** One round of promotion: the result runs like the original on every machine, for all
      arguments and in every world.  The flags of the blocks are cleared before the first
      round; `again` says that they are still set. */
  method Promote(f: Func, preds: seq<seq<nat>>, again: bool, ghost c: Ctx) returns (g: Func)
    requires c.f == f && c.preds == preds && AllMachines(c) && |f.blocks| > 0
    requires forall a :: a in c.P <==> Alloca(a) in f.blocks[0].body && Promotable(f, a)
    requires WellFormed(c) && AllReachable(f)
    requires again ==> InOrder(preds)
    ensures ValidTargets(g) && ValidTargets(f) && |g.blocks| == |f.blocks| > 0
    ensures forall run: Setting, steps: nat :: OutcomeOf(g, c.P, run, steps) == OutcomeOf(f, c.P, run, steps)
    ensures forall b, k, a :: 0 <= b < |g.blocks| && 0 <= k < |g.blocks[b].body| && a in c.P ==>
      !UsedBy(g.blocks[b].body[k], Instr(a)) && g.blocks[b].body[k] != Alloca(a)
    ensures forall phi :: phi in g.phis ==> Complete(preds, g.phis[phi])
  {
    var P := FindPromotable(f);
    var promotable := set a | a in P;
    assert promotable == c.P;
    hide WellFormed, Inv, AllDone, Complete, OutcomeOf, Promotable, InOrder;
    var pass := new Promoter(f, preds, promotable, again, c);
    pass.WalkBlocks();
    ghost var s, hist := pass.S(), pass.hist;
    FinishedNow(c, s, hist);
    StartStripped(c, s, pass.cur, hist);
    hide Finished, StrippedTo, ValidTargets, IsResult;
    assert FirstOf(P, |P|) == c.P;
    RemoveDeadAllocas(pass, P);
    g := Func(pass.blocks, pass.phis);
    ResultIs(c, s, hist, g);
    PromotionPreservesRuns(c, s, hist, g);
    ResultFree(c, s, hist, g);
  }

  lemma ResultFree(c: Ctx, s: Pass, hist: History, g: Func)
    requires IsResult(c, s, hist, g) && AllMachines(c)
    ensures |g.blocks| == |c.f.blocks| > 0
    ensures forall b, k, a :: 0 <= b < |g.blocks| && 0 <= k < |g.blocks[b].body| && a in c.P ==>
      !UsedBy(g.blocks[b].body[k], Instr(a)) && g.blocks[b].body[k] != Alloca(a)
    ensures forall phi :: phi in g.phis ==> Complete(c.preds, g.phis[phi])
  {
    hide Complete, Inv;
    forall b, k | 0 <= b < |g.blocks| && 0 <= k < |g.blocks[b].body|
      ensures forall a :: a in c.P ==> !UsedBy(g.blocks[b].body[k], Instr(a)) && g.blocks[b].body[k] != Alloca(a)
    {
      NoSlotAccess(c, s, hist, g, b, k);
    }
    BlockLen(c, s, Cursor(|c.f.blocks|, 0), Const(0), hist, 0);
    PromotionPreservesRuns(c, s, hist, g);
  }

  lemma FinishedNow(c: Ctx, s: Pass, hist: History)
    requires Inv(c, s, Cursor(|c.f.blocks|, 0), Const(0), hist)
    requires forall b :: 0 <= b < |c.preds| ==> b in s.filled
    requires forall phi :: phi in s.phis ==> Complete(c.preds, s.phis[phi])
    ensures Finished(c, s, hist)
  {
    BlockLen(c, s, Cursor(|c.f.blocks|, 0), Const(0), hist, 0);
    hide Inv, Complete;
  }

  lemma ResultIs(c: Ctx, s: Pass, hist: History, g: Func)
    requires Finished(c, s, hist) && StrippedTo(c, hist, c.P, g.blocks) && g.phis == s.phis
    ensures IsResult(c, s, hist, g)
  {
    hide Finished;
    forall b | 0 <= b < |g.blocks|
      ensures ResultBlock(c, hist, g, b)
    {
      assert StrippedBlock(c, hist, c.P, g.blocks, b);
    }
  }
}
