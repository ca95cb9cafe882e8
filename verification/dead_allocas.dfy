/** Removing an alloca that is only stored to: its users, and what is left of a body when
    they and the alloca are gone. */
module DeadAllocas {
  import opened IR
  import opened SsaPaths
  import opened SsaState
  import opened SsaReads
  import opened SsaCorrect

  predicate Touches(i: Instruction, a: nat) {
    i == Alloca(a) || UsedBy(i, Instr(a))
  }

  /** Nothing in the function is the alloca or names it. */
  ghost predicate Forgotten(blocks: seq<Block>, phis: map<Value, Phi>, a: nat) {
    && (forall b, k :: 0 <= b < |blocks| && 0 <= k < |blocks[b].body| ==> !Touches(blocks[b].body[k], a))
    && (forall b :: 0 <= b < |blocks| ==> !UsedByTerm(blocks[b].term, Instr(a)))
    && (forall v :: v in phis ==> !UsesIn(phis[v].ops, Instr(a)))
  }

  /** What is left are the instructions at the places picked, in order: exactly those that
      do not touch the alloca. */
  ghost predicate Picked(body: seq<Instruction>, rest: seq<Instruction>, a: nat, picks: seq<nat>) {
    && |picks| == |rest|
    && (forall j :: 0 <= j < |picks| ==> picks[j] < |body| && rest[j] == body[picks[j]])
    && (forall j, l :: 0 <= j < l < |picks| ==> picks[j] < picks[l])
    && (forall i :: 0 <= i < |body| ==> (i in picks <==> !Touches(body[i], a)))
  }

  ghost predicate Survive(body: seq<Instruction>, rest: seq<Instruction>, a: nat) {
    exists picks :: Picked(body, rest, a, picks)
  }

  /** Every block keeps its terminator and the instructions that do not touch the alloca. */
  ghost predicate OthersSurvive(blocks: seq<Block>, blocks': seq<Block>, a: nat) {
    |blocks'| == |blocks| &&
    forall b :: 0 <= b < |blocks| ==> blocks'[b].term == blocks[b].term && Survive(blocks[b].body, blocks'[b].body, a)
  }

  // ---------------------------------------------------------------- taking instructions out

  function Without(D: set<Instruction>, body: seq<Instruction>): seq<Instruction> {
    if body == [] then []
    else
      var last := body[|body| - 1];
      Without(D, body[..|body| - 1]) + if last in D then [] else [last]
  }

  function WithoutIn(D: set<Instruction>, blocks: seq<Block>): (r: seq<Block>)
    ensures |r| == |blocks|
  {
    seq(|blocks|, b requires 0 <= b < |blocks| => blocks[b].(body := Without(D, blocks[b].body)))
  }

  lemma {:induction false} WithoutTwice(D: set<Instruction>, E: set<Instruction>, body: seq<Instruction>)
    ensures Without(E, Without(D, body)) == Without(D + E, body)
  {
    if body != [] {
      var front, last := body[..|body| - 1], body[|body| - 1];
      WithoutTwice(D, E, front);
      if last !in D {
        assert (Without(D, front) + [last])[..|Without(D, front)|] == Without(D, front);
      } else {
        assert Without(D, body) == Without(D, front);
      }
    }
  }

  lemma WithoutOneMore(D: set<Instruction>, use: Instruction, blocks: seq<Block>)
    ensures WithoutIn({use}, WithoutIn(D, blocks)) == WithoutIn(D + {use}, blocks)
  {
    forall b | 0 <= b < |blocks|
      ensures Without({use}, Without(D, blocks[b].body)) == Without(D + {use}, blocks[b].body)
    {
      WithoutTwice(D, {use}, blocks[b].body);
    }
  }

  lemma {:induction false} WithoutNothing(body: seq<Instruction>)
    ensures Without({}, body) == body
  {
    if body != [] {
      WithoutNothing(body[..|body| - 1]);
      assert body == body[..|body| - 1] + [body[|body| - 1]];
    }
  }

  lemma WithoutNone(blocks: seq<Block>)
    ensures WithoutIn({}, blocks) == blocks
  {
    forall b | 0 <= b < |blocks|
      ensures Without({}, blocks[b].body) == blocks[b].body
    {
      WithoutNothing(blocks[b].body);
    }
  }

  // ---------------------------------------------------------------- who survives

  lemma PickedNext(body: seq<Instruction>, rest: seq<Instruction>, a: nat, picks: seq<nat>)
    requires body != [] && Picked(body[..|body| - 1], rest, a, picks)
    ensures var last := body[|body| - 1];
            if Touches(last, a) then Picked(body, rest, a, picks)
              else Picked(body, rest + [last], a, picks + [|body| - 1])
  {
    hide Touches;
    var last := |body| - 1;
    var front, picks' := body[..last], if Touches(body[last], a) then picks else picks + [last];
    forall i | 0 <= i < |body|
      ensures i in picks' <==> !Touches(body[i], a)
    {
      if i < last {
        assert front[i] == body[i];
        assert i in picks' <==> i in picks;
      }
    }
  }

  lemma {:induction false} WithoutPicks(D: set<Instruction>, body: seq<Instruction>, a: nat) returns (picks: seq<nat>)
    requires forall i :: 0 <= i < |body| ==> (body[i] in D <==> Touches(body[i], a))
    ensures Picked(body, Without(D, body), a, picks)
  {
    if body == [] {
      picks := [];
    } else {
      var last := |body| - 1;
      hide Touches, Picked;
      var front := WithoutPicks(D, body[..last], a);
      picks := if body[last] in D then front else front + [last];
      PickedNext(body, Without(D, body[..last]), a, front);
      assert Without(D, body[..last]) + [] == Without(D, body[..last]);
    }
  }

  /** The survivors are the body without the dead instructions, if only stores through the
      alloca touch it. */
  lemma {:induction false} PickedIsStripped(body: seq<Instruction>, rest: seq<Instruction>, a: nat, picks: seq<nat>)
    requires Picked(body, rest, a, picks)
    requires forall i :: 0 <= i < |body| ==> (Touches(body[i], a) <==> IsDead({a}, body[i]))
    ensures rest == Strip({a}, body)
  {
    hide Touches, IsDead;
    if body != [] {
      var last, n := |body| - 1, |picks| - 1;
      if last in picks {
        LastPick(body, rest, a, picks);
        PickedFront(body, rest, a, picks);
        hide Picked;
        PickedIsStripped(body[..last], rest[..n], a, picks[..n]);
        assert rest == rest[..n] + [rest[n]];
      } else {
        PickedSame(body, rest, a, picks);
        hide Picked;
        PickedIsStripped(body[..last], rest, a, picks);
        assert rest + [] == rest;
      }
    }
  }

  lemma LastPick(body: seq<Instruction>, rest: seq<Instruction>, a: nat, picks: seq<nat>)
    requires Picked(body, rest, a, picks) && body != [] && |body| - 1 in picks
    ensures |picks| == |rest| > 0 && picks[|picks| - 1] == |body| - 1 && rest[|rest| - 1] == body[|body| - 1]
    ensures !Touches(body[|body| - 1], a)
  {
    hide Touches;
    var j :| 0 <= j < |picks| && picks[j] == |body| - 1;
  }

  lemma PickedFront(body: seq<Instruction>, rest: seq<Instruction>, a: nat, picks: seq<nat>)
    requires Picked(body, rest, a, picks) && body != [] && |picks| > 0 && picks[|picks| - 1] == |body| - 1
    ensures Picked(body[..|body| - 1], rest[..|rest| - 1], a, picks[..|picks| - 1])
  {
    hide Touches;
    var front := body[..|body| - 1];
    forall i | 0 <= i < |front|
      ensures i in picks[..|picks| - 1] <==> !Touches(front[i], a)
    {
      assert front[i] == body[i];
      assert i in picks <==> i in picks[..|picks| - 1];
    }
  }

  lemma PickedSame(body: seq<Instruction>, rest: seq<Instruction>, a: nat, picks: seq<nat>)
    requires Picked(body, rest, a, picks) && body != [] && |body| - 1 !in picks
    ensures Picked(body[..|body| - 1], rest, a, picks)
  {
    hide Touches;
    var front := body[..|body| - 1];
    forall i | 0 <= i < |front|
      ensures i in picks <==> !Touches(front[i], a)
    {
      assert front[i] == body[i];
    }
  }

  lemma OthersAreStripped(blocks: seq<Block>, blocks': seq<Block>, a: nat)
    requires OthersSurvive(blocks, blocks', a)
    requires forall b, k :: 0 <= b < |blocks| && 0 <= k < |blocks[b].body| ==>
               (Touches(blocks[b].body[k], a) <==> IsDead({a}, blocks[b].body[k]))
    ensures blocks' == StripBlocks({a}, blocks)
  {
    hide Touches, IsDead, Strip;
    forall b | 0 <= b < |blocks|
      ensures blocks'[b].body == Strip({a}, blocks[b].body)
    {
      var picks :| Picked(blocks[b].body, blocks'[b].body, a, picks);
      PickedIsStripped(blocks[b].body, blocks'[b].body, a, picks);
    }
  }

  // ---------------------------------------------------------------- the users

  ghost predicate IsUserOf(blocks: seq<Block>, i: Instruction, a: nat) {
    UsedBy(i, Instr(a)) && exists b :: 0 <= b < |blocks| && i in blocks[b].body
  }

  /** The instructions that use the alloca, unless one is no store or something else uses
      it. */
  method StoreUsers(blocks: seq<Block>, phis: map<Value, Phi>, a: nat)
    returns (users: set<Instruction>, hasOnlyStores: bool)
    ensures hasOnlyStores <==> OnlyStoreUses(blocks, phis, a)
    ensures hasOnlyStores ==> forall i :: i in users <==> IsUserOf(blocks, i, a)
  {
    users := {};
    for b := 0 to |blocks|
      invariant forall i :: i in users <==> IsUserOf(blocks[..b], i, a)
      invariant forall b', k :: 0 <= b' < b && 0 <= k < |blocks[b'].body| ==>
                  UsedBy(blocks[b'].body[k], Instr(a)) ==> blocks[b'].body[k].Store?
      invariant forall b' :: 0 <= b' < b ==> !UsedByTerm(blocks[b'].term, Instr(a))
    {
      var body := blocks[b].body;
      for k := 0 to |body|
        invariant forall i :: i in users <==> IsUserOf(blocks[..b], i, a) || (UsedBy(i, Instr(a)) && i in body[..k])
        invariant forall k' :: 0 <= k' < k ==> UsedBy(body[k'], Instr(a)) ==> body[k'].Store?
      {
        assert body[..k + 1] == body[..k] + [body[k]];
        if UsedBy(body[k], Instr(a)) {
          if !body[k].Store? {
            return {}, false;
          }
          users := users + {body[k]};
        }
      }
      if UsedByTerm(blocks[b].term, Instr(a)) {
        return {}, false;
      }
      UsersNext(blocks, b, a);
    }
    assert blocks[..|blocks|] == blocks;
    var rest := phis.Keys;
    while rest != {}
      invariant rest <= phis.Keys
      invariant forall v :: v in phis && v !in rest ==> !UsesIn(phis[v].ops, Instr(a))
      decreases |rest|
    {
      var v :| v in rest;
      if UsesIn(phis[v].ops, Instr(a)) {
        return {}, false;
      }
      rest := rest - {v};
    }
    hasOnlyStores := true;
  }

  lemma UsersNext(blocks: seq<Block>, b: nat, a: nat)
    requires b < |blocks|
    ensures blocks[b].body[..|blocks[b].body|] == blocks[b].body
    ensures forall i :: IsUserOf(blocks[..b + 1], i, a) <==>
              IsUserOf(blocks[..b], i, a) || (UsedBy(i, Instr(a)) && i in blocks[b].body)
  {
    forall i | UsedBy(i, Instr(a))
      ensures IsUserOf(blocks[..b + 1], i, a) <==> IsUserOf(blocks[..b], i, a) || i in blocks[b].body
    {
      if IsUserOf(blocks[..b], i, a) {
        var x :| 0 <= x < b && i in blocks[..b][x].body;
        assert i in blocks[..b + 1][x].body;
      }
      if i in blocks[b].body {
        assert i in blocks[..b + 1][b].body;
      }
      if IsUserOf(blocks[..b + 1], i, a) {
        var x :| 0 <= x < b + 1 && i in blocks[..b + 1][x].body;
        if x < b {
          assert i in blocks[..b][x].body;
        }
      }
    }
  }

  /** When the users and the alloca have been taken out, nothing names it, and the other
      instructions are there in order. */
  lemma RemovedAll(blocks: seq<Block>, phis: map<Value, Phi>, a: nat, users: set<Instruction>)
    requires OnlyStoreUses(blocks, phis, a) && forall i :: i in users <==> IsUserOf(blocks, i, a)
    ensures OthersSurvive(blocks, WithoutIn(users + {Alloca(a)}, blocks), a)
    ensures Forgotten(WithoutIn(users + {Alloca(a)}, blocks), phis, a)
  {
    hide UsedBy, UsedByTerm, UsesIn, Without;
    var D, blocks' := users + {Alloca(a)}, WithoutIn(users + {Alloca(a)}, blocks);
    forall b | 0 <= b < |blocks|
      ensures Survive(blocks[b].body, blocks'[b].body, a)
      ensures forall k :: 0 <= k < |blocks'[b].body| ==> !Touches(blocks'[b].body[k], a)
    {
      assert forall i :: i in blocks[b].body ==> (i in users <==> UsedBy(i, Instr(a)));
      var picks := WithoutPicks(D, blocks[b].body, a);
    }
  }

  /** In the pass, what touches a promoted alloca is the alloca or a store through it. */
  lemma TouchedIsDead(c: Ctx, s: Pass, hist: History, D: set<nat>, blocks: seq<Block>, a: nat)
    requires Finished(c, s, hist) && StrippedTo(c, hist, D, blocks) && a in c.P
    ensures forall b, k :: 0 <= b < |blocks| && 0 <= k < |blocks[b].body| ==>
              (Touches(blocks[b].body[k], a) <==> IsDead({a}, blocks[b].body[k]))
  {
    hide Inv, Complete;
    forall b, k | 0 <= b < |blocks| && 0 <= k < |blocks[b].body|
      ensures Touches(blocks[b].body[k], a) <==> IsDead({a}, blocks[b].body[k])
    {
      assert StrippedBlock(c, hist, D, blocks, b);
      StripFrom(D, Rewrite(hist, c.f.blocks[b].body), blocks[b].body[k]);
      var j := RewriteFrom(hist, c.f.blocks[b].body, blocks[b].body[k]);
      SlotUsers(c, s, hist, b, j, a);
      StoredIsNoSlot(c, s, hist, b, j);
    }
  }
}
