/** Splitting a block: what follows an instruction moves to a new block. */
module CfgSplit {
  import opened Collections
  import opened IR
  import opened CfgEdges
  import opened CfgMerge

  /** One pair for the new block per use of the old one, with the value it had. */
  function MovedPairs(before: seq<(Value, nat)>, after: seq<(Value, nat)>, b: nat, n: nat): seq<(Value, nat)> {
    after + seq(multiset(Preds(before))[b], _ => (Incoming(before, b), n))
  }

  function MovePhis(before: map<Value, Phi>, after: map<Value, Phi>, b: nat, n: nat): map<Value, Phi>
    requires after.Keys == before.Keys
  {
    map v | v in after :: after[v].(ops := MovedPairs(before[v].ops, after[v].ops, b, n))
  }

  function InsertAfter(s: seq<nat>, b: nat, n: nat): seq<nat> {
    if s == [] then [] else if s[0] == b then [b, n] + s[1..] else [s[0]] + InsertAfter(s[1..], b, n)
  }

  /** A new block takes the code of b from position k on. */
  function Roomed(g: Graph, b: nat, k: nat): (r: Graph)
    requires b < |g.blocks| && k <= |g.blocks[b].body|
    ensures |r.blocks| == |g.blocks| + 1
  {
    g.(blocks := g.blocks[b := g.blocks[b].(body := g.blocks[b].body[..k])] +
      [BasicBlock(g.blocks[b].body[k..], NoTerm, [], [])])
  }

  /** Then b's terminator is detached. */
  function Opened(g: Graph, b: nat, k: nat): (r: Graph)
    requires b < |g.blocks| && k <= |g.blocks[b].body| && AllBelow(Targets(g.blocks[b]), |g.blocks|)
    ensures |r.blocks| == |g.blocks| + 1 && r.phis.Keys == g.phis.Keys
  {
    var g0 := Roomed(g, b, k);
    assert AllBelow(Targets(g0.blocks[b]), |g0.blocks|);
    Unterminated(g0, b)
  }

  function Split(g: Graph, b: nat, k: nat): (r: Graph)
    requires b < |g.blocks| && k <= |g.blocks[b].body| && AllBelow(Targets(g.blocks[b]), |g.blocks|) &&
               g.blocks[b].term.HasTerm?
    ensures |r.blocks| == |g.blocks| + 1 && r.phis.Keys == g.phis.Keys
  {
    var n := |g.blocks|;
    BelowOfTerm(g.blocks[b], n);
    var h := Terminated(Terminated(Opened(g, b, k), n, g.blocks[b].term.t), b, Branch(n));
    h.(phis := MovePhis(g.phis, h.phis, b, n), list := InsertAfter(h.list, b, n))
  }

  lemma {:induction false} InsertMember(s: seq<nat>, b: nat, n: nat)
    requires b in s
    ensures forall x :: x in InsertAfter(s, b, n) <==> x in s || x == n
    ensures |InsertAfter(s, b, n)| > 0 && InsertAfter(s, b, n)[0] == s[0]
  {
    assert s == [s[0]] + s[1..];
    if s[0] != b {
      InsertMember(s[1..], b, n);
    }
  }

  lemma {:induction false} InsertDistinct(s: seq<nat>, b: nat, n: nat)
    requires Distinct(s) && n !in s
    ensures Distinct(InsertAfter(s, b, n))
  {
    if s != [] && s[0] != b {
      var r := InsertAfter(s[1..], b, n);
      InsertDistinct(s[1..], b, n);
      forall j | 0 <= j < |r|
        ensures r[j] != s[0]
      {
        assert r[j] in r;
        if b in s[1..] {
          InsertMember(s[1..], b, n);
        } else {
          InsertNone(s[1..], b, n);
        }
      }
    }
  }

  lemma {:induction false} InsertAt(s: seq<nat>, i: nat, n: nat)
    requires i < |s| && forall j :: 0 <= j < i ==> s[j] != s[i]
    ensures InsertAfter(s, s[i], n) == s[..i + 1] + [n] + s[i + 1..]
  {
    if i > 0 {
      assert s[0] != s[i];
      InsertAt(s[1..], i - 1, n);
      assert s[1..][i..] == s[i + 1..];
      assert s[..i + 1] == [s[0]] + s[1..][..i];
    }
  }

  lemma {:induction false} InsertNone(s: seq<nat>, b: nat, n: nat)
    requires b !in s
    ensures InsertAfter(s, b, n) == s
  {
    if s != [] {
      InsertNone(s[1..], b, n);
    }
  }

  lemma OpenedIs(g: Graph, b: nat, k: nat)
    requires b < |g.blocks| && k <= |g.blocks[b].body| && AllBelow(Targets(g.blocks[b]), |g.blocks|) &&
               g.blocks[b].succs == Targets(g.blocks[b])
    ensures AllBelow(Targets(Roomed(g, b, k).blocks[b]), |g.blocks| + 1) &&
              Targets(Roomed(g, b, k).blocks[b]) == Roomed(g, b, k).blocks[b].succs
    ensures Opened(g, b, k) == Unterminated(Roomed(g, b, k), b)
  {
    hide Unterminated;
  }

  lemma SplitIs(g: Graph, b: nat, k: nat)
    requires b < |g.blocks| && k <= |g.blocks[b].body| && AllBelow(Targets(g.blocks[b]), |g.blocks|) &&
               g.blocks[b].term.HasTerm?
    ensures var n := |g.blocks|;
            && AllBelow(Succs(g.blocks[b].term.t), n + 1) && AllBelow(Succs(Branch(n)), n + 1)
            && var h := Terminated(Terminated(Opened(g, b, k), n, g.blocks[b].term.t), b, Branch(n));
            Split(g, b, k) == h.(phis := MovePhis(g.phis, h.phis, b, n), list := InsertAfter(h.list, b, n))
  {
    hide Opened, Terminated, MovePhis, InsertAfter;
    BelowOfTerm(g.blocks[b], |g.blocks|);
  }

  lemma OpenedShape(g: Graph, b: nat, k: nat)
    requires b < |g.blocks| && k <= |g.blocks[b].body| && AllBelow(Targets(g.blocks[b]), |g.blocks|)
    ensures var r, n := Opened(g, b, k), |g.blocks|;
            && r.list == g.list && (forall v :: v in g.phis ==> r.phis[v].block == g.phis[v].block)
            && r.blocks[b] == BasicBlock(g.blocks[b].body[..k], NoTerm, r.blocks[b].preds, [])
            && r.blocks[n] == BasicBlock(g.blocks[b].body[k..], NoTerm, r.blocks[n].preds, [])
            && forall x :: 0 <= x < n && x != b ==> r.blocks[x] == g.blocks[x].(preds := r.blocks[x].preds)
  {
    hide Unterminated;
    var g0 := Roomed(g, b, k);
    assert AllBelow(Targets(g0.blocks[b]), |g0.blocks|);
    UnterminatedShape(g0, b);
  }

  lemma OpenedOk(g: Graph, b: nat, k: nat)
    requires EdgesOk(g) && PhisOk(g) && b < |g.blocks| && k <= |g.blocks[b].body|
    ensures AllBelow(Targets(g.blocks[b]), |g.blocks|) && EdgesOk(Opened(g, b, k)) && PhisOk(Opened(g, b, k))
  {
    hide Unterminated, Preds, Agree;
    TargetsInRange(g, b);
    var g0 := g.(blocks := g.blocks + [BasicBlock([], NoTerm, [], [])]);
    var g1 := Roomed(g, b, k);
    RoomOk(g);
    EdgesIgnoreCode(g0, g1);
    forall v | v in g1.phis
      ensures PhiOk(g1, v)
    {
      assert PhiOk(g0, v);
    }
    UnterminatedOk(g1, b);
  }

  lemma RoomOk(g: Graph)
    requires EdgesOk(g) && PhisOk(g)
    ensures var g0 := g.(blocks := g.blocks + [BasicBlock([], NoTerm, [], [])]); EdgesOk(g0) && PhisOk(g0)
  {
    hide Preds, Agree;
    var g0, n := g.(blocks := g.blocks + [BasicBlock([], NoTerm, [], [])]), |g.blocks|;
    forall x: nat | x < |g0.blocks|
      ensures BlockOk(g0, x)
    {
      assert x < n ==> BlockOk(g, x);
    }
    forall p: nat, x: nat | p < |g0.blocks| && x < |g0.blocks|
      ensures EdgeOk(g0, p, x)
    {
      if p < n && x < n {
        assert EdgeOk(g, p, x);
      } else if p < n {
        assert BlockOk(g, p);
        BelowCount(Targets(g.blocks[p]), n);
      } else if x < n {
        assert BlockOk(g, x);
        BelowCount(g.blocks[x].preds, n);
      }
    }
    forall v | v in g0.phis
      ensures PhiOk(g0, v)
    {
      assert PhiOk(g, v);
    }
  }

  /** The code after a split. */
  lemma SplitShape(g: Graph, b: nat, k: nat)
    requires b < |g.blocks| && k <= |g.blocks[b].body| && AllBelow(Targets(g.blocks[b]), |g.blocks|) &&
               g.blocks[b].term.HasTerm?
    ensures var r, n := Split(g, b, k), |g.blocks|;
            && r.list == InsertAfter(g.list, b, n) && r.phis == MovePhis(g.phis, Opened(g, b, k).phis, b, n)
            && r.blocks[b] == BasicBlock(g.blocks[b].body[..k], HasTerm(Branch(n)), r.blocks[b].preds, [n])
            && r.blocks[n] == BasicBlock(g.blocks[b].body[k..], g.blocks[b].term, r.blocks[n].preds,
              Targets(g.blocks[b]))
            && forall x :: 0 <= x < n && x != b ==> r.blocks[x] == g.blocks[x].(preds := r.blocks[x].preds)
  {
    hide Opened, Terminated, MovePhis, InsertAfter, AllBelow;
    var n, t := |g.blocks|, g.blocks[b].term.t;
    OpenedShape(g, b, k);
    BelowOfTerm(g.blocks[b], n);
    Wider(Succs(t), n);
    TerminatedShape(Opened(g, b, k), n, t);
    Wider([], n);
    TerminatedShape(Terminated(Opened(g, b, k), n, t), b, Branch(n));
  }

  lemma Wider(s: seq<nat>, n: nat)
    requires AllBelow(s, n)
    ensures AllBelow(s, n + 1) && AllBelow(Succs(Branch(n)), n + 1)
  {
  }

  lemma SplitEdges(g: Graph, b: nat, k: nat)
    requires EdgesOk(g) && PhisOk(g) && b < |g.blocks| && k <= |g.blocks[b].body| && g.blocks[b].term.HasTerm?
    ensures AllBelow(Targets(g.blocks[b]), |g.blocks|) && EdgesOk(Split(g, b, k))
  {
    hide Opened, Terminated, MovePhis, InsertAfter, EdgesOk, PhisOk, AllBelow;
    var n, t := |g.blocks|, g.blocks[b].term.t;
    OpenedOk(g, b, k);
    OpenedShape(g, b, k);
    BelowOfTerm(g.blocks[b], n);
    Wider(Succs(t), n);
    Wider([], n);
    var h := Opened(g, b, k);
    TerminatedOk(h, n, t);
    TerminatedShape(h, n, t);
    TerminatedOk(Terminated(h, n, t), b, Branch(n));
    EdgesIgnorePhis(Terminated(Terminated(h, n, t), b, Branch(n)), Split(g, b, k));
  }

  // ---------------------------------------------------------------- phis of the targets

  lemma {:induction false} CopiesCount(m: nat, o: (Value, nat), x: nat)
    ensures multiset(Preds(seq(m, _ => o)))[x] == if x == o.1 then m else 0
  {
    if m > 0 {
      CopiesCount(m - 1, o, x);
      assert seq(m, _ => o) == seq(m - 1, _ => o) + [o];
      assert Preds(seq(m, _ => o)) == Preds(seq(m - 1, _ => o)) + [o.1];
    }
  }

  lemma MovedCount(before: seq<(Value, nat)>, after: seq<(Value, nat)>, b: nat, n: nat, x: nat)
    ensures multiset(Preds(MovedPairs(before, after, b, n)))[x] ==
            multiset(Preds(after))[x] + if x == n then multiset(Preds(before))[b] else 0
  {
    hide Incoming;
    var copies := seq(multiset(Preds(before))[b], _ => (Incoming(before, b), n));
    CopiesCount(multiset(Preds(before))[b], (Incoming(before, b), n), x);
    assert Preds(after + copies) == Preds(after) + Preds(copies);
  }

  lemma MovedAgree(before: seq<(Value, nat)>, after: seq<(Value, nat)>, b: nat, n: nat)
    requires Agree(after) && n !in Preds(after)
    ensures Agree(MovedPairs(before, after, b, n))
  {
    hide Incoming;
    var r := MovedPairs(before, after, b, n);
    forall i, j | 0 <= i < |r| && 0 <= j < |r| && r[i].1 == r[j].1
      ensures r[i].0 == r[j].0
    {
      assert i < |after| ==> Preds(after)[i] != n;
      assert j < |after| ==> Preds(after)[j] != n;
    }
  }

  /** Edges into a block: those of b come from the new block now. */
  lemma SplitCounts(g: Graph, h: Graph, r: Graph, b: nat, n: nat, c: nat, x: nat)
    requires EdgesOk(g) && EdgesOk(h) && EdgesOk(r) && n == |g.blocks| && |h.blocks| == |r.blocks| == n + 1 &&
               b < n && c < n
    requires Targets(h.blocks[b]) == [] && Targets(h.blocks[n]) == []
    requires Targets(r.blocks[b]) == [n] && Targets(r.blocks[n]) == Targets(g.blocks[b])
    requires forall q :: 0 <= q < n && q != b ==> Targets(r.blocks[q]) == Targets(h.blocks[q]) == Targets(g.blocks[q])
    ensures multiset(r.blocks[c].preds)[x] == multiset(h.blocks[c].preds)[x] + if x == n
              then multiset(g.blocks[c].preds)[b] else 0
    ensures multiset(h.blocks[c].preds)[n] == 0
  {
    hide Targets, AllBelow, EdgesOk;
    EdgesOkElim(g, b, c);
    EdgesOkElim(h, n, c);
    EdgesOkElim(r, n, c);
    if x < n {
      EdgesOkElim(h, x, c);
      EdgesOkElim(r, x, c);
    } else if x > n {
      BelowCount(h.blocks[c].preds, n + 1);
      BelowCount(r.blocks[c].preds, n + 1);
    }
  }

  lemma SplitPhis(g: Graph, b: nat, k: nat)
    requires EdgesOk(g) && PhisOk(g) && b < |g.blocks| && k <= |g.blocks[b].body| && g.blocks[b].term.HasTerm?
    ensures AllBelow(Targets(g.blocks[b]), |g.blocks|) && PhisOk(Split(g, b, k))
  {
    hide EdgesOk, AllBelow, Agree, Opened, Split, MovedPairs, Preds;
    OpenedOk(g, b, k);
    SplitEdges(g, b, k);
    OpenedShape(g, b, k);
    SplitShape(g, b, k);
    var n, h, r := |g.blocks|, Opened(g, b, k), Split(g, b, k);
    forall v | v in r.phis
      ensures PhiOk(r, v)
    {
      assert PhiOk(g, v) && PhiOk(h, v);
      var c := g.phis[v].block;
      forall x: nat
        ensures multiset(Preds(r.phis[v].ops))[x] == multiset(r.blocks[c].preds)[x]
      {
        SplitCounts(g, h, r, b, n, c, x);
        MovedCount(g.phis[v].ops, h.phis[v].ops, b, n, x);
      }
      SplitCounts(g, h, r, b, n, c, 0);
      assert multiset(Preds(h.phis[v].ops))[n] == 0;
      MovedAgree(g.phis[v].ops, h.phis[v].ops, b, n);
    }
  }

  lemma SplitList(g: Graph, b: nat, k: nat)
    requires Sound(g) && b in g.list && b < |g.blocks| && k <= |g.blocks[b].body| && g.blocks[b].term.HasTerm?
    ensures AllBelow(Targets(g.blocks[b]), |g.blocks|) && ListOk(Split(g, b, k))
  {
    hide PhisOk, EdgesOk, AllBelow, MovedPairs, Split, InsertAfter, Opened;
    TargetsInRange(g, b);
    SplitEdges(g, b, k);
    OpenedShape(g, b, k);
    SplitShape(g, b, k);
    var n, r := |g.blocks|, Split(g, b, k);
    InsertMember(g.list, b, n);
    InsertDistinct(g.list, b, n);
    forall x: nat | x < |r.blocks| && x !in r.list
      ensures Freed(r, x)
    {
      assert Freed(g, x);
      FreedHasNoEdges(g, x);
      NoPreds(r, x);
    }
  }

  /** Splitting keeps edges, phis and the block list in agreement. */
  lemma SplitOk(g: Graph, b: nat, k: nat)
    requires Sound(g) && b in g.list && b < |g.blocks| && k <= |g.blocks[b].body| && g.blocks[b].term.HasTerm?
    ensures AllBelow(Targets(g.blocks[b]), |g.blocks|) && Sound(Split(g, b, k))
  {
    hide Split, EdgesOk, PhisOk, ListOk, AllBelow;
    SplitEdges(g, b, k);
    SplitPhis(g, b, k);
    SplitList(g, b, k);
  }
}
