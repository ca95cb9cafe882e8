/** Edges of the control-flow graph.  An edge is recorded three times: in the branch that
    ends a block, in the successor array of that block and in the predecessor array of
    the target; and each phi of the target has an operand pair for it. */
module CfgEdges {
  import opened IR
  import opened Collections

  /** A block under construction has no terminator yet. */
  datatype MaybeTerm = NoTerm | HasTerm(t: Terminator)

  datatype BasicBlock = BasicBlock(body: seq<Instruction>, term: MaybeTerm, preds: seq<nat>, succs: seq<nat>)

  /** `list` is the function's block list; blocks that are not on it have been freed. */
  datatype Graph = Graph(blocks: seq<BasicBlock>, phis: map<Value, Phi>, list: seq<nat>)

  function Targets(k: BasicBlock): seq<nat> {
    if k.term.NoTerm? then [] else Succs(k.term.t)
  }

  predicate AllBelow(s: seq<nat>, n: nat) {
    forall i :: 0 <= i < |s| ==> s[i] < n
  }

  // ---------------------------------------------------------------- what is kept

  ghost predicate BlockOk(g: Graph, b: nat)
    requires b < |g.blocks|
  {
    var k := g.blocks[b];
    k.succs == Targets(k) && AllBelow(k.preds, |g.blocks|) && AllBelow(Targets(k), |g.blocks|)
  }

  /** The predecessor array of b has p as often as p's branch has b. */
  ghost predicate EdgeOk(g: Graph, p: nat, b: nat)
    requires p < |g.blocks| && b < |g.blocks|
  {
    multiset(g.blocks[b].preds)[p] == multiset(Targets(g.blocks[p]))[b]
  }

  ghost predicate EdgesOk(g: Graph) {
    && (forall b: nat :: b < |g.blocks| ==> BlockOk(g, b))
    && (forall p: nat, b: nat :: p < |g.blocks| && b < |g.blocks| ==> EdgeOk(g, p, b))
  }

  /** Pairs for the same predecessor have the same value. */
  ghost predicate Agree(ops: seq<(Value, nat)>) {
    forall i, j :: 0 <= i < |ops| && 0 <= j < |ops| && ops[i].1 == ops[j].1 ==> ops[i].0 == ops[j].0
  }

  ghost predicate PhiOk(g: Graph, v: Value)
    requires v in g.phis
  {
    g.phis[v].block < |g.blocks| && Agree(g.phis[v].ops) &&
      multiset(Preds(g.phis[v].ops)) == multiset(g.blocks[g.phis[v].block].preds)
  }

  /** Phis list exactly the predecessors of their block. */
  ghost predicate PhisOk(g: Graph) {
    forall v :: v in g.phis ==> PhiOk(g, v)
  }

  ghost predicate Freed(g: Graph, b: nat)
    requires b < |g.blocks|
  {
    g.blocks[b] == BasicBlock([], NoTerm, [], []) && forall v :: v in g.phis ==> g.phis[v].block != b
  }

  /** The entry comes first; listed blocks are complete, others are freed. */
  ghost predicate ListOk(g: Graph) {
    && Distinct(g.list)
    && |g.list| > 0 && g.list[0] == 0
    && (forall b :: b in g.list ==> b < |g.blocks| && g.blocks[b].term.HasTerm?)
    && (forall b: nat :: b < |g.blocks| && b !in g.list ==> Freed(g, b))
  }

  ghost predicate Sound(g: Graph) {
    EdgesOk(g) && PhisOk(g) && ListOk(g)
  }

  // ---------------------------------------------------------------- removing one entry

  function RemoveFirst(s: seq<nat>, x: nat): seq<nat> {
    if s == [] then [] else if s[0] == x then s[1..] else [s[0]] + RemoveFirst(s[1..], x)
  }

  lemma {:induction false} RemoveFirstCount(s: seq<nat>, x: nat)
    ensures multiset(RemoveFirst(s, x)) == multiset(s) - multiset{x}
  {
    if s != [] {
      assert s == [s[0]] + s[1..];
      if s[0] != x {
        RemoveFirstCount(s[1..], x);
      }
    }
  }

  function DropPair(ops: seq<(Value, nat)>, p: nat): (r: seq<(Value, nat)>)
    ensures Preds(r) == RemoveFirst(Preds(ops), p)
    ensures forall o :: o in r ==> o in ops
  {
    if ops == [] then []
    else
      assert Preds(ops)[1..] == Preds(ops[1..]);
      if ops[0].1 == p then ops[1..]
      else
        assert Preds([ops[0]] + DropPair(ops[1..], p)) == [ops[0].1] + Preds(DropPair(ops[1..], p));
        [ops[0]] + DropPair(ops[1..], p)
  }

  lemma BelowCount(s: seq<nat>, n: nat)
    ensures AllBelow(s, n) <==> forall x: nat :: x >= n ==> multiset(s)[x] == 0
  {
    if !AllBelow(s, n) {
      var i :| 0 <= i < |s| && s[i] >= n;
      assert multiset(s)[s[i]] > 0;
    }
    forall x: nat | x >= n && multiset(s)[x] != 0
      ensures !AllBelow(s, n)
    {
      assert x in s;
    }
  }

  lemma {:induction false} RemoveAt(s: seq<nat>, i: nat)
    requires i < |s| && forall j :: 0 <= j < i ==> s[j] != s[i]
    ensures RemoveFirst(s, s[i]) == s[..i] + s[i + 1..]
  {
    if i > 0 {
      assert s[0] != s[i];
      RemoveAt(s[1..], i - 1);
      assert s[1..][i..] == s[i + 1..];
      assert s[..i] == [s[0]] + s[1..][..i - 1];
    }
  }

  lemma {:induction false} RemoveNone(s: seq<nat>, x: nat)
    requires x !in s
    ensures RemoveFirst(s, x) == s
  {
    if s != [] {
      RemoveNone(s[1..], x);
    }
  }

  lemma {:induction false} DropAt(ops: seq<(Value, nat)>, i: nat)
    requires i < |ops| && forall j :: 0 <= j < i ==> ops[j].1 != ops[i].1
    ensures DropPair(ops, ops[i].1) == ops[..i] + ops[i + 1..]
  {
    if i > 0 {
      assert ops[0].1 != ops[i].1;
      DropAt(ops[1..], i - 1);
      assert ops[1..][i..] == ops[i + 1..];
      assert ops[..i] == [ops[0]] + ops[1..][..i - 1];
    }
  }

  lemma {:induction false} DropNone(ops: seq<(Value, nat)>, p: nat)
    requires p !in Preds(ops)
    ensures DropPair(ops, p) == ops
  {
    if ops != [] {
      assert Preds(ops)[0] == ops[0].1 && Preds(ops)[1..] == Preds(ops[1..]);
      DropNone(ops[1..], p);
    }
  }

  lemma {:induction false} DropKeeps(ops: seq<(Value, nat)>, p: nat, q: nat)
    requires p != q
    ensures Incoming(DropPair(ops, p), q) == Incoming(ops, q)
  {
    if ops != [] {
      DropKeeps(ops[1..], p, q);
      var d := DropPair(ops[1..], p);
      assert ([ops[0]] + d)[1..] == d;
    }
  }

  /** When the pairs for p agree, a pair that stays has the value. */
  lemma {:induction false} DropOneOfMany(ops: seq<(Value, nat)>, p: nat)
    requires Agree(ops) && multiset(Preds(ops))[p] > 1
    ensures Incoming(DropPair(ops, p), p) == Incoming(ops, p)
  {
    var d := DropPair(ops, p);
    RemoveFirstCount(Preds(ops), p);
    assert multiset(Preds(d))[p] > 0;
    assert p in Preds(d);
    var i :| 0 <= i < |d| && Preds(d)[i] == p;
    var j :| 0 <= j < |ops| && Preds(ops)[j] == p;
    assert d[i] in d && d[i] in ops && ops[j] in ops;
    IncomingIs(d, i);
    IncomingIs(ops, j);
    var x :| 0 <= x < |ops| && ops[x] == d[i];
  }

  lemma IncomingIs(ops: seq<(Value, nat)>, i: nat)
    requires i < |ops|
    ensures (Incoming(ops, ops[i].1), ops[i].1) in ops
  {
  }

  lemma AgreeSub(d: seq<(Value, nat)>, ops: seq<(Value, nat)>)
    requires Agree(ops) && forall o :: o in d ==> o in ops
    ensures Agree(d)
  {
    forall i, j | 0 <= i < |d| && 0 <= j < |d| && d[i].1 == d[j].1
      ensures d[i].0 == d[j].0
    {
      assert d[i] in d && d[j] in d;
      var x :| 0 <= x < |ops| && ops[x] == d[i];
      var y :| 0 <= y < |ops| && ops[y] == d[j];
    }
  }

  // ---------------------------------------------------------------- the operations, as functions

  function DropPhis(phis: map<Value, Phi>, b: nat, p: nat): (r: map<Value, Phi>)
    ensures r.Keys == phis.Keys
  {
    map v | v in phis :: if phis[v].block == b then phis[v].(ops := DropPair(phis[v].ops, p)) else phis[v]
  }

  /** One entry of p leaves b's predecessors, and one pair leaves each of b's phis. */
  function WithoutPred(g: Graph, b: nat, p: nat): (r: Graph)
    requires b < |g.blocks|
    ensures |r.blocks| == |g.blocks| && r.list == g.list && r.phis.Keys == g.phis.Keys
  {
    if p in g.blocks[b].preds then
      g.(blocks := g.blocks[b := g.blocks[b].(preds := RemoveFirst(g.blocks[b].preds, p))],
        phis := DropPhis(g.phis, b, p))
    else g
  }

  function WithoutPreds(g: Graph, ts: seq<nat>, p: nat): (r: Graph)
    requires AllBelow(ts, |g.blocks|)
    ensures |r.blocks| == |g.blocks| && r.list == g.list && r.phis.Keys == g.phis.Keys
    decreases |ts|
  {
    if ts == [] then g else WithoutPreds(WithoutPred(g, ts[0], p), ts[1..], p)
  }

  function WithPreds(g: Graph, ts: seq<nat>, p: nat): (r: Graph)
    requires AllBelow(ts, |g.blocks|)
    ensures |r.blocks| == |g.blocks| && r.list == g.list && r.phis == g.phis
    decreases |ts|
  {
    if ts == [] then g
    else
      var k := g.blocks[ts[0]];
      WithPreds(g.(blocks := g.blocks[ts[0] := k.(preds := k.preds + [p])]), ts[1..], p)
  }

  /** The terminator leaves block p. */
  function Unterminated(g: Graph, p: nat): (r: Graph)
    requires p < |g.blocks| && AllBelow(Targets(g.blocks[p]), |g.blocks|)
    ensures |r.blocks| == |g.blocks| && r.list == g.list && r.phis.Keys == g.phis.Keys
  {
    var r := WithoutPreds(g, Targets(g.blocks[p]), p);
    r.(blocks := r.blocks[p := r.blocks[p].(term := NoTerm, succs := [])])
  }

  /** A terminator is put at the end of block p, which had none. */
  function Terminated(g: Graph, p: nat, t: Terminator): (r: Graph)
    requires p < |g.blocks| && AllBelow(Succs(t), |g.blocks|)
    ensures |r.blocks| == |g.blocks| && r.list == g.list && r.phis == g.phis
  {
    var r := WithPreds(g, Succs(t), p);
    r.(blocks := r.blocks[p := r.blocks[p].(term := HasTerm(t), succs := r.blocks[p].succs + Succs(t))])
  }

  // ---------------------------------------------------------------- what they do to the counts

  /** Everything but predecessor arrays and phi operands is the same. */
  ghost predicate SameCode(g: Graph, r: Graph) {
    && |r.blocks| == |g.blocks| && r.list == g.list && r.phis.Keys == g.phis.Keys
    && (forall b :: 0 <= b < |g.blocks| ==> r.blocks[b] == g.blocks[b].(preds := r.blocks[b].preds))
    && (forall v :: v in g.phis ==> r.phis[v].block == g.phis[v].block)
  }

  lemma {:induction false} WithoutPredsKeeps(g: Graph, ts: seq<nat>, p: nat)
    requires AllBelow(ts, |g.blocks|)
    ensures SameCode(g, WithoutPreds(g, ts, p))
    decreases |ts|
  {
    if ts != [] {
      WithoutPredsKeeps(WithoutPred(g, ts[0], p), ts[1..], p);
    }
  }

  /** Enough entries are there: each target loses one entry of p per occurrence. */
  lemma {:induction false} WithoutPredsCount(g: Graph, ts: seq<nat>, p: nat, b: nat, x: nat)
    requires AllBelow(ts, |g.blocks|) && b < |g.blocks|
    requires multiset(g.blocks[b].preds)[p] >= multiset(ts)[b]
    ensures var r := WithoutPreds(g, ts, p);
            multiset(r.blocks[b].preds)[x] == multiset(g.blocks[b].preds)[x] - (if x == p then multiset(ts)[b] else 0)
    decreases |ts|
  {
    hide WithoutPred;
    if ts != [] {
      assert ts == [ts[0]] + ts[1..];
      WithoutPredCount(g, ts[0], p, b);
      WithoutPredsCount(WithoutPred(g, ts[0], p), ts[1..], p, b, x);
    }
  }

  lemma WithoutPredCount(g: Graph, t: nat, p: nat, b: nat)
    requires t < |g.blocks| && b < |g.blocks|
    ensures multiset(WithoutPred(g, t, p).blocks[b].preds) ==
              multiset(g.blocks[b].preds) - (if b == t then multiset{p} else multiset{})
  {
    hide DropPhis;
    RemoveFirstCount(g.blocks[t].preds, p);
    if p !in g.blocks[t].preds {
      assert multiset(g.blocks[t].preds)[p] == 0;
    }
  }

  lemma WithoutPredPhi(g: Graph, t: nat, p: nat, v: Value)
    requires t < |g.blocks| && v in g.phis && PhiOk(g, v)
    ensures PhiOk(WithoutPred(g, t, p), v)
  {
    hide Agree, Preds, RemoveFirst;
    AgreeSub(DropPair(g.phis[v].ops, p), g.phis[v].ops);
    RemoveFirstCount(Preds(g.phis[v].ops), p);
    RemoveFirstCount(g.blocks[t].preds, p);
  }

  lemma {:induction false} WithoutPredsPhis(g: Graph, ts: seq<nat>, p: nat)
    requires AllBelow(ts, |g.blocks|) && PhisOk(g)
    ensures PhisOk(WithoutPreds(g, ts, p))
    decreases |ts|
  {
    hide PhiOk, WithoutPred;
    if ts != [] {
      var h := WithoutPred(g, ts[0], p);
      forall v | v in h.phis
        ensures PhiOk(h, v)
      {
        WithoutPredPhi(g, ts[0], p, v);
      }
      WithoutPredsPhis(h, ts[1..], p);
    }
  }

  /** Phis of blocks that are no target keep their pairs. */
  lemma {:induction false} WithoutPredsOther(g: Graph, ts: seq<nat>, p: nat, v: Value)
    requires AllBelow(ts, |g.blocks|) && v in g.phis
    requires g.phis[v].block !in ts || p !in Preds(g.phis[v].ops)
    ensures WithoutPreds(g, ts, p).phis[v] == g.phis[v]
    decreases |ts|
  {
    if ts != [] {
      if p !in Preds(g.phis[v].ops) {
        DropNone(g.phis[v].ops, p);
      }
      WithoutPredsOther(WithoutPred(g, ts[0], p), ts[1..], p, v);
    }
  }

  lemma {:induction false} WithoutPredsBlock(g: Graph, ts: seq<nat>, p: nat, b: nat)
    requires AllBelow(ts, |g.blocks|) && b < |g.blocks| && b !in ts
    ensures WithoutPreds(g, ts, p).blocks[b] == g.blocks[b]
    decreases |ts|
  {
    if ts != [] {
      WithoutPredsBlock(WithoutPred(g, ts[0], p), ts[1..], p, b);
    }
  }

  lemma {:induction false} WithoutPredsIncoming(g: Graph, ts: seq<nat>, p: nat, v: Value, q: nat)
    requires AllBelow(ts, |g.blocks|) && v in g.phis && q != p
    ensures Incoming(WithoutPreds(g, ts, p).phis[v].ops, q) == Incoming(g.phis[v].ops, q)
    decreases |ts|
  {
    if ts != [] {
      DropKeeps(g.phis[v].ops, p, q);
      WithoutPredsIncoming(WithoutPred(g, ts[0], p), ts[1..], p, v, q);
    }
  }

  lemma {:induction false} WithPredsCount(g: Graph, ts: seq<nat>, p: nat, b: nat, x: nat)
    requires AllBelow(ts, |g.blocks|) && b < |g.blocks|
    ensures var r := WithPreds(g, ts, p);
            SameCode(g, r) && multiset(r.blocks[b].preds)[x] ==
              multiset(g.blocks[b].preds)[x] + (if x == p then multiset(ts)[b] else 0)
    decreases |ts|
  {
    if ts != [] {
      assert ts == [ts[0]] + ts[1..];
      var k := g.blocks[ts[0]];
      WithPredsCount(g.(blocks := g.blocks[ts[0] := k.(preds := k.preds + [p])]), ts[1..], p, b, x);
    }
  }

  // ---------------------------------------------------------------- the invariant is kept

  lemma InPreds(g: Graph, p: nat, b: nat)
    requires EdgesOk(g) && p < |g.blocks| && b < |g.blocks|
    ensures p in g.blocks[b].preds <==> b in Targets(g.blocks[p])
  {
    assert EdgeOk(g, p, b);
    assert p in g.blocks[b].preds <==> multiset(g.blocks[b].preds)[p] > 0;
    assert b in Targets(g.blocks[p]) <==> multiset(Targets(g.blocks[p]))[b] > 0;
  }

  lemma TargetsInRange(g: Graph, p: nat)
    requires EdgesOk(g) && p < |g.blocks|
    ensures AllBelow(Targets(g.blocks[p]), |g.blocks|)
  {
    assert BlockOk(g, p);
  }

  /** A phi's agreement with its block depends on the block's predecessor array only. */
  lemma PhiOkSame(g: Graph, r: Graph, v: Value)
    requires v in g.phis && v in r.phis && r.phis[v] == g.phis[v] && |r.blocks| == |g.blocks|
    requires g.phis[v].block < |g.blocks| ==> r.blocks[g.phis[v].block].preds == g.blocks[g.phis[v].block].preds
    ensures PhiOk(g, v) ==> PhiOk(r, v)
  {
  }

  lemma UnterminatedPhis(g: Graph, p: nat)
    requires p < |g.blocks| && AllBelow(Targets(g.blocks[p]), |g.blocks|) && PhisOk(g)
    ensures PhisOk(Unterminated(g, p))
  {
    hide WithoutPreds, PhiOk;
    var h := WithoutPreds(g, Targets(g.blocks[p]), p);
    var r := Unterminated(g, p);
    WithoutPredsPhis(g, Targets(g.blocks[p]), p);
    forall v | v in r.phis
      ensures PhiOk(r, v)
    {
      PhiOkSame(h, r, v);
    }
  }

  lemma UnterminatedEdge(g: Graph, p: nat, q: nat, b: nat)
    requires EdgesOk(g) && p < |g.blocks| && AllBelow(Targets(g.blocks[p]), |g.blocks|)
    requires q < |g.blocks| && b < |g.blocks|
    ensures EdgeOk(Unterminated(g, p), q, b)
  {
    hide WithoutPreds, EdgesOk, AllBelow;
    EdgesOkElim(g, q, b);
    EdgesOkElim(g, p, b);
    WithoutPredsKeeps(g, Targets(g.blocks[p]), p);
    WithoutPredsCount(g, Targets(g.blocks[p]), p, b, q);
  }

  /** An array whose entries beyond the blocks have not become more stays in range. */
  lemma StillBelow(s: seq<nat>, r: seq<nat>, n: nat)
    requires AllBelow(s, n) && forall q: nat :: q >= n ==> multiset(r)[q] <= multiset(s)[q]
    ensures AllBelow(r, n)
  {
    hide AllBelow;
    BelowCount(s, n);
    BelowCount(r, n);
  }

  lemma UnterminatedBlock(g: Graph, p: nat, b: nat)
    requires EdgesOk(g) && p < |g.blocks| && AllBelow(Targets(g.blocks[p]), |g.blocks|) && b < |g.blocks|
    ensures BlockOk(Unterminated(g, p), b)
  {
    hide WithoutPreds, EdgesOk, AllBelow;
    EdgesOkElim(g, p, b);
    var ts, h := Targets(g.blocks[p]), WithoutPreds(g, Targets(g.blocks[p]), p);
    WithoutPredsKeeps(g, ts, p);
    NoneBelow(|g.blocks|);
    forall q: nat | q >= |g.blocks|
      ensures multiset(h.blocks[b].preds)[q] <= multiset(g.blocks[b].preds)[q]
    {
      WithoutPredsCount(g, ts, p, b, q);
    }
    StillBelow(g.blocks[b].preds, h.blocks[b].preds, |g.blocks|);
  }

  lemma NoneBelow(n: nat)
    ensures AllBelow([], n)
  {
  }

  /** Removing a terminator keeps edges and phis in agreement. */
  lemma UnterminatedOk(g: Graph, p: nat)
    requires EdgesOk(g) && p < |g.blocks|
    ensures AllBelow(Targets(g.blocks[p]), |g.blocks|)
    ensures EdgesOk(Unterminated(g, p)) && (PhisOk(g) ==> PhisOk(Unterminated(g, p)))
  {
    hide EdgesOk, EdgeOk, BlockOk, Unterminated, PhisOk;
    TargetsInRange(g, p);
    var r := Unterminated(g, p);
    forall q: nat, b: nat | q < |g.blocks| && b < |g.blocks|
      ensures EdgeOk(r, q, b)
    {
      UnterminatedEdge(g, p, q, b);
    }
    forall b: nat | b < |g.blocks|
      ensures BlockOk(r, b)
    {
      UnterminatedBlock(g, p, b);
    }
    EdgesOkIntro(r);
    if PhisOk(g) {
      UnterminatedPhis(g, p);
    }
  }

  lemma TerminatedEdge(g: Graph, p: nat, t: Terminator, q: nat, b: nat)
    requires EdgesOk(g) && p < |g.blocks| && g.blocks[p].term.NoTerm? && AllBelow(Succs(t), |g.blocks|)
    requires q < |g.blocks| && b < |g.blocks|
    ensures EdgeOk(Terminated(g, p, t), q, b)
  {
    hide WithPreds, EdgesOk, AllBelow;
    EdgesOkElim(g, q, b);
    WithPredsCount(g, Succs(t), p, b, q);
  }

  lemma TerminatedBlock(g: Graph, p: nat, t: Terminator, b: nat)
    requires EdgesOk(g) && p < |g.blocks| && g.blocks[p].term.NoTerm? && AllBelow(Succs(t), |g.blocks|)
    requires b < |g.blocks|
    ensures BlockOk(Terminated(g, p, t), b)
  {
    hide WithPreds, EdgesOk, AllBelow;
    EdgesOkElim(g, p, b);
    var h := WithPreds(g, Succs(t), p);
    WithPredsCount(g, Succs(t), p, b, p);
    forall q: nat | q >= |g.blocks|
      ensures multiset(h.blocks[b].preds)[q] <= multiset(g.blocks[b].preds)[q]
    {
      WithPredsCount(g, Succs(t), p, b, q);
    }
    StillBelow(g.blocks[b].preds, h.blocks[b].preds, |g.blocks|);
    assert [] + Succs(t) == Succs(t);
  }

  /** Appending one keeps edges in agreement; phis of the targets still lack a pair. */
  lemma TerminatedOk(g: Graph, p: nat, t: Terminator)
    requires EdgesOk(g) && p < |g.blocks| && g.blocks[p].term.NoTerm? && AllBelow(Succs(t), |g.blocks|)
    ensures EdgesOk(Terminated(g, p, t))
  {
    hide EdgesOk, EdgeOk, BlockOk, Terminated;
    var r := Terminated(g, p, t);
    forall q: nat, b: nat | q < |g.blocks| && b < |g.blocks|
      ensures EdgeOk(r, q, b)
    {
      TerminatedEdge(g, p, t, q, b);
    }
    forall b: nat | b < |g.blocks|
      ensures BlockOk(r, b)
    {
      TerminatedBlock(g, p, t, b);
    }
    EdgesOkIntro(r);
  }

  // ---------------------------------------------------------------- the block list

  lemma RemoveFirstMember(s: seq<nat>, x: nat)
    requires Distinct(s) && x in s
    ensures Distinct(RemoveFirst(s, x)) && |RemoveFirst(s, x)| == |s| - 1
    ensures forall y :: y in RemoveFirst(s, x) <==> y in s && y != x
    ensures s[0] != x ==> RemoveFirst(s, x)[0] == s[0]
  {
    hide RemoveFirst;
    var i :| 0 <= i < |s| && s[i] == x;
    RemoveAt(s, i);
    var r := RemoveFirst(s, x);
    forall y | y in s && y != x
      ensures y in r
    {
      var j :| 0 <= j < |s| && s[j] == y;
      assert r[if j < i then j else j - 1] == y;
    }
  }

  /** What does not touch the list nor the freed blocks keeps it in order. */
  lemma ListKept(g: Graph, r: Graph)
    requires ListOk(g) && |r.blocks| == |g.blocks| && r.list == g.list
    requires forall b :: b in g.list ==> b < |g.blocks| && r.blocks[b].term.HasTerm?
    requires forall b: nat :: b < |g.blocks| && b !in g.list ==> r.blocks[b] == g.blocks[b]
    requires r.phis.Keys <= g.phis.Keys && forall v :: v in r.phis ==> r.phis[v].block == g.phis[v].block
    ensures ListOk(r)
  {
    forall b: nat | b < |r.blocks| && b !in r.list
      ensures Freed(r, b)
    {
      assert Freed(g, b);
    }
  }

  lemma FreedHasNoEdges(g: Graph, b: nat)
    requires Sound(g) && b < |g.blocks| && b !in g.list
    ensures forall p: nat :: p < |g.blocks| ==> b !in Targets(g.blocks[p])
  {
    assert Freed(g, b);
    forall p: nat | p < |g.blocks|
      ensures b !in Targets(g.blocks[p])
    {
      InPreds(g, p, b);
    }
  }

  // ---------------------------------------------------------------- a conditional branch that is decided

  /** The branch that is not taken goes, with its edge. */
  function Converted(g: Graph, p: nat, c: bool): (r: Graph)
    requires p < |g.blocks| && g.blocks[p].term.HasTerm? && g.blocks[p].term.t.BranchIf?
    requires AllBelow(Targets(g.blocks[p]), |g.blocks|)
    ensures |r.blocks| == |g.blocks| && r.list == g.list && r.phis.Keys == g.phis.Keys
  {
    var t := g.blocks[p].term.t;
    assert t.thn == Targets(g.blocks[p])[0] && t.els == Targets(g.blocks[p])[1];
    var kept, gone := if c then t.thn else t.els, if c then t.els else t.thn;
    var h := WithoutPred(g, gone, p);
    h.(blocks := h.blocks[p :=
      h.blocks[p].(term := HasTerm(Branch(kept)), succs := RemoveFirst(h.blocks[p].succs, gone))])
  }

  lemma ConvertedOk(g: Graph, p: nat, c: bool)
    requires Sound(g) && p in g.list && g.blocks[p].term.HasTerm? && g.blocks[p].term.t.BranchIf?
    ensures AllBelow(Targets(g.blocks[p]), |g.blocks|) && Sound(Converted(g, p, c))
  {
    hide Converted, Targets;
    TargetsInRange(g, p);
    ConvertedEdges(g, p, c);
    ConvertedPhis(g, p, c);
    ConvertedList(g, p, c);
  }

  lemma ConvertedPhis(g: Graph, p: nat, c: bool)
    requires PhisOk(g) && p < |g.blocks| && g.blocks[p].term.HasTerm? && g.blocks[p].term.t.BranchIf?
    requires AllBelow(Targets(g.blocks[p]), |g.blocks|)
    ensures PhisOk(Converted(g, p, c))
  {
    hide PhiOk, WithoutPred, RemoveFirst;
    var t := g.blocks[p].term.t;
    assert t.thn == Targets(g.blocks[p])[0] && t.els == Targets(g.blocks[p])[1];
    var gone := if c then t.els else t.thn;
    forall v | v in Converted(g, p, c).phis
      ensures PhiOk(Converted(g, p, c), v)
    {
      WithoutPredPhi(g, gone, p, v);
      PhiOkSame(WithoutPred(g, gone, p), Converted(g, p, c), v);
    }
  }

  lemma ConvertedList(g: Graph, p: nat, c: bool)
    requires Sound(g) && p in g.list && g.blocks[p].term.HasTerm? && g.blocks[p].term.t.BranchIf?
    requires AllBelow(Targets(g.blocks[p]), |g.blocks|)
    ensures ListOk(Converted(g, p, c))
  {
    hide PhisOk, EdgesOk, RemoveFirst, DropPhis;
    var t := g.blocks[p].term.t;
    assert t.thn == Targets(g.blocks[p])[0] && t.els == Targets(g.blocks[p])[1];
    var gone := if c then t.els else t.thn;
    WithoutPredsKeeps(g, [gone], p);
    assert WithoutPreds(g, [gone], p) == WithoutPred(g, gone, p);
    if gone !in g.list {
      FreedHasNoEdges(g, gone);
    }
    ListKept(g, Converted(g, p, c));
  }

  lemma ConvertedEdges(g: Graph, p: nat, c: bool)
    requires EdgesOk(g) && p < |g.blocks| && g.blocks[p].term.HasTerm? && g.blocks[p].term.t.BranchIf?
    requires AllBelow(Targets(g.blocks[p]), |g.blocks|)
    ensures EdgesOk(Converted(g, p, c))
  {
    hide EdgesOk, Targets, Converted, EdgeOk, BlockOk, AllBelow;
    var r := Converted(g, p, c);
    forall q: nat, b: nat | q < |r.blocks| && b < |r.blocks|
      ensures EdgeOk(r, q, b)
    {
      ConvertedEdge(g, p, c, q, b);
    }
    forall b: nat | b < |r.blocks|
      ensures BlockOk(r, b)
    {
      ConvertedBlock(g, p, c, b);
    }
    EdgesOkIntro(r);
  }

  lemma EdgesOkIntro(g: Graph)
    requires forall b: nat :: b < |g.blocks| ==> BlockOk(g, b)
    requires forall p: nat, b: nat :: p < |g.blocks| && b < |g.blocks| ==> EdgeOk(g, p, b)
    ensures EdgesOk(g)
  {
  }

  lemma EdgesOkElim(g: Graph, p: nat, b: nat)
    requires EdgesOk(g) && p < |g.blocks| && b < |g.blocks|
    ensures EdgeOk(g, p, b) && BlockOk(g, p) && BlockOk(g, b)
  {
  }

  lemma ConvertedTargets(g: Graph, p: nat, c: bool, b: nat)
    requires p < |g.blocks| && g.blocks[p].term.HasTerm? && g.blocks[p].term.t.BranchIf?
    requires AllBelow(Targets(g.blocks[p]), |g.blocks|) && g.blocks[p].succs == Targets(g.blocks[p])
    ensures var k, k' := g.blocks[p], Converted(g, p, c).blocks[p];
            var gone := if c then k.term.t.els else k.term.t.thn;
            && k'.succs == Targets(k') && AllBelow(Targets(k'), |g.blocks|) && gone in Targets(k) && gone < |g.blocks|
            && multiset(Targets(k))[b] == multiset(Targets(k'))[b] + (if b == gone then 1 else 0)
  {
    hide DropPhis, WithoutPred;
    var t := g.blocks[p].term.t;
    var kept, gone := if c then t.thn else t.els, if c then t.els else t.thn;
    assert Targets(g.blocks[p]) == [t.thn, t.els] && t.thn == Targets(g.blocks[p])[0] &&
      t.els == Targets(g.blocks[p])[1];
    WithoutPredsKeeps(g, [gone], p);
    assert WithoutPreds(g, [gone], p) == WithoutPred(g, gone, p);
    assert RemoveFirst([t.thn, t.els], gone) == [kept];
    assert multiset([t.thn, t.els]) == multiset([kept]) + multiset([gone]);
  }

  lemma ConvertedFrame(g: Graph, p: nat, c: bool, b: nat)
    requires p < |g.blocks| && b < |g.blocks| && g.blocks[p].term.HasTerm? && g.blocks[p].term.t.BranchIf?
    requires AllBelow(Targets(g.blocks[p]), |g.blocks|)
    ensures var k, k' := g.blocks[b], Converted(g, p, c).blocks[b];
            var gone := if c then g.blocks[p].term.t.els else g.blocks[p].term.t.thn;
            gone < |g.blocks| && k'.preds == WithoutPred(g, gone, p).blocks[b].preds &&
              (b != p ==> k'.succs == k.succs && Targets(k') == Targets(k))
  {
    hide DropPhis, RemoveFirst;
    var t := g.blocks[p].term.t;
    assert t.thn == Targets(g.blocks[p])[0] && t.els == Targets(g.blocks[p])[1];
  }

  lemma ConvertedEdge(g: Graph, p: nat, c: bool, q: nat, b: nat)
    requires EdgesOk(g) && p < |g.blocks| && g.blocks[p].term.HasTerm? && g.blocks[p].term.t.BranchIf?
    requires AllBelow(Targets(g.blocks[p]), |g.blocks|) && q < |g.blocks| && b < |g.blocks|
    ensures EdgeOk(Converted(g, p, c), q, b)
  {
    hide EdgesOk, WithoutPred, Targets, Converted, AllBelow;
    EdgesOkElim(g, p, b);
    EdgesOkElim(g, q, b);
    ConvertedTargets(g, p, c, b);
    ConvertedFrame(g, p, c, b);
    ConvertedFrame(g, p, c, q);
    var gone := if c then g.blocks[p].term.t.els else g.blocks[p].term.t.thn;
    PredLost(g, gone, p, b, q);
  }

  /** The predecessor array of the lost target has one entry of p less. */
  lemma PredLost(g: Graph, gone: nat, p: nat, b: nat, q: nat)
    requires EdgesOk(g) && p < |g.blocks| && gone in Targets(g.blocks[p]) && gone < |g.blocks| && b < |g.blocks|
    ensures multiset(WithoutPred(g, gone, p).blocks[b].preds)[q] + (if b == gone && q == p then 1 else 0) ==
              multiset(g.blocks[b].preds)[q]
  {
    hide EdgesOk, WithoutPred, Targets, AllBelow;
    EdgesOkElim(g, p, gone);
    WithoutPredCount(g, gone, p, b);
  }

  lemma ConvertedBlock(g: Graph, p: nat, c: bool, b: nat)
    requires EdgesOk(g) && p < |g.blocks| && g.blocks[p].term.HasTerm? && g.blocks[p].term.t.BranchIf?
    requires AllBelow(Targets(g.blocks[p]), |g.blocks|) && b < |g.blocks|
    ensures BlockOk(Converted(g, p, c), b)
  {
    hide EdgesOk, WithoutPred, Targets, Converted, AllBelow;
    EdgesOkElim(g, p, b);
    ConvertedTargets(g, p, c, b);
    ConvertedFrame(g, p, c, b);
    var gone := if c then g.blocks[p].term.t.els else g.blocks[p].term.t.thn;
    WithoutPredCount(g, gone, p, b);
    StillBelow(g.blocks[b].preds, WithoutPred(g, gone, p).blocks[b].preds, |g.blocks|);
  }

  // ---------------------------------------------------------------- freeing a block

  function WithoutPhis(phis: map<Value, Phi>, b: nat): map<Value, Phi> {
    map v | v in phis && phis[v].block != b :: phis[v]
  }

  /** No edge but one from the block itself leads to it. */
  predicate Isolated(g: Graph, b: nat)
    requires b < |g.blocks|
  {
    forall i :: 0 <= i < |g.blocks[b].preds| ==> g.blocks[b].preds[i] == b
  }

  /** The block has left the list and has lost all but its terminator. */
  function Emptied(g: Graph, b: nat): (r: Graph)
    requires b < |g.blocks|
    ensures |r.blocks| == |g.blocks|
  {
    Graph(g.blocks[b := g.blocks[b].(body := [])], WithoutPhis(g.phis, b), RemoveFirst(g.list, b))
  }

  /** The block leaves the list and its instructions are destroyed, the terminator last. */
  function BlockFreed(g: Graph, b: nat): (r: Graph)
    requires b < |g.blocks| && AllBelow(Targets(g.blocks[b]), |g.blocks|)
  {
    var h := Unterminated(Emptied(g, b), b);
    h.(blocks := h.blocks[b := BasicBlock([], NoTerm, [], [])])
  }

  /** A block whose predecessor count has fallen to nothing can be taken out. */
  lemma ClearBlock(h: Graph, b: nat)
    requires EdgesOk(h) && b < |h.blocks| && h.blocks[b].term.NoTerm?
    requires forall p: nat :: p < |h.blocks| ==> b !in Targets(h.blocks[p])
    ensures h.blocks[b].preds == [] && EdgesOk(h.(blocks := h.blocks[b := BasicBlock([], NoTerm, [], [])]))
  {
    NoPreds(h, b);
    var r := h.(blocks := h.blocks[b := BasicBlock([], NoTerm, [], [])]);
    assert AllBelow([], |h.blocks|);
    forall x: nat | x < |r.blocks|
      ensures BlockOk(r, x)
    {
      assert BlockOk(h, x);
    }
    forall q: nat, x: nat | q < |r.blocks| && x < |r.blocks|
      ensures EdgeOk(r, q, x)
    {
      assert EdgeOk(h, q, x);
    }
  }

  lemma NoPreds(h: Graph, b: nat)
    requires EdgesOk(h) && b < |h.blocks|
    requires forall q: nat :: q < |h.blocks| ==> b !in Targets(h.blocks[q])
    ensures h.blocks[b].preds == []
  {
    hide Targets;
    var preds := h.blocks[b].preds;
    assert BlockOk(h, b);
    assert preds != [] ==> preds[0] in preds && preds[0] < |h.blocks|;
    forall p: nat | p < |h.blocks|
      ensures p !in preds
    {
      InPreds(h, p, b);
    }
  }

  /** Freeing a block that nothing else leads to keeps everything in agreement. */
  lemma BlockFreedOk(g: Graph, b: nat)
    requires Sound(g) && b in g.list && b != 0 && Isolated(g, b)
    ensures b < |g.blocks| && AllBelow(Targets(g.blocks[b]), |g.blocks|) && Sound(BlockFreed(g, b))
    ensures |BlockFreed(g, b).list| == |g.list| - 1
  {
    hide Unterminated, Emptied, Targets, ListOk, PhiOk, BlockOk, EdgeOk;
    Listed(g, b);
    TargetsInRange(g, b);
    EmptiedOk(g, b);
    UnterminatedOk(Emptied(g, b), b);
    BlockFreedNoEdges(g, b);
    ClearBlock(Unterminated(Emptied(g, b), b), b);
    BlockFreedPhis(g, b);
    BlockFreedList(g, b);
  }

  lemma Listed(g: Graph, b: nat)
    requires ListOk(g) && b in g.list
    ensures b < |g.blocks| && g.blocks[b].term.HasTerm?
  {
  }

  lemma EmptiedOk(g: Graph, b: nat)
    requires EdgesOk(g) && PhisOk(g) && b < |g.blocks|
    ensures EdgesOk(Emptied(g, b)) && PhisOk(Emptied(g, b))
  {
    hide Preds, Agree, RemoveFirst;
    var r := Emptied(g, b);
    forall v | v in r.phis
      ensures PhiOk(r, v)
    {
      assert PhiOk(g, v);
    }
    EdgesIgnoreCode(g, r);
  }

  /** What does not change the edges keeps them in agreement. */
  lemma EdgesIgnoreCode(g: Graph, r: Graph)
    requires EdgesOk(g) && |r.blocks| == |g.blocks|
    requires forall x :: 0 <= x < |g.blocks| ==> r.blocks[x] == g.blocks[x].(body := r.blocks[x].body)
    ensures EdgesOk(r)
  {
    forall b: nat | b < |r.blocks|
      ensures BlockOk(r, b)
    {
      assert BlockOk(g, b);
    }
    forall q: nat, x: nat | q < |r.blocks| && x < |r.blocks|
      ensures EdgeOk(r, q, x)
    {
      assert EdgeOk(g, q, x);
    }
  }

  lemma EdgesIgnorePhis(g: Graph, r: Graph)
    requires EdgesOk(g) && r.blocks == g.blocks
    ensures EdgesOk(r)
  {
    forall b: nat | b < |r.blocks|
      ensures BlockOk(r, b)
    {
      assert BlockOk(g, b);
    }
    forall q: nat, x: nat | q < |r.blocks| && x < |r.blocks|
      ensures EdgeOk(r, q, x)
    {
      assert EdgeOk(g, q, x);
    }
  }

  lemma UnterminatedShape(g: Graph, p: nat)
    requires p < |g.blocks| && AllBelow(Targets(g.blocks[p]), |g.blocks|)
    ensures var r := Unterminated(g, p);
            && |r.blocks| == |g.blocks| && r.list == g.list && r.phis.Keys == g.phis.Keys
            && r.blocks[p].body == g.blocks[p].body && r.blocks[p].term.NoTerm? && r.blocks[p].succs == []
            && (forall b :: 0 <= b < |g.blocks| && b != p ==> r.blocks[b] == g.blocks[b].(preds := r.blocks[b].preds))
            && (forall v :: v in g.phis ==> r.phis[v].block == g.phis[v].block)
  {
    hide WithoutPreds;
    WithoutPredsKeeps(g, Targets(g.blocks[p]), p);
  }

  lemma UnterminatedOther(g: Graph, p: nat, b: nat)
    requires p < |g.blocks| && AllBelow(Targets(g.blocks[p]), |g.blocks|) && b < |g.blocks| && b != p &&
               b !in Targets(g.blocks[p])
    ensures Unterminated(g, p).blocks[b] == g.blocks[b]
  {
    WithoutPredsBlock(g, Targets(g.blocks[p]), p, b);
  }

  lemma BlockFreedNoEdges(g: Graph, b: nat)
    requires Sound(g) && b in g.list && Isolated(g, b) && AllBelow(Targets(g.blocks[b]), |g.blocks|)
    ensures var h := Unterminated(Emptied(g, b), b);
            h.blocks[b].term.NoTerm? && forall p: nat :: p < |h.blocks| ==> b !in Targets(h.blocks[p])
  {
    hide Unterminated, WithoutPhis, PhisOk;
    UnterminatedShape(Emptied(g, b), b);
    var h := Unterminated(Emptied(g, b), b);
    forall p: nat | p < |h.blocks|
      ensures b !in Targets(h.blocks[p])
    {
      if p != b {
        InPreds(g, p, b);
      }
    }
  }

  lemma BlockFreedPhis(g: Graph, b: nat)
    requires b < |g.blocks| && AllBelow(Targets(g.blocks[b]), |g.blocks|)
    requires PhisOk(Unterminated(Emptied(g, b), b))
    ensures PhisOk(BlockFreed(g, b))
  {
    hide Preds, Agree, Unterminated, RemoveFirst;
    UnterminatedShape(Emptied(g, b), b);
    var h := Unterminated(Emptied(g, b), b);
    var r := BlockFreed(g, b);
    forall v | v in r.phis
      ensures PhiOk(r, v)
    {
      assert PhiOk(h, v);
    }
  }

  lemma BlockFreedList(g: Graph, b: nat)
    requires Sound(g) && b in g.list && b != 0 && Isolated(g, b) && AllBelow(Targets(g.blocks[b]), |g.blocks|)
    ensures ListOk(BlockFreed(g, b)) && |BlockFreed(g, b).list| == |g.list| - 1
  {
    hide Unterminated, RemoveFirst, PhisOk, EdgesOk, Isolated, AllBelow;
    EmptiedTargets(g, b);
    UnterminatedShape(Emptied(g, b), b);
    RemoveFirstMember(g.list, b);
    var r := BlockFreed(g, b);
    assert r.list[0] == 0;
    forall x: nat | x < |r.blocks| && x !in r.list
      ensures Freed(r, x)
    {
      if x != b {
        assert Freed(g, x);
        FreedHasNoEdges(g, x);
        UnterminatedOther(Emptied(g, b), b, x);
      }
    }
  }

  lemma EmptiedTargets(g: Graph, b: nat)
    requires b < |g.blocks| && AllBelow(Targets(g.blocks[b]), |g.blocks|)
    ensures Targets(Emptied(g, b).blocks[b]) == Targets(g.blocks[b]) &&
              AllBelow(Targets(Emptied(g, b).blocks[b]), |Emptied(g, b).blocks|)
  {
  }
}
