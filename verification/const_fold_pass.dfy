/** The folding pass over a function's instructions: sweeps in list order until none of
    them folds. */
module ConstFoldPass {
  import opened ConstFold

  datatype Operand = Known(c: Const) | Ref(id: nat, type_: Type)

  datatype Node = Node(op: Operator, type_: Type, args: seq<Operand>)

  /** Instructions by name. */
  type Dag = map<nat, Node>

  function TypeOf(a: Operand): Type {
    if a.Known? then a.c.type_ else a.type_
  }

  function ArgTypes(n: Node): (r: seq<Type>)
    ensures |r| == |n.args|
  {
    seq(|n.args|, i requires 0 <= i < |n.args| => TypeOf(n.args[i]))
  }

  /** Operands are constants, other instructions of the right type that come earlier in
      some order, or values from outside. */
  ghost predicate GoodArg(d: Dag, rank: map<nat, nat>, id: nat, a: Operand)
    requires id in rank
  {
    if a.Known? then ValidConst(a.c)
    else a.id in d ==> a.id in rank && rank[a.id] < rank[id] && d[a.id].type_ == a.type_
  }

  ghost predicate GoodNode(d: Dag, rank: map<nat, nat>, id: nat)
    requires id in d && id in rank
  {
    WellTyped(d[id].op, d[id].type_, ArgTypes(d[id])) && forall i :: 0 <= i < |d[id].args| ==>
      GoodArg(d, rank, id, d[id].args[i])
  }

  ghost predicate GoodDag(d: Dag, rank: map<nat, nat>) {
    d.Keys <= rank.Keys && forall id :: id in d ==> GoodNode(d, rank, id)
  }

  // ---------------------------------------------------------------- the reference

  /** The value of an operand when values from outside are given by env. */
  ghost function ArgValue(d: Dag, rank: map<nat, nat>, env: nat -> nat, id: nat, a: Operand): nat
    requires GoodDag(d, rank) && id in rank && GoodArg(d, rank, id, a)
    decreases rank[id], 0
  {
    if a.Known? then Bits(a.c)
    else if a.id in d then Value(d, rank, env, a.id)
    else env(a.id)
  }

  /** Fixed-width evaluation of an instruction. */
  ghost function Value(d: Dag, rank: map<nat, nat>, env: nat -> nat, id: nat): nat
    requires GoodDag(d, rank) && id in d
    decreases rank[id], 1
  {
    assert GoodNode(d, rank, id);
    var n := d[id];
    Apply(n.op, n.type_, ArgTypes(n),
      seq(|n.args|, i requires 0 <= i < |n.args| => ArgValue(d, rank, env, id, n.args[i])))
  }

  // ---------------------------------------------------------------- the state of the pass

  /** A folded operand stands for the instruction that was folded. */
  ghost predicate ArgKept(folded: map<nat, Const>, a: Operand, a': Operand) {
    a' == a || (a.Ref? && a.id in folded && a' == Known(folded[a.id]))
  }

  ghost predicate NodeKept(folded: map<nat, Const>, n: Node, n': Node) {
    n'.op == n.op && n'.type_ == n.type_ && |n'.args| == |n.args| && forall i :: 0 <= i < |n.args| ==>
      ArgKept(folded, n.args[i], n'.args[i])
  }

  /** A constant of the right type whose value is the instruction's, whatever comes from
      outside. */
  ghost predicate FoldedRight(d: Dag, rank: map<nat, nat>, id: nat, c: Const)
    requires GoodDag(d, rank) && id in d
  {
    ValidConst(c) && c.type_ == d[id].type_ && forall env: nat -> nat :: Bits(c) == Value(d, rank, env, id)
  }

  ghost predicate PassInv(d: Dag, rank: map<nat, nat>, rest: Dag, folded: map<nat, Const>) {
    && GoodDag(d, rank)
    && rest.Keys !! folded.Keys && rest.Keys + folded.Keys == d.Keys
    && (forall id :: id in rest ==> NodeKept(folded, d[id], rest[id]))
    && (forall id, i :: id in rest && 0 <= i < |rest[id].args| ==>
      !(rest[id].args[i].Ref? && rest[id].args[i].id in folded))
    && (forall id :: id in folded ==> FoldedRight(d, rank, id, folded[id]))
  }

  predicate AllKnown(n: Node) {
    forall i :: 0 <= i < |n.args| ==> n.args[i].Known?
  }

  function Consts(n: Node): (r: seq<Const>)
    requires AllKnown(n)
    ensures |r| == |n.args|
  {
    seq(|n.args|, i requires 0 <= i < |n.args| => n.args[i].c)
  }

  function ReplaceArg(id: nat, c: Const, a: Operand): Operand {
    if a.Ref? && a.id == id then Known(c) else a
  }

  function ReplaceIn(id: nat, c: Const, n: Node): Node {
    n.(args := seq(|n.args|, i requires 0 <= i < |n.args| => ReplaceArg(id, c, n.args[i])))
  }

  /** An operand that is known now has the value the original operand had. */
  lemma KnownArg(d: Dag, rank: map<nat, nat>, rest: Dag, folded: map<nat, Const>, env: nat -> nat, id: nat, i: nat)
    requires PassInv(d, rank, rest, folded) && id in rest && i < |rest[id].args| && rest[id].args[i].Known?
    ensures GoodNode(d, rank, id) && i < |d[id].args| && GoodArg(d, rank, id, d[id].args[i])
    ensures ValidConst(rest[id].args[i].c) && rest[id].args[i].c.type_ == TypeOf(d[id].args[i])
    ensures Bits(rest[id].args[i].c) == ArgValue(d, rank, env, id, d[id].args[i])
  {
    hide Bits, ValidConst, WellTyped, Apply;
    assert GoodNode(d, rank, id);
    assert NodeKept(folded, d[id], rest[id]);
    var a, a' := d[id].args[i], rest[id].args[i];
    assert GoodArg(d, rank, id, a);
    assert ArgKept(folded, a, a');
    if a.Ref? {
      assert FoldedRight(d, rank, a.id, folded[a.id]);
    }
  }

  /** All operands known: folding the instruction gives its value. */
  lemma FoldNode(d: Dag, rank: map<nat, nat>, rest: Dag, folded: map<nat, Const>, id: nat)
    requires PassInv(d, rank, rest, folded) && id in rest && AllKnown(rest[id])
    ensures WellTyped(rest[id].op, rest[id].type_, Types(Consts(rest[id])))
    ensures FoldedRight(d, rank, id, Fold(rest[id].op, rest[id].type_, Consts(rest[id])))
  {
    hide Bits, ValidConst, Apply, Fold, WellTyped;
    var n, n' := d[id], rest[id];
    var cs := Consts(n');
    assert NodeKept(folded, n, n') && GoodNode(d, rank, id);
    forall env: nat -> nat, i: nat | i < |cs|
      ensures ValidConst(cs[i]) && cs[i].type_ == TypeOf(n.args[i]) &&
                Bits(cs[i]) == ArgValue(d, rank, env, id, n.args[i])
    {
      KnownArg(d, rank, rest, folded, env, id, i);
    }
    ConstsValid(d, rank, rest, folded, id);
    assert Types(cs) == ArgTypes(n);
    FoldCorrect(n'.op, n'.type_, cs);
    forall env: nat -> nat
      ensures Bits(Fold(n'.op, n'.type_, cs)) == Value(d, rank, env, id)
    {
      var xs := seq(|n.args|, i requires 0 <= i < |n.args| => ArgValue(d, rank, env, id, n.args[i]));
      assert Values(cs) == xs;
    }
  }

  lemma ConstsValid(d: Dag, rank: map<nat, nat>, rest: Dag, folded: map<nat, Const>, id: nat)
    requires PassInv(d, rank, rest, folded) && id in rest && AllKnown(rest[id])
    ensures forall i :: 0 <= i < |Consts(rest[id])| ==> ValidConst(Consts(rest[id])[i])
  {
    hide Bits, ValidConst, WellTyped, Apply;
    forall i | 0 <= i < |rest[id].args|
      ensures ValidConst(rest[id].args[i].c)
    {
      KnownArg(d, rank, rest, folded, x => 0, id, i);
    }
  }

  /** One more instruction folded: its uses become the constant. */
  lemma FoldStep(d: Dag, rank: map<nat, nat>, rest: Dag, folded: map<nat, Const>, id: nat, c: Const)
    requires PassInv(d, rank, rest, folded) && id in rest && FoldedRight(d, rank, id, c)
    ensures PassInv(d, rank, map j | j in rest && j != id :: ReplaceIn(id, c, rest[j]), folded[id := c])
  {
    hide FoldedRight, GoodDag, ArgKept;
    var rest' := map j | j in rest && j != id :: ReplaceIn(id, c, rest[j]);
    var folded' := folded[id := c];
    forall j | j in rest'
      ensures NodeKept(folded', d[j], rest'[j])
    {
      assert NodeKept(folded, d[j], rest[j]);
      forall i | 0 <= i < |d[j].args|
        ensures ArgKept(folded', d[j].args[i], rest'[j].args[i])
      {
        ArgStep(folded, id, c, d[j].args[i], rest[j].args[i]);
      }
    }
  }

  lemma ArgStep(folded: map<nat, Const>, id: nat, c: Const, a: Operand, a': Operand)
    requires ArgKept(folded, a, a') && id !in folded
    ensures ArgKept(folded[id := c], a, ReplaceArg(id, c, a'))
  {
  }

  /** Sweeps over the instructions until a sweep folds none. */
  method FoldAll(d: Dag, order: seq<nat>, ghost rank: map<nat, nat>) returns (rest: Dag, folded: map<nat, Const>)
    requires GoodDag(d, rank) && forall id :: id in order <==> id in d
    ensures PassInv(d, rank, rest, folded)
    ensures forall id :: id in rest ==> !AllKnown(rest[id])
  {
    hide GoodDag, PassInv, AllKnown, Fold, WellTyped;
    rest, folded := d, map[];
    PassStart(d, rank);
    var changed := true;
    while changed
      invariant PassInv(d, rank, rest, folded) && rest.Keys <= d.Keys
      invariant !changed ==> forall id :: id in rest ==> !AllKnown(rest[id])
      decreases |rest|, changed
    {
      changed := false;
      ghost var rest0 := rest;
      for i := 0 to |order|
        invariant PassInv(d, rank, rest, folded) && rest.Keys <= rest0.Keys
        invariant if changed then |rest| < |rest0| else rest == rest0
        invariant !changed ==> forall j :: 0 <= j < i && order[j] in rest ==> !AllKnown(rest[order[j]])
      {
        var id := order[i];
        if id in rest && AllKnown(rest[id]) {
          FoldNode(d, rank, rest, folded, id);
          var c := Fold(rest[id].op, rest[id].type_, Consts(rest[id]));
          FoldStep(d, rank, rest, folded, id, c);
          SmallerRest(rest, id, c);
          rest := map j | j in rest && j != id :: ReplaceIn(id, c, rest[j]);
          folded := folded[id := c];
          changed := true;
        }
      }
    }
  }

  lemma PassStart(d: Dag, rank: map<nat, nat>)
    requires GoodDag(d, rank)
    ensures PassInv(d, rank, d, map[])
  {
    hide GoodDag;
  }

  lemma SmallerRest(rest: Dag, id: nat, c: Const)
    requires id in rest
    ensures var rest' := map j | j in rest && j != id :: ReplaceIn(id, c, rest[j]);
            |rest'| < |rest| && rest'.Keys <= rest.Keys
  {
    var rest' := map j | j in rest && j != id :: ReplaceIn(id, c, rest[j]);
    assert rest.Keys == rest'.Keys + {id} && id !in rest'.Keys;
    assert |rest.Keys| == |rest'.Keys| + 1;
  }

  /** The instruction depends on constants only. */
  ghost predicate ConstantOnly(d: Dag, rank: map<nat, nat>, id: nat)
    requires GoodDag(d, rank) && id in d
    decreases rank[id]
  {
    assert GoodNode(d, rank, id);
    forall i {:trigger d[id].args[i]} :: 0 <= i < |d[id].args| && d[id].args[i].Ref? ==>
      (assert GoodArg(d, rank, id, d[id].args[i]); d[id].args[i].id in d && ConstantOnly(d, rank, d[id].args[i].id))
  }

  /** What depends on constants only has been folded, to its value. */
  lemma {:induction false} ConstantsFold(d: Dag, rank: map<nat, nat>, rest: Dag, folded: map<nat, Const>, id: nat)
    requires PassInv(d, rank, rest, folded) && (forall j :: j in rest ==> !AllKnown(rest[j]))
    requires id in d && ConstantOnly(d, rank, id)
    ensures id in folded && FoldedRight(d, rank, id, folded[id])
    decreases rank[id]
  {
    if id in rest {
      var i :| 0 <= i < |rest[id].args| && !rest[id].args[i].Known?;
      assert NodeKept(folded, d[id], rest[id]);
      assert ArgKept(folded, d[id].args[i], rest[id].args[i]);
      assert GoodNode(d, rank, id) && GoodArg(d, rank, id, d[id].args[i]);
      ConstantsFold(d, rank, rest, folded, d[id].args[i].id);
    }
  }
}
