/** The loop that moves leading allocas of an inlined callee to the caller's entry.  It
    reads the next link of an instruction after the instruction has moved. */
module HoistAllocas {
  import opened Options
  import opened IR

  /** Where the loop is: at the head of the cloned entry, or in the caller's entry. */
  datatype Cursor = CloneHead | EntryAt(index: nat)

  datatype Hoist = Hoist(entry: seq<Instruction>, clone: seq<Instruction>, at: Cursor)

  predicate LeadsAlloca(body: seq<Instruction>) {
    body != [] && body[0].Alloca?
  }

  function Start(entry: seq<Instruction>, clone: seq<Instruction>): Hoist {
    Hoist(entry, clone, CloneHead)
  }

  function Current(s: Hoist): Option<Instruction> {
    match s.at
    case CloneHead => if s.clone != [] then Some(s.clone[0]) else None
    case EntryAt(i) => if i < |s.entry| then Some(s.entry[i]) else None
  }

  predicate Running(s: Hoist) {
    Current(s).Some? && Current(s).value.Alloca?
  }

  /** Out of its list, to the front of the entry, and on to what is next there. */
  function Step(s: Hoist): Hoist
    requires Running(s)
  {
    match s.at
    case CloneHead => Hoist([s.clone[0]] + s.entry, s.clone[1..], EntryAt(1))
    case EntryAt(i) => Hoist([s.entry[i]] + s.entry[..i] + s.entry[i + 1..], s.clone, EntryAt(1))
  }

  /** After at most n rounds. */
  function After(s: Hoist, n: nat): Hoist
    decreases n
  {
    if n == 0 || !Running(s) then s else After(Step(s), n - 1)
  }

  ghost predicate Ends(s: Hoist) {
    exists n: nat :: !Running(After(s, n))
  }

  /** With two allocas at the front of the entry the loop swaps them for ever. */
  lemma {:induction false} SwapsOn(s: Hoist, n: nat)
    requires s.at == EntryAt(1) && |s.entry| >= 2 && s.entry[0].Alloca? && s.entry[1].Alloca?
    ensures Running(After(s, n))
    decreases n
  {
    if n > 0 {
      SwapsOn(Step(s), n - 1);
    }
  }

  /** The loop ends exactly if not both entries begin with an alloca. */
  lemma HoistEnds(entry: seq<Instruction>, clone: seq<Instruction>)
    ensures Ends(Start(entry, clone)) <==> !(LeadsAlloca(entry) && LeadsAlloca(clone))
  {
    var s := Start(entry, clone);
    if LeadsAlloca(entry) && LeadsAlloca(clone) {
      forall n: nat
        ensures Running(After(s, n))
      {
        if n > 0 {
          SwapsOn(Step(s), n - 1);
        }
      }
    } else if LeadsAlloca(clone) {
      assert After(s, 1) == After(Step(s), 0) == Step(s);
      assert !Running(After(s, 1));
    } else {
      assert !Running(After(s, 0));
    }
  }

  /** If it ends, one alloca has moved, or none: the others of the callee stay. */
  method MoveAllocas(entry: seq<Instruction>, clone: seq<Instruction>)
    returns (entry': seq<Instruction>, clone': seq<Instruction>)
    requires Ends(Start(entry, clone))
    ensures if LeadsAlloca(clone) then entry' == [clone[0]] + entry && clone' == clone[1..]
            else entry' == entry && clone' == clone
  {
    HoistEnds(entry, clone);
    var s := Start(entry, clone);
    while Running(s)
      invariant s == Start(entry, clone) || (LeadsAlloca(clone) && s == Step(Start(entry, clone)) && !Running(s))
      decreases s.at.CloneHead?
    {
      s := Step(s);
    }
    return s.entry, s.clone;
  }
}
