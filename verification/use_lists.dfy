/** Def-use chains on the heap: each operand of a user is a use object, and the uses of a
    value form a doubly linked list. */
module UseLists {

  class Use {
    var prev: Use?
    var next: Use?
    var value: UsedValue?
    var user: User?

    constructor ()
      ensures prev == next == null && value == null && user == null
    {
      prev, next, value, user := null, null, null, null;
    }
  }

  class UsedValue {
    var usesHead: Use?
    var usesTail: Use?
    ghost var uses: seq<Use>
  }

  class User {
    var operands: seq<Use>
  }

  // ---------------------------------------------------------------- one list

  ghost predicate LinkOk(v: UsedValue, i: nat)
    requires i < |v.uses|
    reads v, v.uses
  {
    && v.uses[i].value == v
    && v.uses[i].prev == (if i == 0 then null else v.uses[i - 1])
    && v.uses[i].next == (if i + 1 == |v.uses| then null else v.uses[i + 1])
  }

  /** `uses` is what the links from head to tail and back go through. */
  ghost predicate ListOk(v: UsedValue)
    reads v, v.uses
  {
    && (if v.uses == [] then v.usesHead == null && v.usesTail == null
        else v.usesHead == v.uses[0] && v.usesTail == v.uses[|v.uses| - 1])
    && (forall i: nat :: i < |v.uses| ==> LinkOk(v, i))
    && (forall i, j :: 0 <= i < j < |v.uses| ==> v.uses[i] != v.uses[j])
  }

  ghost function Remove(s: seq<Use>, x: Use): seq<Use> {
    if s == [] then []
    else if s[0] == x then s[1..]
    else [s[0]] + Remove(s[1..], x)
  }

  lemma {:induction false} RemoveAt(s: seq<Use>, k: nat)
    requires k < |s| && forall i :: 0 <= i < k ==> s[i] != s[k]
    ensures Remove(s, s[k]) == s[..k] + s[k + 1..]
  {
    if k > 0 {
      RemoveAt(s[1..], k - 1);
      assert [s[0]] + s[1..][..k - 1] == s[..k];
    }
  }

  method AddUse(val: UsedValue, use: Use)
    requires ListOk(val) && use !in val.uses
    requires use.value == val && use.prev == null && use.next == null
    modifies val, val.uses, use
    ensures ListOk(val) && val.uses == old(val.uses) + [use] && use.value == val
    ensures forall u :: u in old(val.uses) ==> u.value == old(u.value)
    ensures use.user == old(use.user) && forall u :: u in old(val.uses) ==> u.user == old(u.user)
  {
    if val.usesHead == null {
      val.usesHead := use;
      val.usesTail := use;
    } else {
      assert LinkOk(val, |val.uses| - 1);
      val.usesTail.next := use;
      use.prev := val.usesTail;

      val.usesTail := use;
    }
    ghost var was := val.uses;
    val.uses := val.uses + [use];
    forall i: nat | i < |val.uses|
      ensures LinkOk(val, i)
    {
      if i < |was| {
        assert old(LinkOk(val, i));
      }
    }
  }

  /** Takes the k-th use out of the list. */
  method Unlink(val: UsedValue, cur: Use, ghost k: nat)
    requires ListOk(val) && k < |val.uses| && val.uses[k] == cur
    modifies val, val.uses
    ensures ListOk(val) && val.uses == old(val.uses[..k] + val.uses[k + 1..])
    ensures cur.value == null && cur.prev == null && cur.next == null
    ensures forall u :: u in old(val.uses) ==> u.user == old(u.user) && (u in val.uses ==> u.value == old(u.value))
  {
    ghost var was := val.uses;
    assert LinkOk(val, k);
    assert k > 0 ==> LinkOk(val, k - 1);
    assert k + 1 < |was| ==> LinkOk(val, k + 1);
    var next := cur.next;
    var prev := cur.prev;
    if prev != null {
      prev.next := next;
    }
    if next != null {
      next.prev := prev;
    }
    if cur == val.usesHead {
      val.usesHead := next;
    }
    if cur == val.usesTail {
      val.usesTail := prev;
    }
    cur.value := null;
    cur.next := null;
    cur.prev := null;
    val.uses := was[..k] + was[k + 1..];
    forall i: nat | i < |val.uses|
      ensures LinkOk(val, i)
    {
      if i < k {
        assert old(LinkOk(val, i));
      } else {
        assert old(LinkOk(val, i + 1));
      }
    }
  }

  /** Walks the list to a use of it. */
  method FindUse(val: UsedValue, use: Use) returns (ghost k: nat)
    requires ListOk(val) && use in val.uses
    ensures k < |val.uses| && val.uses[k] == use
  {
    var cur := val.usesHead;
    k := 0;
    while cur != use
      invariant k < |val.uses| && cur == val.uses[k]
      invariant forall i :: 0 <= i < k ==> val.uses[i] != use
      decreases |val.uses| - k
    {
      assert LinkOk(val, k);
      cur := cur.next;
      k := k + 1;
    }
  }

  lemma RemoveFrom(s: seq<Use>, k: nat)
    requires k < |s| && forall i, j :: 0 <= i < j < |s| ==> s[i] != s[j]
    ensures Remove(s, s[k]) == s[..k] + s[k + 1..]
    ensures forall u :: u in s[..k] + s[k + 1..] <==> u in s && u != s[k]
  {
    hide Remove;
    RemoveAt(s, k);
    var r := s[..k] + s[k + 1..];
    forall i | 0 <= i < |s| && i != k
      ensures s[i] in r && s[i] != s[k]
    {
      assert r[if i < k then i else i - 1] == s[i];
    }
    forall i | 0 <= i < |r|
      ensures r[i] in s && r[i] != s[k]
    {
      assert r[i] == s[if i < k then i else i + 1];
    }
  }

  method KillUse(val: UsedValue, use: Use)
    requires ListOk(val) && use in val.uses
    modifies val, val.uses
    ensures ListOk(val) && val.uses == Remove(old(val.uses), use)
    ensures forall u :: u in val.uses <==> u in old(val.uses) && u != use
    ensures use.value == null && use.prev == null && use.next == null
    ensures forall u :: u in old(val.uses) ==> u.user == old(u.user) && (u in val.uses ==> u.value == old(u.value))
  {
    hide LinkOk, Remove;
    ghost var k := FindUse(val, use);
    RemoveFrom(val.uses, k);
    Unlink(val, use, k);
  }

  // ---------------------------------------------------------------- all lists together

  ghost function UsesOf(values: set<UsedValue>): set<Use>
    reads values
  {
    set v, u | v in values && u in v.uses :: u
  }

  ghost function OperandsOf(users: set<User>): set<Use>
    reads users
  {
    set x, o | x in users && o in x.operands :: o
  }

  /** The values and users of a module. */
  datatype Scope = Scope(values: set<UsedValue>, users: set<User>)

  /** An operand is in the list of its value. */
  ghost predicate OperandOk(sc: Scope, x: User, k: nat)
    requires k < |x.operands|
    reads sc.values, x, x.operands
  {
    var o := x.operands[k];
    && o.user == x
    && (if o.value == null then o.prev == null && o.next == null else o.value in sc.values && o in o.value.uses)
  }

  ghost predicate UserOk(sc: Scope, x: User)
    reads sc.values, x, x.operands
  {
    && (forall k: nat :: k < |x.operands| ==> OperandOk(sc, x, k))
    && (forall i, j :: 0 <= i < j < |x.operands| ==> x.operands[i] != x.operands[j])
  }

  /** A list holds operands of users only. */
  ghost predicate ValueOk(sc: Scope, v: UsedValue)
    reads sc.users, v, v.uses
  {
    ListOk(v) && forall u :: u in v.uses ==> u.user != null && u.user in sc.users && u in u.user.operands
  }

  /** Each operand's use is in the list of its value, once and nowhere else, and nothing
      else is in any list. */
  ghost predicate InOrder(sc: Scope)
    reads sc.values, sc.users, UsesOf(sc.values), OperandsOf(sc.users)
  {
    && (forall v :: v in sc.values ==> assert forall u :: u in v.uses ==> u in UsesOf(sc.values); ValueOk(sc, v))
    && (forall x :: x in sc.users ==> assert forall o :: o in x.operands ==> o in OperandsOf(sc.users); UserOk(sc, x))
  }

  /** What a change of one operand may touch. */
  ghost function Footprint(v: UsedValue?): set<object>
    reads v
  {
    if v == null then {} else {v} + (set u: object | u in v.uses)
  }

  /** A use is in one list only. */
  lemma UseValues(sc: Scope)
    requires InOrder(sc)
    ensures forall v, u :: v in sc.values && u in v.uses ==> u.value == v
  {
    forall v, u | v in sc.values && u in v.uses
      ensures u.value == v
    {
      assert ValueOk(sc, v);
      var i: nat :| i < |v.uses| && v.uses[i] == u;
      assert LinkOk(v, i);
    }
  }

  lemma Apart(sc: Scope, w: UsedValue?)
    requires InOrder(sc) && (w != null ==> w in sc.values)
    ensures w != null ==> forall v, u :: v in sc.values && v != w && u in v.uses ==> u !in w.uses
  {
    hide InOrder;
    UseValues(sc);
    if w != null {
      forall v, u | v in sc.values && v != w && u in v.uses
        ensures u !in w.uses
      {
        assert u.value == v;
      }
    }
  }

  /** Neither the list nor its uses were touched. */
  twostate predicate Untouched(v: UsedValue)
    reads v, v.uses
  {
    && v.uses == old(v.uses) && v.usesHead == old(v.usesHead) && v.usesTail == old(v.usesTail)
    && (forall u :: u in v.uses ==> SameUse(u))
  }

  twostate predicate SameUse(u: Use)
    reads u
  {
    u.value == old(u.value) && u.prev == old(u.prev) && u.next == old(u.next) && u.user == old(u.user)
  }

  twostate lemma ListKept(v: UsedValue)
    requires old(ListOk(v)) && Untouched(v)
    ensures ListOk(v)
  {
    forall i: nat | i < |v.uses|
      ensures LinkOk(v, i)
    {
      assert old(LinkOk(v, i)) && SameUse(v.uses[i]);
    }
  }

  /** What validity says use by use. */
  lemma Facts(sc: Scope)
    requires InOrder(sc)
    ensures forall v :: v in sc.values ==> ListOk(v)
    ensures forall v, u :: v in sc.values && u in v.uses ==> u.value == v && u in OperandsOf(sc.users)
    ensures forall x, o :: x in sc.users && o in x.operands ==>
              o.user == x && (if o.value == null then o.prev == null && o.next == null
              else o.value in sc.values && o in o.value.uses)
    ensures forall x :: x in sc.users ==> forall i, j :: 0 <= i < j < |x.operands| ==> x.operands[i] != x.operands[j]
  {
    UseValues(sc);
    forall v, u | v in sc.values && u in v.uses
      ensures u in OperandsOf(sc.users)
    {
      assert ValueOk(sc, v);
    }
    forall v | v in sc.values
      ensures ListOk(v)
    {
      assert ValueOk(sc, v);
    }
    forall x, o | x in sc.users && o in x.operands
      ensures o.user == x && (if o.value == null then o.prev == null && o.next == null
                else o.value in sc.values && o in o.value.uses)
    {
      var k: nat :| k < |x.operands| && x.operands[k] == o;
      assert UserOk(sc, x) && OperandOk(sc, x, k);
    }
    forall x | x in sc.users
      ensures forall i, j :: 0 <= i < j < |x.operands| ==> x.operands[i] != x.operands[j]
    {
      assert UserOk(sc, x);
    }
  }

  /** A value's list holds exactly the operands that have that value, each once. */
  lemma UsesExactly(sc: Scope, v: UsedValue)
    requires InOrder(sc) && v in sc.values
    ensures forall o: Use :: o in v.uses <==> o in OperandsOf(sc.users) && o.value == v
    ensures forall i, j :: 0 <= i < j < |v.uses| ==> v.uses[i] != v.uses[j]
    ensures forall w :: w in sc.values && w != v ==> forall o :: o in v.uses ==> o !in w.uses
  {
    Facts(sc);
    assert ListOk(v);
    hide InOrder;
    forall o: Use | o in OperandsOf(sc.users) && o.value == v
      ensures o in v.uses
    {
      var x :| x in sc.users && o in x.operands;
    }
  }

  /** A use that is linked where it belongs, or nowhere. */
  ghost predicate Placed(sc: Scope, u: Use)
    reads u, sc.values, sc.users
  {
    && (forall x :: x in sc.users && u in x.operands ==> x == u.user)
    && (forall v :: v in sc.values && u in v.uses ==>
      v == u.value && u.user != null && u.user in sc.users && u in u.user.operands)
    && (if u.value == null then u.prev == null && u.next == null else u.value in sc.values && u in u.value.uses)
  }

  /** If only one use was moved, and was put where it belongs, everything is in order. */
  twostate lemma StillInOrder(sc: Scope, new moved: set<Use>)
    requires old(InOrder(sc))
    requires forall v :: v in sc.values ==> ListOk(v)
    requires forall v, u :: v in sc.values && u !in moved ==> (u in v.uses <==> u in old(v.uses))
    requires forall x, u :: x in sc.users && u !in moved ==> (u in x.operands <==> u in old(x.operands))
    requires forall x :: x in sc.users ==> forall i, j :: 0 <= i < j < |x.operands| ==> x.operands[i] != x.operands[j]
    requires forall u :: u in old(OperandsOf(sc.users)) && u !in moved ==>
               u.user == old(u.user) && u.value == old(u.value) && (u.value == null ==> SameUse(u))
    requires forall u :: u in moved ==> Placed(sc, u)
    ensures InOrder(sc)
  {
    forall v | v in sc.values
      ensures ValueOk(sc, v)
    {
      assert old(ValueOk(sc, v));
      forall u | u in v.uses
        ensures u.user != null && u.user in sc.users && u in u.user.operands
      {
        if u !in moved {
          assert u in old(v.uses);
          assert u in old(OperandsOf(sc.users));
        } else {
          assert Placed(sc, u);
        }
      }
    }
    forall x | x in sc.users
      ensures UserOk(sc, x)
    {
      assert old(UserOk(sc, x));
      forall k: nat | k < |x.operands|
        ensures OperandOk(sc, x, k)
      {
        var o := x.operands[k];
        if o in moved {
          assert Placed(sc, o);
        } else {
          assert o in old(x.operands);
          var j: nat :| j < |old(x.operands)| && old(x.operands)[j] == o;
          assert old(OperandOk(sc, x, j));
        }
      }
    }
  }

  method AddOperand(user: User, operand: UsedValue?, ghost sc: Scope) returns (use: Use)
    requires InOrder(sc) && user in sc.users && (operand != null ==> operand in sc.values)
    modifies user, Footprint(operand)
    ensures InOrder(sc)
    ensures fresh(use) && user.operands == old(user.operands) + [use] && use.value == operand
    ensures operand != null ==> operand.uses == old(operand.uses) + [use]
    ensures forall v :: v in sc.values && v != operand ==> v.uses == old(v.uses)
    ensures forall y :: y in sc.users && y != user ==> y.operands == old(y.operands)
    ensures forall o :: o in old(OperandsOf(sc.users)) ==> o.value == old(o.value)
  {
    hide InOrder, ListOk;
    Facts(sc);
    Apart(sc, operand);
    use := new Use();
    use.value := operand;
    use.user := user;
    if operand != null {
      AddUse(operand, use);
    }
    user.operands := user.operands + [use];
    forall v | v in sc.values && v != operand
      ensures ListOk(v)
    {
      assert v.uses == old(v.uses);
      forall u | u in v.uses
        ensures SameUse(u)
      {
        assert old(u in v.uses && v in sc.values && v != operand);
        assert operand != null ==> u !in old(operand.uses);
        assert u != use;
      }
      ListKept(v);
    }
    StillInOrder(sc, {use});
  }

  function Del(s: seq<Use>, k: nat): seq<Use>
    requires k < |s|
  {
    s[..k] + s[k + 1..]
  }

  /** Deleting one of several different entries. */
  lemma DelFacts(s: seq<Use>, k: nat)
    requires k < |s| && forall i, j :: 0 <= i < j < |s| ==> s[i] != s[j]
    ensures forall u :: u in Del(s, k) <==> u in s && u != s[k]
    ensures forall i, j :: 0 <= i < j < |s| - 1 ==> Del(s, k)[i] != Del(s, k)[j]
  {
    RemoveFrom(s, k);
  }

  method RemoveOperand(user: User, operandId: nat, ghost sc: Scope)
    requires InOrder(sc) && user in sc.users && operandId < |user.operands|
    modifies user, user.operands[operandId], Footprint(user.operands[operandId].value)
    ensures InOrder(sc)
    ensures user.operands == old(Del(user.operands, operandId))
    ensures forall v :: v in sc.values ==> v.uses == Remove(old(v.uses), old(user.operands[operandId]))
    ensures forall y :: y in sc.users && y != user ==> y.operands == old(y.operands)
    ensures forall o :: o in OperandsOf(sc.users) ==> o.value == old(o.value)
  {
    hide InOrder, ListOk;
    Facts(sc);
    var use := user.operands[operandId];
    ghost var val := use.value;
    Apart(sc, val);
    NotThere(sc, use);
    DelFacts(user.operands, operandId);
    if use.value != null {
      KillUse(use.value, use);
    }
    user.operands := user.operands[..operandId] + user.operands[operandId + 1..];
    forall v | v in sc.values && v != val
      ensures ListOk(v)
    {
      assert v.uses == old(v.uses);
      forall u | u in v.uses
        ensures SameUse(u)
      {
        assert old(u in v.uses && v in sc.values && v != val);
        assert val != null ==> u !in old(val.uses);
        assert u != use;
      }
      ListKept(v);
    }
    StillInOrder(sc, {use});
  }

  /** A use is in no list but that of its value. */
  lemma NotThere(sc: Scope, use: Use)
    requires forall v, u :: v in sc.values && u in v.uses ==> u.value == v
    ensures forall v :: v in sc.values && v != use.value ==> use !in v.uses && Remove(v.uses, use) == v.uses
  {
    forall v | v in sc.values && v != use.value
      ensures use !in v.uses && Remove(v.uses, use) == v.uses
    {
      RemoveAbsent(v.uses, use);
    }
  }

  lemma {:induction false} RemoveSubset(s: seq<Use>, x: Use)
    ensures forall u :: u in Remove(s, x) ==> u in s
  {
    if s != [] {
      RemoveSubset(s[1..], x);
    }
  }

  lemma {:induction false} RemoveAbsent(s: seq<Use>, x: Use)
    requires x !in s
    ensures Remove(s, x) == s
  {
    if s != [] {
      RemoveAbsent(s[1..], x);
    }
  }

  /** The list of v after `use` has gone to the value w. */
  ghost function Moved(v: UsedValue, use: Use, w: UsedValue?): seq<Use>
    reads v
  {
    Remove(v.uses, use) + if v == w then [use] else []
  }

  /** Takes a use out of the list it is in. */
  method Detach(use: Use, ghost sc: Scope)
    requires InOrder(sc) && use in OperandsOf(sc.users)
    modifies use, Footprint(use.value)
    ensures InOrder(sc)
    ensures use.value == null && use.user == old(use.user)
    ensures forall v :: v in sc.values ==> v.uses == Remove(old(v.uses), use)
    ensures forall o :: o in OperandsOf(sc.users) && o != use ==> o.value == old(o.value)
  {
    hide InOrder, ListOk, Remove;
    Facts(sc);
    ghost var was := use.value;
    Apart(sc, was);
    NotThere(sc, use);
    if use.value != null {
      KillUse(use.value, use);
      use.value := null;
    }
    forall v | v in sc.values && v != was
      ensures ListOk(v)
    {
      assert v.uses == old(v.uses);
      forall u | u in v.uses
        ensures SameUse(u)
      {
        assert old(u in v.uses && v in sc.values && v != was);
        assert was != null ==> u !in old(was.uses);
        assert u != use;
      }
      ListKept(v);
    }
    StillInOrder(sc, {use});
  }

  /** Puts a use without a value at the end of a value's list. */
  method Attach(use: Use, val: UsedValue?, ghost sc: Scope)
    requires InOrder(sc) && use in OperandsOf(sc.users) && (val != null ==> val in sc.values) && use.value == null
    modifies use, Footprint(val)
    ensures InOrder(sc)
    ensures use.value == val && use.user == old(use.user)
    ensures forall v :: v in sc.values ==> v.uses == old(v.uses) + if v == val then [use] else []
    ensures forall o :: o in OperandsOf(sc.users) && o != use ==> o.value == old(o.value)
  {
    hide InOrder, ListOk;
    Facts(sc);
    Apart(sc, val);
    NotThere(sc, use);
    use.value := val;
    if use.value != null {
      AddUse(use.value, use);
    }
    forall v | v in sc.values && v != val
      ensures ListOk(v)
    {
      assert v.uses == old(v.uses);
      forall u | u in v.uses
        ensures SameUse(u)
      {
        assert old(u in v.uses && v in sc.values && v != val);
        assert val != null ==> u !in old(val.uses);
        assert u != use;
      }
      ListKept(v);
    }
    StillInOrder(sc, {use});
  }

  /** Gives a use another value: it leaves one list and goes to the end of the other. */
  method SetValue(use: Use, val: UsedValue?, ghost sc: Scope)
    requires InOrder(sc) && use in OperandsOf(sc.users) && (val != null ==> val in sc.values)
    modifies use, Footprint(use.value), Footprint(val)
    ensures InOrder(sc)
    ensures use.value == val && use.user == old(use.user)
    ensures forall v :: v in sc.values ==> v.uses == old(Moved(v, use, val))
    ensures forall o :: o in OperandsOf(sc.users) && o != use ==> o.value == old(o.value)
  {
    hide InOrder, ListOk, Remove;
    if val != null {
      RemoveSubset(val.uses, use);
    }
    Detach(use, sc);
    Attach(use, val, sc);
  }

  /** Replaces one operand and returns what it was; an operand that does not exist is
      left alone. */
  method ReplaceOperand(user: User, operandId: nat, newVal: UsedValue?, ghost sc: Scope) returns (oldVal: UsedValue?)
    requires InOrder(sc) && user in sc.users && (newVal != null ==> newVal in sc.values)
    modifies if operandId < |user.operands|
             then {user.operands[operandId]} + Footprint(user.operands[operandId].value) + Footprint(newVal) else {}
    ensures InOrder(sc)
    ensures operandId >= |user.operands| ==> oldVal == null
    ensures operandId < |user.operands| ==>
              var use := user.operands[operandId];
              oldVal == old(use.value) && use.value == newVal &&
              (forall v :: v in sc.values ==> v.uses == old(Moved(v, use, newVal))) &&
              (forall o :: o in OperandsOf(sc.users) && o != use ==> o.value == old(o.value))
  {
    hide InOrder, ListOk, Remove;
    if operandId >= |user.operands| {
      return null;
    }
    var use := user.operands[operandId];
    oldVal := use.value;
    assert use in user.operands;
    SetValue(use, newVal, sc);
  }

  /** All uses of val become uses of newVal, in their order. */
  method ReplaceAllUsesWith(val: UsedValue, newVal: UsedValue, ghost sc: Scope)
    requires InOrder(sc) && val in sc.values && newVal in sc.values && val != newVal
    modifies Footprint(val), Footprint(newVal)
    ensures InOrder(sc)
    ensures val.uses == [] && newVal.uses == old(newVal.uses) + old(val.uses)
    ensures forall v :: v in sc.values && v != val && v != newVal ==> v.uses == old(v.uses)
    ensures forall o :: o in OperandsOf(sc.users) ==> o.value == if old(o.value) == val then newVal else old(o.value)
  {
    hide InOrder, ListOk, Remove;
    ghost var all := val.uses;
    ListIn(sc, val);
    NoneYet(sc, val);
    var use := val.usesHead;
    ghost var i: nat := 0;
    HeadIs(val);
    while use != null
      invariant i <= |all| && InOrder(sc)
      invariant use == if i < |all| then all[i] else null
      invariant val.uses == all[i..] && newVal.uses == old(newVal.uses) + all[..i]
      invariant forall v :: v in sc.values && v != val && v != newVal ==> v.uses == old(v.uses)
      invariant forall o :: o in OperandsOf(sc.users) ==> o.value == if o in all[..i] then newVal else old(o.value)
      decreases |all| - i
    {
      ListIn(sc, val);
      HeadIs(val);
      var nextUse := use.next;
      OneMore(all, i);
      MoveHead(use, val, newVal, sc);
      use := nextUse;
      i := i + 1;
    }
  }

  /** The first use of a value becomes the last use of another one. */
  method MoveHead(use: Use, val: UsedValue, newVal: UsedValue, ghost sc: Scope)
    requires InOrder(sc) && val in sc.values && newVal in sc.values && val != newVal
    requires val.uses != [] && val.uses[0] == use
    modifies Footprint(val), Footprint(newVal)
    ensures InOrder(sc) && use in OperandsOf(sc.users)
    ensures val.uses == old(val.uses)[1..] && newVal.uses == old(newVal.uses) + [use]
    ensures forall v :: v in sc.values && v != val && v != newVal ==> v.uses == old(v.uses)
    ensures forall o :: o in OperandsOf(sc.users) ==> o.value == if o == use then newVal else old(o.value)
  {
    hide InOrder, ListOk, Remove;
    Facts(sc);
    NotThere(sc, use);
    RemoveHead(val.uses);
    SetValue(use, newVal, sc);
  }

  lemma ListIn(sc: Scope, v: UsedValue)
    requires InOrder(sc) && v in sc.values
    ensures ListOk(v)
  {
    hide ListOk;
    Facts(sc);
  }

  /** What an operand of another value is not in this one's list. */
  lemma NoneYet(sc: Scope, val: UsedValue)
    requires InOrder(sc) && val in sc.values
    ensures forall o :: o in OperandsOf(sc.users) ==> (o in val.uses <==> o.value == val)
  {
    hide ListOk;
    Facts(sc);
  }

  lemma HeadIs(v: UsedValue)
    requires ListOk(v)
    ensures v.usesHead == if v.uses == [] then null else v.uses[0]
    ensures v.uses != [] ==> v.uses[0].next == if |v.uses| == 1 then null else v.uses[1]
  {
    if v.uses != [] {
      assert LinkOk(v, 0);
    }
  }

  lemma OneMore(all: seq<Use>, i: nat)
    requires i < |all|
    ensures all[..i + 1] == all[..i] + [all[i]] && all[i..] == [all[i]] + all[i + 1..]
    ensures forall u :: u in all[..i + 1] <==> u in all[..i] || u == all[i]
  {
  }

  lemma RemoveHead(s: seq<Use>)
    requires s != []
    ensures Remove(s, s[0]) == s[1..]
  {
  }
}
