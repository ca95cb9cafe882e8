/** Expansion of object-like macros with hide sets, after Prosser's algorithm (C11, section
    6.10.3.4): a token that comes out of the expansion of a macro carries the macro's name
    in its hide set and is not expanded as that macro again. */
module Macros {
  import opened Collections

  type Name = string

  datatype Kind = Identifier | OpenParen | CloseParen | Comma | Other

  /** `text` is the token's interned spelling, `hide` the list of names of its hide set. */
  datatype Token = Token(kind: Kind, text: Name, hide: seq<Name>)

  /** Object-like macros and their bodies. */
  type Table = map<Name, seq<Token>>

  // ---------------------------------------------------------------- one step

  predicate Expands(m: Table, t: Token) {
    t.text !in t.hide && t.kind.Identifier? && t.text in m
  }

  function AddHide(ts: seq<Token>, hs: seq<Name>): (r: seq<Token>)
    ensures |r| == |ts|
  {
    seq(|ts|, i requires 0 <= i < |ts| => ts[i].(hide := ts[i].hide + hs))
  }

  /** What replaces a macro's name. */
  function Replacement(m: Table, t: Token): seq<Token>
    requires Expands(m, t)
  {
    AddHide(m[t.text], t.hide + [t.text])
  }

  // ---------------------------------------------------------------- measures

  ghost function Unhidden(m: Table, t: Token): set<Name> {
    set n | n in m && n !in t.hide
  }

  ghost function Rank(m: Table, ts: seq<Token>): nat {
    if ts == [] then 0
    else
      var r := Rank(m, ts[1..]);
      if |Unhidden(m, ts[0])| > r then |Unhidden(m, ts[0])| else r
  }

  lemma {:induction false} RankBelow(m: Table, ts: seq<Token>, k: nat)
    requires forall i :: 0 <= i < |ts| ==> |Unhidden(m, ts[i])| <= k
    ensures Rank(m, ts) <= k
  {
    if ts != [] {
      RankBelow(m, ts[1..], k);
    }
  }

  lemma SmallerSet(a: set<Name>, b: set<Name>, x: Name)
    requires a <= b && x in b && x !in a
    ensures |a| < |b|
  {
    SubsetCard(a, b - {x});
  }

  lemma ReplacementRank(m: Table, t: Token)
    requires Expands(m, t)
    ensures Rank(m, Replacement(m, t)) < |Unhidden(m, t)|
    ensures forall u :: u in Replacement(m, t) ==> |Unhidden(m, u)| < |Unhidden(m, t)|
  {
    var r := Replacement(m, t);
    SmallerSet({}, Unhidden(m, t), t.text);
    forall i | 0 <= i < |r|
      ensures |Unhidden(m, r[i])| < |Unhidden(m, t)|
    {
      assert forall n :: n in t.hide ==> n in r[i].hide;
      assert t.text in (t.hide + [t.text]);
      SmallerSet(Unhidden(m, r[i]), Unhidden(m, t), t.text);
    }
    RankBelow(m, r, |Unhidden(m, t)| - 1);
  }

  // ---------------------------------------------------------------- the whole expansion

  /** The full expansion of a token, by itself ... */
  ghost function ExpandToken(m: Table, t: Token): seq<Token>
    decreases |Unhidden(m, t)|, 0
  {
    if Expands(m, t) then
      ReplacementRank(m, t);
      Expand(m, Replacement(m, t))
    else [t]
  }

  /** ... and of a list, token by token. */
  ghost function Expand(m: Table, ts: seq<Token>): seq<Token>
    decreases Rank(m, ts), |ts| + 1
  {
    if ts == [] then [] else ExpandToken(m, ts[0]) + Expand(m, ts[1..])
  }

  /** The number of tokens looked at on the way. */
  ghost function WorkToken(m: Table, t: Token): nat
    decreases |Unhidden(m, t)|, 0
  {
    if Expands(m, t) then
      ReplacementRank(m, t);
      1 + Work(m, Replacement(m, t))
    else 1
  }

  ghost function Work(m: Table, ts: seq<Token>): nat
    decreases Rank(m, ts), |ts| + 1
  {
    if ts == [] then 0 else WorkToken(m, ts[0]) + Work(m, ts[1..])
  }

  lemma {:induction false} ExpandConcat(m: Table, a: seq<Token>, b: seq<Token>)
    ensures Expand(m, a + b) == Expand(m, a) + Expand(m, b)
    ensures Work(m, a + b) == Work(m, a) + Work(m, b)
  {
    if a == [] {
      assert a + b == b;
    } else {
      assert (a + b)[1..] == a[1..] + b;
      ExpandConcat(m, a[1..], b);
    }
  }

  // ---------------------------------------------------------------- the algorithm

  method AddHideSet(ts: seq<Token>, hs: seq<Name>) returns (r: seq<Token>)
    ensures r == AddHide(ts, hs)
  {
    r := [];
    for i := 0 to |ts|
      invariant r == AddHide(ts, hs)[..i]
    {
      r := r + [ts[i].(hide := ts[i].hide + hs)];
    }
  }

  /** Replaces the first token if it is to be expanded. */
  method ExpandMacro(m: Table, list: seq<Token>) returns (expanded: bool, list': seq<Token>)
    requires list != []
    ensures expanded <==> Expands(m, list[0])
    ensures list' == if expanded then Replacement(m, list[0]) + list[1..] else list
  {
    var tok := list[0];
    if tok.text in tok.hide {
      return false, list;
    }
    if !tok.kind.Identifier? || tok.text !in m {
      return false, list;
    }
    var hs := tok.hide + [tok.text];
    var body := AddHideSet(m[tok.text], hs);
    return true, body + list[1..];
  }

  /** Rescans until no token is to be expanded. */
  method Preprocess(m: Table, tokens: seq<Token>) returns (out: seq<Token>)
    ensures out == Expand(m, tokens)
  {
    out := [];
    var list := tokens;
    while list != []
      invariant out + Expand(m, list) == Expand(m, tokens)
      decreases Work(m, list)
    {
      var expanded, next := ExpandMacro(m, list);
      assert WorkToken(m, list[0]) == if expanded then 1 + Work(m, Replacement(m, list[0])) else 1;
      if expanded {
        ExpandConcat(m, Replacement(m, list[0]), list[1..]);
        list := next;
      } else {
        out := out + [list[0]];
        list := list[1..];
      }
    }
  }

  // ---------------------------------------------------------------- what comes out

  /** u comes from t: it hides what t hid, and t's own name if t was expanded. */
  ghost predicate Inherits(m: Table, t: Token, u: Token) {
    (forall n :: n in t.hide ==> n in u.hide) && (Expands(m, t) ==> t.text in u.hide)
  }

  lemma {:induction false} ExpansionHides(m: Table, t: Token, u: Token)
    requires u in ExpandToken(m, t)
    ensures Inherits(m, t, u) && !Expands(m, u)
    decreases |Unhidden(m, t)|, 0
  {
    if Expands(m, t) {
      ReplacementRank(m, t);
      var r := Replacement(m, t);
      var v := ExpansionFrom(m, r, u);
      var i :| 0 <= i < |r| && r[i] == v;
      assert forall n :: n in t.hide ==> n in v.hide;
      assert t.text in (t.hide + [t.text]);
    }
  }

  /** A token of the result comes from one of the list. */
  lemma {:induction false} ExpansionFrom(m: Table, ts: seq<Token>, u: Token) returns (t: Token)
    requires u in Expand(m, ts)
    ensures t in ts && Inherits(m, t, u) && !Expands(m, u)
    decreases Rank(m, ts), |ts| + 1
  {
    if u in ExpandToken(m, ts[0]) {
      ExpansionHides(m, ts[0], u);
      t := ts[0];
    } else {
      t := ExpansionFrom(m, ts[1..], u);
    }
  }

  lemma {:induction false} NothingToDo(m: Table, ts: seq<Token>)
    requires forall i :: 0 <= i < |ts| ==> !Expands(m, ts[i])
    ensures Expand(m, ts) == ts
  {
    if ts != [] {
      NothingToDo(m, ts[1..]);
    }
  }

  /** Nothing is left to expand: expanding the result again changes nothing. */
  lemma ExpandTwice(m: Table, ts: seq<Token>)
    ensures Expand(m, Expand(m, ts)) == Expand(m, ts)
  {
    var r := Expand(m, ts);
    forall i | 0 <= i < |r|
      ensures !Expands(m, r[i])
    {
      var _ := ExpansionFrom(m, ts, r[i]);
    }
    NothingToDo(m, r);
  }

  /** A macro's name in the result is there because the token came from that macro, or
      was hidden from the start. */
  lemma RemainingNames(m: Table, ts: seq<Token>, u: Token)
    requires u in Expand(m, ts) && u.kind.Identifier? && u.text in m
    ensures u.text in u.hide
  {
    var _ := ExpansionFrom(m, ts, u);
  }

  // ---------------------------------------------------------------- how far it can go

  /** How deeply expansions nest. */
  ghost function DepthToken(m: Table, t: Token): nat
    decreases |Unhidden(m, t)|, 0
  {
    if Expands(m, t) then
      ReplacementRank(m, t);
      1 + Depth(m, Replacement(m, t))
    else 0
  }

  ghost function Depth(m: Table, ts: seq<Token>): nat
    decreases Rank(m, ts), |ts| + 1
  {
    if ts == [] then 0
    else
      var d, r := DepthToken(m, ts[0]), Depth(m, ts[1..]);
      if d > r then d else r
  }

  /** Never deeper than there are macros that are not hidden. */
  lemma {:induction false} DepthBound(m: Table, t: Token)
    ensures DepthToken(m, t) <= |Unhidden(m, t)|
    decreases |Unhidden(m, t)|, 0
  {
    if Expands(m, t) {
      ReplacementRank(m, t);
      DepthListBound(m, Replacement(m, t), |Unhidden(m, t)| - 1);
    }
  }

  lemma {:induction false} DepthListBound(m: Table, ts: seq<Token>, k: nat)
    requires forall u :: u in ts ==> |Unhidden(m, u)| <= k
    ensures Depth(m, ts) <= k
    decreases Rank(m, ts), |ts| + 1
  {
    if ts != [] {
      DepthBound(m, ts[0]);
      DepthListBound(m, ts[1..], k);
    }
  }

  function Power(b: nat, e: nat): (r: nat) {
    if e == 0 then 1 else b * Power(b, e - 1)
  }

  lemma {:induction false} PowerPositive(b: nat, e: nat)
    requires b > 0
    ensures Power(b, e) >= 1
  {
    if e > 0 {
      PowerPositive(b, e - 1);
      assert b * Power(b, e - 1) >= 1 * 1;
    }
  }

  lemma PowerMonotone(b: nat, d: nat, e: nat)
    requires b > 0 && d <= e
    ensures Power(b, d) <= Power(b, e)
    decreases e - d
  {
    if d < e {
      PowerMonotone(b, d, e - 1);
      PowerPositive(b, e - 1);
      assert b * Power(b, e - 1) >= 1 * Power(b, e - 1);
    }
  }

  /** With bodies of at most `longest` tokens, a token costs at most longest + 1 to the
      number of macros it does not hide. */
  lemma {:induction false} WorkBound(m: Table, t: Token, longest: nat)
    requires forall n :: n in m ==> |m[n]| <= longest
    ensures WorkToken(m, t) <= Power(longest + 1, |Unhidden(m, t)|)
    decreases |Unhidden(m, t)|, 0
  {
    PowerPositive(longest + 1, |Unhidden(m, t)|);
    if Expands(m, t) {
      ReplacementRank(m, t);
      var k := |Unhidden(m, t)| - 1;
      WorkListBound(m, Replacement(m, t), longest, k);
      PowerPositive(longest + 1, k);
      var p := Power(longest + 1, k);
      assert |Replacement(m, t)| * p <= longest * p by { Times(|Replacement(m, t)|, longest, p); }
      assert (longest + 1) * p == longest * p + p;
    }
  }

  lemma Times(a: nat, b: nat, c: nat)
    requires a <= b
    ensures a * c <= b * c
  {
  }

  lemma {:induction false} WorkListBound(m: Table, ts: seq<Token>, longest: nat, k: nat)
    requires forall n :: n in m ==> |m[n]| <= longest
    requires forall u :: u in ts ==> |Unhidden(m, u)| <= k
    ensures Work(m, ts) <= |ts| * Power(longest + 1, k)
    decreases Rank(m, ts), |ts| + 1
  {
    if ts != [] {
      WorkBound(m, ts[0], longest);
      PowerMonotone(longest + 1, |Unhidden(m, ts[0])|, k);
      WorkListBound(m, ts[1..], longest, k);
      var p := Power(longest + 1, k);
      assert |ts| * p == p + |ts[1..]| * p;
    }
  }

  /** The whole run looks at no more tokens than this. */
  lemma TotalWork(m: Table, ts: seq<Token>, longest: nat)
    requires forall n :: n in m ==> |m[n]| <= longest
    ensures Work(m, ts) <= |ts| * Power(longest + 1, |m|)
  {
    forall u | u in ts
      ensures |Unhidden(m, u)| <= |m|
    {
      SubsetCard(Unhidden(m, u), m.Keys);
    }
    WorkListBound(m, ts, longest, |m|);
  }
}
