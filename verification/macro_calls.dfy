/** Invocations of function-like macros: reading the arguments and the hide set of the
    result. */
module MacroCalls {
  import opened Options
  import opened Macros

  // ---------------------------------------------------------------- arguments

  /** Open minus closed parentheses among the first n tokens. */
  function Level(ts: seq<Token>, n: nat): int
    requires n <= |ts|
  {
    if n == 0 then 0
    else Level(ts, n - 1) + (match ts[n - 1].kind case OpenParen => 1 case CloseParen => -1 case _ => 0)
  }

  function Opens(ts: seq<Token>, n: nat): set<int>
    requires n <= |ts|
  {
    set i | 0 <= i < n && ts[i].kind.OpenParen?
  }

  function Closes(ts: seq<Token>, n: nat): set<int>
    requires n <= |ts|
  {
    set i | 0 <= i < n && ts[i].kind.CloseParen?
  }

  /** The level is the number of opening less that of closing parentheses. */
  lemma {:induction false} LevelIs(ts: seq<Token>, n: nat)
    requires n <= |ts|
    ensures Level(ts, n) ==
              |set i | 0 <= i < n && ts[i].kind.OpenParen?| - |set i | 0 <= i < n && ts[i].kind.CloseParen?|
  {
    if n > 0 {
      LevelIs(ts, n - 1);
      assert Opens(ts, n) == if ts[n - 1].kind.OpenParen? then Opens(ts, n - 1) + {n - 1} else Opens(ts, n - 1);
      assert Closes(ts, n) == if ts[n - 1].kind.CloseParen? then Closes(ts, n - 1) + {n - 1} else Closes(ts, n - 1);
    }
  }

  /** The argument that begins with ts ends before token n: there, outside of inner
      parentheses, comes a comma or the closing parenthesis. */
  predicate EndsAt(ts: seq<Token>, n: nat) {
    n < |ts| && Level(ts, n) == 0 && (ts[n].kind.CloseParen? || ts[n].kind.Comma?)
  }

  ghost predicate SomewhereEnds(ts: seq<Token>) {
    exists n: nat :: EndsAt(ts, n)
  }

  predicate IsArgument(ts: seq<Token>, n: nat) {
    EndsAt(ts, n) && forall k :: 0 <= k < n ==> !EndsAt(ts, k)
  }

  /** Reads one argument from place `start`: its tokens and the place behind it. */
  method ReadMacroArg(list: seq<Token>, start: nat) returns (arg: Option<seq<Token>>, end: nat)
    requires start <= |list|
    ensures arg.Some? ==>
              start <= end < |list| && arg.value == list[start..end] && IsArgument(list[start..], end - start)
    ensures arg.None? ==> !SomewhereEnds(list[start..])
  {
    var ts := list[start..];
    var level := 0;
    var tokens: seq<Token> := [];
    end := start;
    while end < |list|
      invariant start <= end <= |list| && tokens == list[start..end]
      invariant level == Level(ts, end - start)
      invariant forall k :: 0 <= k < end - start ==> !EndsAt(ts, k)
    {
      var tok := list[end];
      assert tok == ts[end - start];
      if level == 0 && (tok.kind.CloseParen? || tok.kind.Comma?) {
        return Some(tokens), end;
      }
      if tok.kind.OpenParen? {
        level := level + 1;
      } else if tok.kind.CloseParen? {
        level := level - 1;
      }
      tokens := tokens + [tok];
      end := end + 1;
    }
    arg := None;
  }

  /** Parentheses inside an argument match, and no comma or closing parenthesis of it is
      outside of inner ones. */
  ghost predicate Balanced(arg: seq<Token>) {
    && Level(arg, |arg|) == 0
    && forall k :: 0 <= k < |arg| ==> !EndsAt(arg, k)
  }

  lemma {:induction false} LevelPrefix(a: seq<Token>, b: seq<Token>, n: nat)
    requires n <= |a| <= |b| && a == b[..|a|]
    ensures Level(a, n) == Level(b, n)
  {
    if n > 0 {
      LevelPrefix(a, b, n - 1);
    }
  }

  lemma ArgumentBalanced(ts: seq<Token>, n: nat)
    requires IsArgument(ts, n)
    ensures Balanced(ts[..n])
  {
    LevelPrefix(ts[..n], ts, n);
    forall k | 0 <= k < n
      ensures !EndsAt(ts[..n], k)
    {
      LevelPrefix(ts[..n], ts, k);
      assert !EndsAt(ts, k);
    }
  }

  /** Arguments and the separators behind them. */
  function Total(args: seq<seq<Token>>): nat {
    if args == [] then 0 else Total(args[..|args| - 1]) + |args[|args| - 1]| + 1
  }

  /** Argument j stands at its place in `name ( a0 , a1 , ... )`, with a comma behind it
      unless it is the last one. */
  ghost predicate Placed(list: seq<Token>, args: seq<seq<Token>>, j: nat)
    requires j < |args|
  {
    var end := 2 + Total(args[..j]) + |args[j]|;
    && end < |list| && list[end - |args[j]|..end] == args[j]
    && Balanced(args[j])
    && (j < |args| - 1 ==> list[end].kind.Comma?)
  }

  function CloseOf(args: seq<seq<Token>>): nat {
    if args == [] then 2 else 1 + Total(args)
  }

  /** The list begins with an invocation that has these arguments. */
  ghost predicate IsInvocation(list: seq<Token>, args: seq<seq<Token>>) {
    && (forall j: nat :: j < |args| ==> Placed(list, args, j))
    && CloseOf(args) < |list| && list[CloseOf(args)].kind.CloseParen?
  }

  /** Behind a placed argument there is a comma or, after the last one, the closing
      parenthesis. */
  lemma EndsThere(list: seq<Token>, args: seq<seq<Token>>, j: nat)
    requires IsInvocation(list, args) && j < |args|
    ensures Placed(list, args, j) && 2 + Total(args[..j]) <= |list|
    ensures IsArgument(list[2 + Total(args[..j])..], |args[j]|)
  {
    var start, n := 2 + Total(args[..j]), |args[j]|;
    assert Placed(list, args, j);
    assert args[..j + 1][..j] == args[..j];
    assert j == |args| - 1 ==> args[..j + 1] == args;
    var ts := list[start..];
    assert ts[..n] == args[j];
    LevelPrefix(args[j], ts, n);
    forall k | 0 <= k < n
      ensures !EndsAt(ts, k)
    {
      LevelPrefix(args[j], ts, k);
      assert !EndsAt(args[j], k);
      assert args[j][k] == ts[k];
    }
  }

  /** An argument ends at one place only. */
  lemma OneEnd(ts: seq<Token>, m: nat, n: nat)
    requires IsArgument(ts, m) && IsArgument(ts, n)
    ensures m == n
  {
  }

  /** The arguments read so far are those of every invocation the list begins with. */
  ghost predicate BeginsAll(list: seq<Token>, args: seq<seq<Token>>, numParams: nat) {
    forall all: seq<seq<Token>> :: |all| == numParams && IsInvocation(list, all) && |args| <= numParams ==>
      all[..|args|] == args
  }

  lemma BeginsMore(list: seq<Token>, args: seq<seq<Token>>, numParams: nat, arg: seq<Token>)
    requires BeginsAll(list, args, numParams) && |args| < numParams && 2 + Total(args) <= |list|
    requires IsArgument(list[2 + Total(args)..], |arg|) && |arg| <= |list| - (2 + Total(args)) &&
               list[2 + Total(args)..][..|arg|] == arg
    ensures BeginsAll(list, args + [arg], numParams)
  {
    hide Total, IsArgument, IsInvocation, Balanced;
    forall all: seq<seq<Token>> | |all| == numParams && IsInvocation(list, all)
      ensures all[..|args| + 1] == args + [arg]
    {
      BeginsOne(list, args, numParams, all);
      hide BeginsAll;
      NextIs(list, args, all, arg);
      OneLonger(all, args, arg);
    }
  }

  lemma BeginsOne(list: seq<Token>, args: seq<seq<Token>>, numParams: nat, all: seq<seq<Token>>)
    requires BeginsAll(list, args, numParams) && |args| <= |all| == numParams && IsInvocation(list, all)
    ensures all[..|args|] == args
  {
    hide IsInvocation;
  }

  lemma OneLonger(all: seq<seq<Token>>, args: seq<seq<Token>>, arg: seq<Token>)
    requires |args| < |all| && all[..|args|] == args && all[|args|] == arg
    ensures all[..|args| + 1] == args + [arg]
  {
  }

  lemma NextIs(list: seq<Token>, args: seq<seq<Token>>, all: seq<seq<Token>>, arg: seq<Token>)
    requires IsInvocation(list, all) && |args| < |all| && all[..|args|] == args && 2 + Total(args) <= |list|
    requires IsArgument(list[2 + Total(args)..], |arg|) && |arg| <= |list| - (2 + Total(args)) &&
               list[2 + Total(args)..][..|arg|] == arg
    ensures all[|args|] == arg
  {
    hide Total, IsArgument, IsInvocation, Balanced;
    EndsThere(list, all, |args|);
    OneEnd(list[2 + Total(args)..], |arg|, |all[|args|]|);
  }

  lemma TotalAppend(args: seq<seq<Token>>, arg: seq<Token>)
    ensures Total(args + [arg]) == Total(args) + |arg| + 1
  {
    assert (args + [arg])[..|args|] == args;
  }

  lemma LastTotal(args: seq<seq<Token>>)
    requires args != []
    ensures var last := |args| - 1;
              Total(args) == Total(args[..last]) + |args[last]| + 1 &&
              CloseOf(args) == 2 + Total(args[..last]) + |args[last]|
  {
  }

  /** All arguments but the last have their comma. */
  ghost predicate Reading(list: seq<Token>, args: seq<seq<Token>>) {
    forall j: nat :: j < |args| ==> Placed(list, args, j)
  }

  lemma ReadMore(list: seq<Token>, args: seq<seq<Token>>, arg: seq<Token>, end: nat)
    requires Reading(list, args) && Balanced(arg)
    requires args != [] ==> CloseOf(args) < |list| && list[CloseOf(args)].kind.Comma?
    requires end == 2 + Total(args) + |arg| < |list| && list[end - |arg|..end] == arg
    ensures Reading(list, args + [arg])
  {
    hide Balanced, Total, Placed;
    var more := args + [arg];
    forall j: nat | j < |more|
      ensures Placed(list, more, j)
    {
      if j < |args| {
        PlacedMore(list, args, arg, j);
      } else {
        PlacedLast(list, args, arg, end);
      }
    }
  }

  lemma PlacedMore(list: seq<Token>, args: seq<seq<Token>>, arg: seq<Token>, j: nat)
    requires j < |args| && Placed(list, args, j)
    requires CloseOf(args) < |list| && list[CloseOf(args)].kind.Comma?
    ensures Placed(list, args + [arg], j)
  {
    hide Balanced, Total;
    assert (args + [arg])[..j] == args[..j];
    if j == |args| - 1 {
      LastTotal(args);
    }
  }

  lemma PlacedLast(list: seq<Token>, args: seq<seq<Token>>, arg: seq<Token>, end: nat)
    requires Balanced(arg) && end == 2 + Total(args) + |arg| < |list| && list[end - |arg|..end] == arg
    ensures Placed(list, args + [arg], |args|)
  {
    hide Balanced, Total;
    assert (args + [arg])[..|args|] == args;
  }

  /** Some invocation with this many arguments. */
  ghost predicate HasInvocation(list: seq<Token>, numParams: nat) {
    exists all: seq<seq<Token>> :: |all| == numParams && IsInvocation(list, all)
  }

  /** The next argument of an invocation ends somewhere. */
  lemma MustEnd(list: seq<Token>, args: seq<seq<Token>>, numParams: nat)
    requires BeginsAll(list, args, numParams) && |args| < numParams && HasInvocation(list, numParams)
    ensures 2 + Total(args) <= |list| && SomewhereEnds(list[2 + Total(args)..])
    ensures args != [] ==> CloseOf(args) < |list| && list[CloseOf(args)].kind.Comma?
  {
    hide Total, IsInvocation, SomewhereEnds;
    var all: seq<seq<Token>> :| |all| == numParams && IsInvocation(list, all);
    assert all[..|args|] == args;
    EndsNext(list, args, all);
    if args != [] {
      CommaAfter(list, args, all);
    }
  }

  lemma EndsNext(list: seq<Token>, args: seq<seq<Token>>, all: seq<seq<Token>>)
    requires IsInvocation(list, all) && |args| < |all| && all[..|args|] == args
    ensures 2 + Total(args) <= |list| && SomewhereEnds(list[2 + Total(args)..])
  {
    hide Total, IsInvocation, Balanced, Level, Placed;
    EndsThere(list, all, |args|);
  }

  lemma CommaAfter(list: seq<Token>, args: seq<seq<Token>>, all: seq<seq<Token>>)
    requires IsInvocation(list, all) && 0 < |args| < |all| && all[..|args|] == args
    ensures CloseOf(args) < |list| && list[CloseOf(args)].kind.Comma?
  {
    hide Total, Balanced;
    var j := |args| - 1;
    assert Placed(list, all, j);
    assert all[..j] == args[..j] && all[j] == args[j];
    LastTotal(args);
  }

  /** Reads one argument per parameter of an invocation `name ( ... )` at the front of
      the list.  It succeeds exactly if the list begins with an invocation that has that
      many arguments, and then these are its arguments: no token is lost or added. */
  method ReadMacroArgs(list: seq<Token>, numParams: nat) returns (ok: bool, args: seq<seq<Token>>, close: nat)
    requires |list| >= 2 && list[1].kind.OpenParen?
    ensures ok <==> HasInvocation(list, numParams)
    ensures ok ==> |args| == numParams && IsInvocation(list, args) && close == CloseOf(args)
  {
    hide Placed, IsInvocation, Balanced, Total;
    args := [];
    close := 2;
    assert Total([]) == 0 by { TotalNone(); }
    while |args| < numParams
      invariant |args| <= numParams && close == CloseOf(args) <= |list| && (args != [] ==> close < |list|)
      invariant Reading(list, args) && BeginsAll(list, args, numParams)
      decreases numParams - |args|
    {
      var start := close;
      if args != [] {
        if !list[close].kind.Comma? {
          assert !HasInvocation(list, numParams) by { NoMore(list, args, numParams); }
          return false, args, close;
        }
        start := close + 1;
      }
      assert start == 2 + Total(args);
      var arg, end := ReadMacroArg(list, start);
      if arg.None? {
        assert !HasInvocation(list, numParams) by { NeverEnds(list, args, numParams); }
        return false, args, close;
      }
      ArgumentBalanced(list[start..], end - start);
      assert list[start..][..end - start] == arg.value;
      ReadMore(list, args, arg.value, end);
      BeginsMore(list, args, numParams, arg.value);
      TotalAppend(args, arg.value);
      args := args + [arg.value];
      close := end;
    }
    ok := close < |list| && list[close].kind.CloseParen?;
    ReadAll(list, args, numParams);
  }

  lemma TotalNone()
    ensures Total([]) == 0
  {
  }

  lemma NoMore(list: seq<Token>, args: seq<seq<Token>>, numParams: nat)
    requires BeginsAll(list, args, numParams) && 0 < |args| < numParams
    requires CloseOf(args) < |list| && !list[CloseOf(args)].kind.Comma?
    ensures !HasInvocation(list, numParams)
  {
    hide IsInvocation, Total;
    if HasInvocation(list, numParams) {
      MustEnd(list, args, numParams);
      assert false;
    }
  }

  lemma NeverEnds(list: seq<Token>, args: seq<seq<Token>>, numParams: nat)
    requires BeginsAll(list, args, numParams) && |args| < numParams && 2 + Total(args) <= |list|
    requires !SomewhereEnds(list[2 + Total(args)..])
    ensures !HasInvocation(list, numParams)
  {
    hide IsInvocation, Total;
    if HasInvocation(list, numParams) {
      MustEnd(list, args, numParams);
      assert false;
    }
  }

  lemma ReadAll(list: seq<Token>, args: seq<seq<Token>>, numParams: nat)
    requires Reading(list, args) && BeginsAll(list, args, numParams) && |args| == numParams
    ensures HasInvocation(list, numParams) <==> CloseOf(args) < |list| && list[CloseOf(args)].kind.CloseParen?
    ensures HasInvocation(list, numParams) ==> IsInvocation(list, args)
  {
    hide Placed, Total;
    if HasInvocation(list, numParams) {
      var all: seq<seq<Token>> :| |all| == numParams && IsInvocation(list, all);
      assert all[..|args|] == args;
      assert all == args;
    }
  }

  /** There is at most one way to read the arguments. */
  lemma ArgumentsUnique(list: seq<Token>, a: seq<seq<Token>>, b: seq<seq<Token>>)
    requires IsInvocation(list, a) && IsInvocation(list, b) && |a| == |b|
    ensures a == b
  {
    var k := 0;
    while k < |a|
      invariant k <= |a| && a[..k] == b[..k]
    {
      EndsThere(list, a, k);
      EndsThere(list, b, k);
      OneEnd(list[2 + Total(a[..k])..], |a[k]|, |b[k]|);
      assert Placed(list, a, k) && Placed(list, b, k);
      k := k + 1;
    }
  }

  // ---------------------------------------------------------------- hide sets

  function Intersection(a: seq<Name>, b: seq<Name>): seq<Name> {
    if a == [] then []
    else if a[0] in b then [a[0]] + Intersection(a[1..], b)
    else Intersection(a[1..], b)
  }

  lemma {:induction false} IntersectionIs(a: seq<Name>, b: seq<Name>)
    ensures forall n :: n in Intersection(a, b) <==> n in a && n in b
  {
    if a != [] {
      IntersectionIs(a[1..], b);
    }
  }

  method HideSetIntersection(a: seq<Name>, b: seq<Name>) returns (r: seq<Name>)
    ensures r == Intersection(a, b)
  {
    r := [];
    for i := 0 to |a|
      invariant r + Intersection(a[i..], b) == Intersection(a, b)
    {
      assert a[i..][1..] == a[i + 1..];
      if a[i] in b {
        r := r + [a[i]];
      }
    }
  }

  /** The replacement of an invocation whose name has hide set `hide` and whose closing
      parenthesis has hide set `close`.  `body` is the macro's body after substitution
      of the arguments. */
  method ExpandInvocation(name: Token, close: Token, body: seq<Token>, rest: seq<Token>) returns (list: seq<Token>)
    requires name.text !in name.hide
    ensures |list| == |body| + |rest| && list[|body|..] == rest
    ensures forall i, n :: 0 <= i < |body| ==>
              (n in list[i].hide <==> n in body[i].hide || n == name.text || (n in name.hide && n in close.hide))
    ensures forall i :: 0 <= i < |body| ==> list[i].text == body[i].text && list[i].kind == body[i].kind
    ensures forall m: Table, i :: 0 <= i < |body| && list[i].text == name.text ==> !Expands(m, list[i])
  {
    var hs := HideSetIntersection(name.hide, close.hide);
    IntersectionIs(name.hide, close.hide);
    hs := hs + [name.text];
    var hidden := AddHideSet(body, hs);
    list := hidden + rest;
  }
}
