/** Laws of the output of the expansion loop, said of lists and not of its steps: what
    stands behind is expanded by itself, and a function-like macro puts out its body with
    the expanded arguments in place of the parameters. */
module MacroLaws {
  import opened Macros
  import opened MacroCalls
  import opened MacroRuns
  import opened MacroEnds

  // ---------------------------------------------------------------- the whole run, step by step

  lemma WholeNothing(ms: Definitions)
    ensures Whole(ms, []) == Ran(Run([], []))
  {
    assert RunOn(ms, [], 0) == Ran(Run([], []));
  }

  lemma WholeKept(ms: Definitions, ts: seq<Tagged>)
    requires ts != [] && Stays(ms, Plain(ts))
    ensures Whole(ms, ts) == Joined(Ran(Run([ts[0]], [])), Whole(ms, ts[1..]))
  {
    hide Stays, Plain, Whole, Joined;
    var k := WholeIs(ms, ts[1..]);
    assert RunOn(ms, ts, k + 1) == Joined(Ran(Run([ts[0]], [])), RunOn(ms, ts[1..], k));
    WholeFound(ms, ts, k + 1) by { NeverCut(Ran(Run([ts[0]], [])), Whole(ms, ts[1..])); }
  }

  lemma NeverCut(a: Result, b: Result)
    requires !a.Cut? && !b.Cut?
    ensures !Joined(a, b).Cut?
  {
  }

  lemma WholeFound(ms: Definitions, ts: seq<Tagged>, k: nat)
    requires !RunOn(ms, ts, k).Cut?
    ensures Whole(ms, ts) == RunOn(ms, ts, k)
  {
    hide RunOn;
  }

  /** So many steps are enough to replace the first macro. */
  lemma Enough(ms: Definitions, ts: seq<Tagged>) returns (k: nat)
    requires ts != [] && !Stays(ms, Plain(ts))
    ensures !Replaced(ms, ts, k).Cut?
  {
    hide Stays, Plain, Whole, Replaced;
    var n := WholeIs(ms, ts);
    assert !RunOn(ms, ts, n).Cut?;
    k := n - 1;
  }

  lemma WholeNext(ms: Definitions, ts: seq<Tagged>, k: nat)
    requires ts != [] && !Stays(ms, Plain(ts)) && !Replaced(ms, ts, k).Cut?
    ensures var next := Replaced(ms, ts, k);
            Whole(ms, ts) ==
              if next.Ran?
              then Joined(Ran(Run([], next.run.log + [Event(ts[0].tok.text, ts[0].from)])), Whole(ms, next.run.out))
              else next
  {
    hide Stays, Plain, Whole, Replaced, Joined;
    var next := Replaced(ms, ts, k);
    if next.Ran? {
      var j := WholeIs(ms, next.run.out);
      var most := if j < k then k else j;
      MoreReplaced(ms, ts, k, most);
      MoreSteps(ms, next.run.out, j, most);
      NeverCut(Ran(Run([], next.run.log + [Event(ts[0].tok.text, ts[0].from)])), Whole(ms, next.run.out));
      WholeFound(ms, ts, most + 1);
    } else {
      WholeFound(ms, ts, k + 1);
    }
  }

  lemma JoinedThree(a: Result, b: Result, c: Result)
    ensures Joined(Joined(a, b), c) == Joined(a, Joined(b, c))
  {
    if a.Ran? && b.Ran? && c.Ran? {
      assert a.run.out + b.run.out + c.run.out == a.run.out + (b.run.out + c.run.out);
      assert a.run.log + b.run.log + c.run.log == a.run.log + (b.run.log + c.run.log);
    }
  }

  // ---------------------------------------------------------------- what stands behind

  /** A list before which a function-like macro's name stays. */
  predicate NoParen(b: seq<Tagged>) {
    b == [] || !b[0].tok.kind.OpenParen?
  }

  lemma StaysBefore(ms: Definitions, a: seq<Tagged>, b: seq<Tagged>)
    requires a != [] && NoParen(b)
    ensures Stays(ms, Plain(a)) <==> Stays(ms, Plain(a + b))
  {
  }

  lemma PlacedBefore(list: seq<Token>, more: seq<Token>, args: seq<seq<Token>>)
    requires IsInvocation(list, args)
    ensures IsInvocation(list + more, args)
  {
    hide Total, Balanced;
    forall j: nat | j < |args|
      ensures Placed(list + more, args, j)
    {
      assert Placed(list, args, j);
    }
  }

  lemma ArgsBefore(a: seq<Tagged>, b: seq<Tagged>, args: seq<seq<Token>>)
    requires IsInvocation(Plain(a), args) && IsInvocation(Plain(a + b), args)
    ensures TaggedArgs(a + b, args) == TaggedArgs(a, args)
  {
    hide IsInvocation, Total;
    forall j | 0 <= j < |args|
      ensures TaggedArgs(a + b, args)[j] == TaggedArgs(a, args)[j]
    {
      ArgPlace(Plain(a), args, j);
      var start := 2 + Total(args[..j]);
      assert (a + b)[start..start + |args[j]|] == a[start..start + |args[j]|];
    }
  }

  lemma ReplacedBefore(ms: Definitions, a: seq<Tagged>, b: seq<Tagged>, k: nat)
    requires a != [] && NoParen(b) && !Stays(ms, Plain(a)) && Replaced(ms, a, k).Ran?
    ensures !Stays(ms, Plain(a + b))
    ensures Replaced(ms, a + b, k) == Ran(Run(Replaced(ms, a, k).run.out + b, Replaced(ms, a, k).run.log))
  {
    hide Substituted, IsInvocation, Total, Mark, Tag, Intersection, TaggedArgs, Stays;
    StaysBefore(ms, a, b);
    PlainJoin(a, b);
    assert (a + b)[0] == a[0];
    var t := a[0].tok;
    MacroFirst(ms, a);
    match ms[t.text]
    case Object(body) =>
      assert (a + b)[1..] == a[1..] + b;
      BehindMarked(Mark(Tag(body, {}), t.hide + [t.text], t.text), a[1..], b);
    case Invoked(params, body) =>
      var args := ArgsOf(Plain(a), |params|);
      var close := CloseOf(args);
      PlacedBefore(Plain(a), Plain(b), args);
      ArgumentsUnique(Plain(a + b), args, ArgsOf(Plain(a + b), |params|));
      ArgsBefore(a, b, args);
      CloseInside(a, args);
      assert (a + b)[close] == a[close] && (a + b)[close + 1..] == a[close + 1..] + b;
      var sub := Substituted(ms, params, TaggedArgs(a, args), body, k);
      var hs := Intersection(t.hide, a[close].tok.hide) + [t.text];
      BehindMarked(Mark(sub.run.out, hs, t.text), a[close + 1..], b);
  }

  lemma BehindMarked(x: seq<Tagged>, y: seq<Tagged>, z: seq<Tagged>)
    ensures x + (y + z) == x + y + z
  {
  }

  lemma MacroFirst(ms: Definitions, ts: seq<Tagged>)
    requires ts != [] && !Stays(ms, Plain(ts))
    ensures ts[0].tok.text in ms && Plain(ts)[0] == ts[0].tok
  {
  }

  /** The output for a list is that for its front, if that has one, and then that for the
      rest, unless the rest could give the front's last name its arguments. */
  lemma WholeBehind(ms: Definitions, a: seq<Tagged>, b: seq<Tagged>)
    requires Whole(ms, a).Ran? && NoParen(b)
    ensures Whole(ms, a + b) == Joined(Whole(ms, a), Whole(ms, b))
  {
    hide Whole, RunOn, NoParen;
    var k := WholeIs(ms, a);
    BehindSteps(ms, a, b, k);
  }

  lemma {:induction false} BehindSteps(ms: Definitions, a: seq<Tagged>, b: seq<Tagged>, k: nat)
    requires RunOn(ms, a, k).Ran? && NoParen(b)
    ensures Whole(ms, a + b) == Joined(Whole(ms, a), Whole(ms, b))
    decreases k
  {
    hide Whole, NoParen, Stays, Plain, Replaced;
    if a == [] {
      assert a + b == b;
      WholeNothing(ms);
      JoinedNothing(Whole(ms, b));
    } else {
      StaysBefore(ms, a, b);
      if Stays(ms, Plain(a)) {
        BehindSteps(ms, a[1..], b, k - 1);
        WholeKept(ms, a);
        WholeKept(ms, a + b);
        assert (a + b)[1..] == a[1..] + b;
        JoinedThree(Ran(Run([a[0]], [])), Whole(ms, a[1..]), Whole(ms, b));
      } else {
        var next := Replaced(ms, a, k - 1);
        BehindSteps(ms, next.run.out, b, k - 1);
        ReplacedBefore(ms, a, b, k - 1);
        WholeNext(ms, a, k - 1);
        WholeNext(ms, a + b, k - 1);
        var event := Event(a[0].tok.text, a[0].from);
        JoinedThree(Ran(Run([], next.run.log + [event])), Whole(ms, next.run.out), Whole(ms, b));
      }
    }
  }

  lemma JoinedNothing(r: Result)
    ensures Joined(Ran(Run([], [])), r) == r
  {
    if r.Ran? {
      assert [] + r.run.out == r.run.out && [] + r.run.log == r.run.log;
    }
  }

  // ---------------------------------------------------------------- lists without macros

  predicate NoMacros(ms: Definitions, ts: seq<Tagged>) {
    forall i :: 0 <= i < |ts| ==> !IsMacro(ms, ts[i].tok)
  }

  lemma {:induction false} WholeOfPlain(ms: Definitions, ts: seq<Tagged>)
    requires NoMacros(ms, ts)
    ensures Whole(ms, ts) == Ran(Run(ts, []))
  {
    hide Whole, IsMacro;
    if ts == [] {
      WholeNothing(ms);
    } else {
      WholeOfPlain(ms, ts[1..]);
      WholeKept(ms, ts);
      assert [ts[0]] + ts[1..] == ts;
    }
  }

  /** An invocation with text behind it that has no macros: that text follows the output. */
  lemma CallThenText(ms: Definitions, call: seq<Tagged>, rest: seq<Tagged>)
    requires Whole(ms, call).Ran? && NoMacros(ms, rest) && (rest == [] || !rest[0].tok.kind.OpenParen?)
    ensures Whole(ms, call + rest).Ran? && Whole(ms, call + rest).run.out == Whole(ms, call).run.out + rest
  {
    hide Whole, NoMacros;
    WholeBehind(ms, call, rest);
    WholeOfPlain(ms, rest);
  }

  // ---------------------------------------------------------------- an invocation

  function Texts(ts: seq<Tagged>): (r: seq<Name>)
    ensures |r| == |ts| && forall i :: 0 <= i < |r| ==> r[i] == ts[i].tok.text
  {
    seq(|ts|, i requires 0 <= i < |ts| => ts[i].tok.text)
  }

  /** The list is one invocation of the macro with these arguments, and nothing else. */
  ghost predicate IsCall(ms: Definitions, call: seq<Tagged>, params: seq<Name>, body: seq<Token>,
                         args: seq<seq<Token>>) {
    && |call| > 1 && call[0].tok.kind.Identifier? && call[0].tok.text !in call[0].tok.hide
    && call[0].tok.text in ms && ms[call[0].tok.text] == Invoked(params, body)
    && call[1].tok.kind.OpenParen?
    && |args| == |params| && IsInvocation(Plain(call), args) && CloseOf(args) == |call| - 1
  }

  /** The body with the parameters replaced by their expanded arguments. */
  ghost function Filled(ms: Definitions, params: seq<Name>, args: seq<seq<Tagged>>, body: seq<Token>): (r: Result)
    requires |args| == |params|
    ensures !r.Cut?
    ensures forall k: nat :: Substituted(ms, params, args, body, k) == r || Substituted(ms, params, args, body, k).Cut?
  {
    FilledEnds(ms, params, args, body);
    var enough: nat :| !Substituted(ms, params, args, body, enough).Cut?;
    var r := Substituted(ms, params, args, body, enough);
    assert forall k: nat ::
      Substituted(ms, params, args, body, k) == r || Substituted(ms, params, args, body, k).Cut? by {
      forall k: nat
        ensures Substituted(ms, params, args, body, k) == r || Substituted(ms, params, args, body, k).Cut?
      {
        if k >= enough {
          MoreSubstituted(ms, params, args, body, enough, k);
        } else if !Substituted(ms, params, args, body, k).Cut? {
          MoreSubstituted(ms, params, args, body, k, enough);
        }
      }
    }
    r
  }

  lemma FilledSteps(ms: Definitions, params: seq<Name>, args: seq<seq<Tagged>>, body: seq<Token>) returns (k: nat)
    requires |args| == |params|
    ensures !Substituted(ms, params, args, body, k).Cut?
  {
    hide Ends;
    forall j | 0 <= j < |args|
      ensures Ends(ms, args[j])
    {
      RunEnds(ms, args[j]);
    }
    k := EndsSubstituted(ms, params, args, body);
  }

  lemma FilledEnds(ms: Definitions, params: seq<Name>, args: seq<seq<Tagged>>, body: seq<Token>)
    requires |args| == |params|
    ensures exists k: nat :: !Substituted(ms, params, args, body, k).Cut?
  {
    var k := FilledSteps(ms, params, args, body);
  }

  lemma FilledIs(ms: Definitions, params: seq<Name>, args: seq<seq<Tagged>>, body: seq<Token>, k: nat)
    requires |args| == |params| && !Substituted(ms, params, args, body, k).Cut?
    ensures Filled(ms, params, args, body) == Substituted(ms, params, args, body, k)
  {
    hide Substituted;
  }

  lemma FilledNothing(ms: Definitions, params: seq<Name>, args: seq<seq<Tagged>>)
    requires |args| == |params|
    ensures Filled(ms, params, args, []) == Ran(Run([], []))
  {
    assert Substituted(ms, params, args, [], 0) == Ran(Run([], []));
  }

  /** A body is filled part by part ... */
  lemma {:induction false} FilledJoin(ms: Definitions, params: seq<Name>, args: seq<seq<Tagged>>, x: seq<Token>,
                                      y: seq<Token>)
    requires |args| == |params|
    ensures Filled(ms, params, args, x + y) == Joined(Filled(ms, params, args, x), Filled(ms, params, args, y))
    decreases |y|
  {
    hide Filled;
    if y == [] {
      assert x + y == x;
      FilledNothing(ms, params, args);
      NothingJoined(Filled(ms, params, args, x));
    } else {
      var front, last := y[..|y| - 1], y[|y| - 1];
      FilledJoin(ms, params, args, x, front);
      FilledLast(ms, params, args, x + front, last);
      FilledLast(ms, params, args, front, last);
      assert x + front + [last] == x + y && front + [last] == y;
      JoinedThree(Filled(ms, params, args, x), Filled(ms, params, args, front), Filled(ms, params, args, [last]));
    }
  }

  lemma NothingJoined(r: Result)
    ensures Joined(r, Ran(Run([], []))) == r
  {
    if r.Ran? {
      assert r.run.out + [] == r.run.out && r.run.log + [] == r.run.log;
    }
  }

  lemma FilledLast(ms: Definitions, params: seq<Name>, args: seq<seq<Tagged>>, x: seq<Token>, t: Token)
    requires |args| == |params|
    ensures Filled(ms, params, args, x + [t]) == Joined(Filled(ms, params, args, x), Filled(ms, params, args, [t]))
  {
    hide Filled, OneToken, Joined;
    var a := FilledSteps(ms, params, args, x + [t]);
    var b := FilledSteps(ms, params, args, x);
    var c := FilledSteps(ms, params, args, [t]);
    var k := a + b + c;
    MoreSubstituted(ms, params, args, x + [t], a, k);
    MoreSubstituted(ms, params, args, x, b, k);
    MoreSubstituted(ms, params, args, [t], c, k);
    FilledIs(ms, params, args, x + [t], k);
    FilledIs(ms, params, args, x, k);
    FilledIs(ms, params, args, [t], k);
    assert (x + [t])[..|x|] == x && [t][..0] == [];
    assert Substituted(ms, params, args, [], k) == Ran(Run([], []));
    JoinedNothing(OneToken(ms, params, args, t, k));
  }

  /** ... a parameter by its argument, expanded by itself, ... */
  lemma FilledParam(ms: Definitions, params: seq<Name>, args: seq<seq<Tagged>>, t: Token, j: nat)
    requires |args| == |params| && j < |params| && t.kind.Identifier? && t.text == params[j]
    requires forall i :: 0 <= i < j ==> params[i] != t.text
    ensures Filled(ms, params, args, [t]) == Whole(ms, args[j])
  {
    hide Filled, Whole, RunOn;
    var k := WholeIs(ms, args[j]);
    OneFilled(ms, params, args, t, k);
    assert IndexOf(params, t.text) == j;
  }

  /** ... and every other token by itself. */
  lemma FilledOther(ms: Definitions, params: seq<Name>, args: seq<seq<Tagged>>, t: Token)
    requires |args| == |params| && (!t.kind.Identifier? || t.text !in params)
    ensures Filled(ms, params, args, [t]) == Ran(Run([Tagged(t, {})], []))
  {
    hide Filled, RunOn;
    OneFilled(ms, params, args, t, 0);
    assert Tag([t], {}) == [Tagged(t, {})];
  }

  lemma OneFilled(ms: Definitions, params: seq<Name>, args: seq<seq<Tagged>>, t: Token, k: nat)
    requires |args| == |params|
    ensures !OneToken(ms, params, args, t, k).Cut? ==> Filled(ms, params, args, [t]) == OneToken(ms, params, args, t, k)
  {
    hide Filled, OneToken;
    assert [t][..0] == [];
    assert Substituted(ms, params, args, [], k) == Ran(Run([], []));
    JoinedNothing(OneToken(ms, params, args, t, k));
    assert Substituted(ms, params, args, [t], k) == OneToken(ms, params, args, t, k);
    if !OneToken(ms, params, args, t, k).Cut? {
      FilledIs(ms, params, args, [t], k);
    }
  }

  /** What an invocation puts out is what its filled body puts out when it is scanned again,
      with larger hide sets. */
  lemma CallIs(ms: Definitions, call: seq<Tagged>, params: seq<Name>, body: seq<Token>, args: seq<seq<Token>>)
    requires IsCall(ms, call, params, body, args)
    ensures var sub := Filled(ms, params, TaggedArgs(call, args), body);
            var hs := Intersection(call[0].tok.hide, call[|call| - 1].tok.hide) + [call[0].tok.text];
            if sub.Ran?
            then Output(Whole(ms, call)) == Output(Whole(ms, Mark(sub.run.out, hs, call[0].tok.text)))
            else Whole(ms, call) == Failed
  {
    hide Filled, Whole, IsInvocation, TaggedArgs, Mark, Intersection, Substituted, Total;
    var targs := TaggedArgs(call, args);
    var k := FilledSteps(ms, params, targs, body);
    FilledIs(ms, params, targs, body, k);
    CallReplaced(ms, call, params, body, args, k);
    WholeNext(ms, call, k);
    var next := Replaced(ms, call, k);
    if next.Ran? {
      OutputBehind(next.run.log + [Event(call[0].tok.text, call[0].from)], Whole(ms, next.run.out));
    }
  }

  lemma OutputBehind(log: seq<Event>, r: Result)
    ensures Output(Joined(Ran(Run([], log)), r)) == Output(r)
  {
    if r.Ran? {
      assert [] + r.run.out == r.run.out;
    }
  }

  lemma CallReplaced(ms: Definitions, call: seq<Tagged>, params: seq<Name>, body: seq<Token>, args: seq<seq<Token>>,
                     k: nat)
    requires IsCall(ms, call, params, body, args)
    requires !Substituted(ms, params, TaggedArgs(call, args), body, k).Cut?
    ensures !Stays(ms, Plain(call))
    ensures var sub := Substituted(ms, params, TaggedArgs(call, args), body, k);
            var hs := Intersection(call[0].tok.hide, call[|call| - 1].tok.hide) + [call[0].tok.text];
            Replaced(ms, call, k) ==
              if sub.Ran? then Ran(Run(Mark(sub.run.out, hs, call[0].tok.text), sub.run.log)) else Failed
  {
    hide IsInvocation, TaggedArgs, Mark, Intersection, Substituted, Total;
    assert HasInvocation(Plain(call), |params|);
    ArgumentsUnique(Plain(call), args, ArgsOf(Plain(call), |params|));
    assert call[|call|..] == [];
    var sub := Substituted(ms, params, TaggedArgs(call, args), body, k);
    if sub.Ran? {
      var hs := Intersection(call[0].tok.hide, call[|call| - 1].tok.hide) + [call[0].tok.text];
      assert Mark(sub.run.out, hs, call[0].tok.text) + [] == Mark(sub.run.out, hs, call[0].tok.text);
    }
  }

  /** If nothing in the filled body is a macro, its texts are put out. */
  lemma CallTexts(ms: Definitions, call: seq<Tagged>, params: seq<Name>, body: seq<Token>, args: seq<seq<Token>>)
    requires IsCall(ms, call, params, body, args)
    requires Filled(ms, params, TaggedArgs(call, args), body).Ran?
    requires NoMacros(ms, Filled(ms, params, TaggedArgs(call, args), body).run.out)
    ensures Whole(ms, call).Ran?
    ensures Texts(Whole(ms, call).run.out) == Texts(Filled(ms, params, TaggedArgs(call, args), body).run.out)
  {
    hide Filled, Whole, IsInvocation, TaggedArgs, Intersection, Total;
    CallIs(ms, call, params, body, args);
    var out := Filled(ms, params, TaggedArgs(call, args), body).run.out;
    var hs := Intersection(call[0].tok.hide, call[|call| - 1].tok.hide) + [call[0].tok.text];
    var marked := Mark(out, hs, call[0].tok.text);
    WholeOfPlain(ms, marked);
    forall i | 0 <= i < |out|
      ensures Plain(Whole(ms, call).run.out)[i].text == out[i].tok.text
    {
    }
  }

  /** A macro whose body is its one parameter puts out the expanded argument's texts, if no
      macro's name is left in that. */
  lemma IdentityMacro(ms: Definitions, call: seq<Tagged>, p: Token)
    requires p.kind.Identifier? && |call| > 2 && call[0].tok.kind.Identifier? && call[1].tok.kind.OpenParen?
    requires call[0].tok.text in ms && ms[call[0].tok.text] == Invoked([p.text], [p])
    requires call[0].tok.text !in call[0].tok.hide
    requires IsInvocation(Plain(call), [Plain(call)[2..|call| - 1]])
    requires Whole(ms, call[2..|call| - 1]).Ran? && NoMacros(ms, Whole(ms, call[2..|call| - 1]).run.out)
    ensures Whole(ms, call).Ran?
    ensures Texts(Whole(ms, call).run.out) == Texts(Whole(ms, call[2..|call| - 1]).run.out)
  {
    hide Filled, Whole, NoMacros;
    var args := [Plain(call)[2..|call| - 1]];
    assert args[..0] == [];
    assert TaggedArgs(call, args)[0] == call[2..|call| - 1];
    assert args[..|args| - 1] == [];
    FilledParam(ms, [p.text], TaggedArgs(call, args), p, 0);
    CallTexts(ms, call, [p.text], [p], args);
  }

  /** A macro whose body has no parameters and no macros puts out its body. */
  lemma ConstantMacro(ms: Definitions, call: seq<Tagged>, params: seq<Name>, body: seq<Token>, args: seq<seq<Token>>)
    requires IsCall(ms, call, params, body, args)
    requires forall t :: t in body ==> (!t.kind.Identifier? || t.text !in params) && !IsMacro(ms, t)
    ensures Whole(ms, call).Ran? && Texts(Whole(ms, call).run.out) == Texts(Tag(body, {}))
  {
    hide Filled, Whole, IsInvocation, TaggedArgs;
    FilledConstant(ms, params, TaggedArgs(call, args), body);
    CallTexts(ms, call, params, body, args);
  }

  lemma {:induction false} FilledConstant(ms: Definitions, params: seq<Name>, args: seq<seq<Tagged>>, body: seq<Token>)
    requires |args| == |params| && forall t :: t in body ==> !t.kind.Identifier? || t.text !in params
    ensures Filled(ms, params, args, body) == Ran(Run(Tag(body, {}), []))
    decreases |body|
  {
    hide Filled;
    if body == [] {
      FilledNothing(ms, params, args);
    } else {
      var front, last := body[..|body| - 1], body[|body| - 1];
      FilledConstant(ms, params, args, front);
      FilledOther(ms, params, args, last);
      FilledJoin(ms, params, args, front, [last]);
      assert front + [last] == body;
      assert Tag(front, {}) + [Tagged(last, {})] == Tag(body, {});
    }
  }

  // ---------------------------------------------------------------- object-like macros

  /** The name of an object-like macro is replaced by the body, whose tokens hide the macro
      and what the name hid. */
  lemma ObjectIs(ms: Definitions, t: Tagged, body: seq<Token>)
    requires t.tok.kind.Identifier? && t.tok.text !in t.tok.hide
    requires t.tok.text in ms && ms[t.tok.text] == Object(body)
    ensures Output(Whole(ms, [t])) ==
              Output(Whole(ms, Mark(Tag(body, {}), t.tok.hide + [t.tok.text], t.tok.text)))
  {
    hide Whole, Mark, Tag;
    var marked := Mark(Tag(body, {}), t.tok.hide + [t.tok.text], t.tok.text);
    assert Plain([t])[0] == t.tok;
    assert !Stays(ms, Plain([t]));
    assert [t][1..] == [];
    assert marked + [] == marked;
    assert Replaced(ms, [t], 0) == Ran(Run(marked, []));
    WholeNext(ms, [t], 0);
    OutputBehind([Event(t.tok.text, t.from)], Whole(ms, marked));
  }

  /** If the body has no macros, that is its texts. */
  lemma ObjectTexts(ms: Definitions, t: Tagged, body: seq<Token>)
    requires t.tok.kind.Identifier? && t.tok.text !in t.tok.hide
    requires t.tok.text in ms && ms[t.tok.text] == Object(body) && forall u :: u in body ==> !IsMacro(ms, u)
    ensures Whole(ms, [t]).Ran? && Texts(Whole(ms, [t]).run.out) == Texts(Tag(body, {}))
  {
    hide Whole;
    ObjectIs(ms, t, body);
    var marked := Mark(Tag(body, {}), t.tok.hide + [t.tok.text], t.tok.text);
    forall i | 0 <= i < |marked|
      ensures !IsMacro(ms, marked[i].tok)
    {
      assert !IsMacro(ms, body[i]);
    }
    WholeOfPlain(ms, marked);
    var out := Whole(ms, [t]).run.out;
    assert Plain(out) == Plain(marked);
    forall i | 0 <= i < |body|
      ensures Plain(out)[i].text == body[i].text
    {
    }
  }

  // ---------------------------------------------------------------- what is not replaced

  /** A token that is no macro's name, or hides it, is put out, and so is the name of a
      function-like macro without a parenthesis behind it. */
  lemma TokenStays(ms: Definitions, t: Tagged, rest: seq<Tagged>)
    requires !t.tok.kind.Identifier? || t.tok.text in t.tok.hide || t.tok.text !in ms ||
               (ms[t.tok.text].Invoked? && (rest == [] || !rest[0].tok.kind.OpenParen?))
    ensures Whole(ms, [t] + rest) == Joined(Ran(Run([t], [])), Whole(ms, rest))
  {
    hide Whole;
    var ts := [t] + rest;
    assert Plain(ts)[0] == t.tok && (rest != [] ==> Plain(ts)[1] == rest[0].tok);
    assert Stays(ms, Plain(ts));
    WholeKept(ms, ts);
    assert ts[1..] == rest;
  }

  /** An invocation without the right arguments is an error. */
  lemma BadCall(ms: Definitions, ts: seq<Tagged>)
    requires |ts| > 1 && ts[0].tok.kind.Identifier? && ts[0].tok.text !in ts[0].tok.hide && ts[0].tok.text in ms
    requires ms[ts[0].tok.text].Invoked? && ts[1].tok.kind.OpenParen?
    requires !HasInvocation(Plain(ts), |ms[ts[0].tok.text].params|)
    ensures Whole(ms, ts) == Failed
  {
    hide Whole, HasInvocation;
    assert Plain(ts)[0] == ts[0].tok && Plain(ts)[1] == ts[1].tok;
    assert !Stays(ms, Plain(ts));
    assert Replaced(ms, ts, 0) == Failed;
    WholeNext(ms, ts, 0);
  }
}
