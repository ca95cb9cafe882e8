/** The whole expansion loop with object-like and function-like macros: arguments are
    expanded first and then substituted, and the result is scanned again.  The definition
    of a run cuts it off after a number of steps; MacroEnds shows that every run ends.
    Tokens carry the macros they came out of, which the run does not look at. */
module MacroRuns {
  import opened Options
  import opened Macros
  import opened MacroCalls

  datatype Macro = Object(body: seq<Token>) | Invoked(params: seq<Name>, body: seq<Token>)

  type Definitions = map<Name, Macro>

  /** `from` are the macros out of whose expansion the token came, itself or as part of an
      argument. */
  datatype Tagged = Tagged(tok: Token, from: set<Name>)

  /** An expansion of a macro, and where the macro's name had come from. */
  datatype Event = Event(name: Name, from: set<Name>)

  datatype Run = Run(out: seq<Tagged>, log: seq<Event>)

  /** A run fails at an invocation that has not the right arguments. */
  datatype Result = Ran(run: Run) | Failed | Cut

  function Joined(a: Result, b: Result): Result {
    if a.Cut? || b.Cut? then Cut
    else if a.Failed? || b.Failed? then Failed
    else Ran(Run(a.run.out + b.run.out, a.run.log + b.run.log))
  }

  function Plain(ts: seq<Tagged>): (r: seq<Token>)
    ensures |r| == |ts|
  {
    seq(|ts|, i requires 0 <= i < |ts| => ts[i].tok)
  }

  function Tag(ts: seq<Token>, from: set<Name>): (r: seq<Tagged>)
    ensures |r| == |ts|
  {
    seq(|ts|, i requires 0 <= i < |ts| => Tagged(ts[i], from))
  }

  /** What has come out of an expansion of `name`. */
  function Mark(ts: seq<Tagged>, hs: seq<Name>, name: Name): (r: seq<Tagged>)
    ensures |r| == |ts|
  {
    seq(|ts|, i requires 0 <= i < |ts| => Tagged(ts[i].tok.(hide := ts[i].tok.hide + hs), ts[i].from + {name}))
  }

  predicate IsMacro(ms: Definitions, t: Token) {
    t.text !in t.hide && t.kind.Identifier? && t.text in ms
  }

  /** A function-like macro's name without a parenthesis behind it stays. */
  predicate Stays(ms: Definitions, list: seq<Token>)
    requires list != []
  {
    !IsMacro(ms, list[0]) || (ms[list[0].text].Invoked? && !(|list| > 1 && list[1].kind.OpenParen?))
  }

  ghost function ArgsOf(list: seq<Token>, numParams: nat): (args: seq<seq<Token>>)
    requires HasInvocation(list, numParams)
    ensures |args| == numParams && IsInvocation(list, args)
  {
    var args: seq<seq<Token>> :| |args| == numParams && IsInvocation(list, args);
    args
  }

  lemma ArgPlace(list: seq<Token>, args: seq<seq<Token>>, j: nat)
    requires IsInvocation(list, args) && j < |args|
    ensures 2 + Total(args[..j]) + |args[j]| < |list|
    ensures list[2 + Total(args[..j])..2 + Total(args[..j]) + |args[j]|] == args[j]
  {
    assert Placed(list, args, j);
  }

  /** The tokens of argument j with their tags. */
  ghost function TaggedArg(ts: seq<Tagged>, args: seq<seq<Token>>, j: nat): (arg: seq<Tagged>)
    requires IsInvocation(Plain(ts), args) && j < |args|
    ensures Plain(arg) == args[j]
    ensures forall t :: t in arg ==> t in ts
  {
    ArgPlace(Plain(ts), args, j);
    var start := 2 + Total(args[..j]);
    assert Plain(ts[start..start + |args[j]|]) == Plain(ts)[start..start + |args[j]|];
    ts[start..start + |args[j]|]
  }

  ghost function TaggedArgs(ts: seq<Tagged>, args: seq<seq<Token>>): (r: seq<seq<Tagged>>)
    requires IsInvocation(Plain(ts), args)
    ensures |r| == |args| && forall j :: 0 <= j < |r| ==> Plain(r[j]) == args[j] && forall t :: t in r[j] ==> t in ts
  {
    seq(|args|, j requires 0 <= j < |args| => TaggedArg(ts, args, j))
  }

  function IndexOf(params: seq<Name>, name: Name): (j: nat)
    ensures j <= |params| && (j < |params| ==> params[j] == name) && forall i :: 0 <= i < j ==> params[i] != name
  {
    if params == [] || params[0] == name then 0 else 1 + IndexOf(params[1..], name)
  }

  /** The run on a list of tokens, cut off after so many steps. */
  ghost function RunOn(ms: Definitions, ts: seq<Tagged>, steps: nat): Result
    decreases steps, 0
  {
    if ts == [] then Ran(Run([], []))
    else if steps == 0 then Cut
    else if Stays(ms, Plain(ts)) then Joined(Ran(Run([ts[0]], [])), RunOn(ms, ts[1..], steps - 1))
    else
      var next := Replaced(ms, ts, steps - 1);
      if !next.Ran? then next
      else
        var event := Event(ts[0].tok.text, ts[0].from);
        Joined(Ran(Run([], next.run.log + [event])), RunOn(ms, next.run.out, steps - 1))
  }

  /** The list with its first macro replaced. */
  ghost function Replaced(ms: Definitions, ts: seq<Tagged>, steps: nat): Result
    requires ts != [] && !Stays(ms, Plain(ts))
    decreases steps, |BodyOf(ms, ts)| + 2
  {
    var t := ts[0].tok;
    match ms[t.text]
    case Object(body) => Ran(Run(Mark(Tag(body, {}), t.hide + [t.text], t.text) + ts[1..], []))
    case Invoked(params, body) =>
      if !HasInvocation(Plain(ts), |params|) then Failed
      else
        var args := ArgsOf(Plain(ts), |params|);
        var close := CloseOf(args);
        var sub := Substituted(ms, params, TaggedArgs(ts, args), body, steps);
        if !sub.Ran? then sub
        else
          var hs := Intersection(t.hide, ts[close].tok.hide) + [t.text];
          Ran(Run(Mark(sub.run.out, hs, t.text) + ts[close + 1..], sub.run.log))
  }

  ghost function BodyOf(ms: Definitions, ts: seq<Tagged>): seq<Token>
    requires ts != [] && !Stays(ms, Plain(ts))
  {
    ms[ts[0].tok.text].body
  }

  /** The body with every parameter replaced by its expanded argument. */
  ghost function Substituted(ms: Definitions, params: seq<Name>, args: seq<seq<Tagged>>, body: seq<Token>,
                             steps: nat): Result
    requires |args| == |params|
    decreases steps, |body| + 1
  {
    if body == [] then Ran(Run([], []))
    else
      var last := body[|body| - 1];
      Joined(Substituted(ms, params, args, body[..|body| - 1], steps), OneToken(ms, params, args, last, steps))
  }

  ghost function OneToken(ms: Definitions, params: seq<Name>, args: seq<seq<Tagged>>, t: Token, steps: nat): Result
    requires |args| == |params|
    decreases steps, 1
  {
    var j := IndexOf(params, t.text);
    if t.kind.Identifier? && j < |params| then RunOn(ms, args[j], steps) else Ran(Run(Tag([t], {}), []))
  }

  // ---------------------------------------------------------------- what every run keeps

  /** A token hides every macro it came out of. */
  ghost predicate HidesOrigins(ts: seq<Tagged>) {
    forall t, n :: t in ts && n in t.from ==> n in t.tok.hide
  }

  /** No macro is expanded in a token that came out of it. */
  ghost predicate NeverAgain(log: seq<Event>) {
    forall e :: e in log ==> e.name !in e.from
  }

  ghost predicate GoodRun(r: Result) {
    r.Ran? ==> HidesOrigins(r.run.out) && NeverAgain(r.run.log)
  }

  lemma MarkHides(ts: seq<Tagged>, hs: seq<Name>, name: Name)
    requires HidesOrigins(ts) && name in hs
    ensures HidesOrigins(Mark(ts, hs, name))
  {
    forall t, n | t in Mark(ts, hs, name) && n in t.from
      ensures n in t.tok.hide
    {
      var i :| 0 <= i < |ts| && t == Tagged(ts[i].tok.(hide := ts[i].tok.hide + hs), ts[i].from + {name});
      assert ts[i] in ts;
    }
  }

  lemma JoinHides(a: seq<Tagged>, b: seq<Tagged>)
    requires HidesOrigins(a) && HidesOrigins(b)
    ensures HidesOrigins(a + b)
  {
  }

  lemma JoinGood(a: Result, b: Result)
    requires GoodRun(a) && GoodRun(b)
    ensures GoodRun(Joined(a, b))
  {
    if Joined(a, b).Ran? {
      JoinHides(a.run.out, b.run.out);
    }
  }

  lemma FreshHides(ts: seq<Token>)
    ensures HidesOrigins(Tag(ts, {}))
  {
  }

  /** On every run hide sets only grow from a token to its copies, so a token that came
      out of a macro is never expanded as that macro again, in arguments and results. */
  lemma {:induction false} RunHides(ms: Definitions, ts: seq<Tagged>, steps: nat)
    requires HidesOrigins(ts)
    ensures GoodRun(RunOn(ms, ts, steps))
    decreases steps, 0
  {
    hide Replaced, Stays, IsMacro, HidesOrigins, NeverAgain, Joined;
    EmptyRun();
    if ts != [] && steps > 0 {
      PartHides(ts);
      if Stays(ms, Plain(ts)) {
        RunHides(ms, ts[1..], steps - 1);
        JoinGood(Ran(Run([ts[0]], [])), RunOn(ms, ts[1..], steps - 1));
      } else {
        ReplacedHides(ms, ts, steps - 1);
        var next := Replaced(ms, ts, steps - 1);
        if next.Ran? {
          RunHides(ms, next.run.out, steps - 1);
          EventNever(ms, ts, next.run.log);
          var event := Event(ts[0].tok.text, ts[0].from);
          JoinGood(Ran(Run([], next.run.log + [event])), RunOn(ms, next.run.out, steps - 1));
        }
      }
    }
  }

  lemma EmptyRun()
    ensures HidesOrigins([]) && NeverAgain([])
  {
  }

  lemma PartHides(ts: seq<Tagged>)
    requires HidesOrigins(ts) && ts != []
    ensures HidesOrigins([ts[0]]) && HidesOrigins(ts[1..])
  {
  }

  lemma EventNever(ms: Definitions, ts: seq<Tagged>, log: seq<Event>)
    requires ts != [] && HidesOrigins(ts) && !Stays(ms, Plain(ts)) && NeverAgain(log)
    ensures NeverAgain(log + [Event(ts[0].tok.text, ts[0].from)])
  {
    assert ts[0] in ts;
  }

  lemma {:induction false} ReplacedHides(ms: Definitions, ts: seq<Tagged>, steps: nat)
    requires ts != [] && HidesOrigins(ts) && !Stays(ms, Plain(ts))
    ensures GoodRun(Replaced(ms, ts, steps))
    decreases steps, |BodyOf(ms, ts)| + 2
  {
    hide HidesOrigins, NeverAgain, Substituted, IsInvocation, Total, Intersection, Mark;
    var t := ts[0].tok;
    match ms[t.text]
    case Object(body) =>
      FreshHides(body);
      MarkHides(Tag(body, {}), t.hide + [t.text], t.text);
      RestHides(ts, 1);
      JoinHides(Mark(Tag(body, {}), t.hide + [t.text], t.text), ts[1..]);
      EmptyRun();
    case Invoked(params, body) =>
      if HasInvocation(Plain(ts), |params|) {
        var args := ArgsOf(Plain(ts), |params|);
        var close := CloseOf(args);
        CloseInside(ts, args);
        ArgsHide(ts, args);
        SubstitutedHides(ms, params, TaggedArgs(ts, args), body, steps);
        var sub := Substituted(ms, params, TaggedArgs(ts, args), body, steps);
        if sub.Ran? {
          var hs := Intersection(t.hide, ts[close].tok.hide) + [t.text];
          MarkHides(sub.run.out, hs, t.text);
          RestHides(ts, close + 1);
          JoinHides(Mark(sub.run.out, hs, t.text), ts[close + 1..]);
        }
      }
  }

  lemma CloseInside(ts: seq<Tagged>, args: seq<seq<Token>>)
    requires IsInvocation(Plain(ts), args)
    ensures CloseOf(args) < |ts|
  {
  }

  lemma RestHides(ts: seq<Tagged>, i: nat)
    requires HidesOrigins(ts) && i <= |ts|
    ensures HidesOrigins(ts[i..])
  {
  }

  lemma ArgsHide(ts: seq<Tagged>, args: seq<seq<Token>>)
    requires HidesOrigins(ts) && IsInvocation(Plain(ts), args)
    ensures forall j :: 0 <= j < |args| ==> HidesOrigins(TaggedArgs(ts, args)[j])
  {
    hide IsInvocation, TaggedArg;
  }

  lemma {:induction false} SubstitutedHides(ms: Definitions, params: seq<Name>, args: seq<seq<Tagged>>,
                                            body: seq<Token>, steps: nat)
    requires |args| == |params| && forall j :: 0 <= j < |args| ==> HidesOrigins(args[j])
    ensures GoodRun(Substituted(ms, params, args, body, steps))
    decreases steps, |body| + 1
  {
    hide HidesOrigins, NeverAgain, RunOn, Joined, OneToken;
    EmptyRun();
    if body != [] {
      var front, last := body[..|body| - 1], body[|body| - 1];
      SubstitutedHides(ms, params, args, front, steps);
      OneHides(ms, params, args, last, steps);
      JoinGood(Substituted(ms, params, args, front, steps), OneToken(ms, params, args, last, steps));
    }
  }

  lemma {:induction false} OneHides(ms: Definitions, params: seq<Name>, args: seq<seq<Tagged>>, t: Token, steps: nat)
    requires |args| == |params| && forall j :: 0 <= j < |args| ==> HidesOrigins(args[j])
    ensures GoodRun(OneToken(ms, params, args, t, steps))
    decreases steps, 1
  {
    hide HidesOrigins, NeverAgain, RunOn;
    EmptyRun();
    FreshHides([t]);
    var j := IndexOf(params, t.text);
    if t.kind.Identifier? && j < |params| {
      RunHides(ms, args[j], steps);
    }
  }

  // ---------------------------------------------------------------- the loop

  /** What a run puts out, without the tags. */
  function Output(r: Result): Option<seq<Token>> {
    if r.Ran? then Some(Plain(r.run.out)) else None
  }

  /** What has been put out and what the rest of the run puts out. */
  function Behind(done: seq<Token>, rest: Result): Option<seq<Token>> {
    if rest.Ran? then Some(done + Plain(rest.run.out)) else None
  }

  lemma PlainJoin(a: seq<Tagged>, b: seq<Tagged>)
    ensures Plain(a + b) == Plain(a) + Plain(b)
  {
  }

  lemma PlainTail(ts: seq<Tagged>, i: nat)
    requires i <= |ts|
    ensures Plain(ts[i..]) == Plain(ts)[i..]
  {
  }

  lemma PlainTag(ts: seq<Token>)
    ensures Plain(Tag(ts, {})) == ts
  {
  }

  lemma PlainMark(ts: seq<Tagged>, hs: seq<Name>, name: Name)
    ensures Plain(Mark(ts, hs, name)) == AddHide(Plain(ts), hs)
  {
  }

  /** A token that stays moves to the output. */
  lemma BehindKept(ms: Definitions, ts: seq<Tagged>, steps: nat, done: seq<Token>)
    requires ts != [] && steps > 0 && Stays(ms, Plain(ts))
    ensures Behind(done + [ts[0].tok], RunOn(ms, ts[1..], steps - 1)) == Behind(done, RunOn(ms, ts, steps))
    ensures RunOn(ms, ts[1..], steps - 1).Cut? <==> RunOn(ms, ts, steps).Cut?
  {
    hide Stays, Plain;
    var rest := RunOn(ms, ts[1..], steps - 1);
    if rest.Ran? {
      PlainJoin([ts[0]], rest.run.out);
      assert Plain([ts[0]]) == [ts[0].tok] by { PlainOne(ts[0]); }
      assert done + [ts[0].tok] + Plain(rest.run.out) == done + ([ts[0].tok] + Plain(rest.run.out));
    }
  }

  lemma PlainOne(t: Tagged)
    ensures Plain([t]) == [t.tok]
  {
  }

  lemma BehindReplaced(ms: Definitions, ts: seq<Tagged>, steps: nat, done: seq<Token>)
    requires ts != [] && steps > 0 && !Stays(ms, Plain(ts))
    ensures !Replaced(ms, ts, steps - 1).Ran? ==> RunOn(ms, ts, steps) == Replaced(ms, ts, steps - 1)
    ensures Replaced(ms, ts, steps - 1).Ran? ==>
              var rest := RunOn(ms, Replaced(ms, ts, steps - 1).run.out, steps - 1);
              Behind(done, rest) == Behind(done, RunOn(ms, ts, steps)) && (rest.Cut? <==> RunOn(ms, ts, steps).Cut?)
  {
    hide Stays, Plain, Replaced;
    var next := Replaced(ms, ts, steps - 1);
    if next.Ran? {
      var rest := RunOn(ms, next.run.out, steps - 1);
      assert rest.Ran? ==> [] + rest.run.out == rest.run.out;
    }
  }

  /** Arguments as read and as they are tagged. */
  ghost predicate SameArgs(args: seq<seq<Token>>, targs: seq<seq<Tagged>>) {
    |targs| == |args| && forall j :: 0 <= j < |args| ==> Plain(targs[j]) == args[j]
  }

  /** One round of the loop: the list with its first macro replaced. */
  method ReplaceFirst(ms: Definitions, list: seq<Token>, ghost ts: seq<Tagged>, ghost steps: nat)
    returns (r: Option<seq<Token>>)
    requires list != [] && Plain(ts) == list && !Stays(ms, list)
    requires !Replaced(ms, ts, steps).Cut?
    ensures r == Output(Replaced(ms, ts, steps))
    decreases steps, 2
  {
    hide Plain, Substituted, IsInvocation, Total, Intersection, Mark, Tag, AddHide;
    var tok := list[0];
    PlainAt(ts, 0);
    match ms[tok.text]
    case Object(body) =>
      var marked := AddHideSet(body, tok.hide + [tok.text]);
      r := Some(marked + list[1..]);
      ObjectPlain(ms, ts, steps);
    case Invoked(params, body) =>
      var ok, args, close := ReadMacroArgs(list, |params|);
      if !ok {
        return None;
      }
      ArgumentsUnique(list, args, ArgsOf(list, |params|));
      CloseInside(ts, args);
      ghost var targs := TaggedArgs(ts, args);
      var sub := Substitute(ms, params, args, body, targs, steps);
      if sub.None? {
        return None;
      }
      var hs := HideSetIntersection(tok.hide, list[close].hide);
      hs := hs + [tok.text];
      var marked := AddHideSet(sub.value, hs);
      r := Some(marked + list[close + 1..]);
      ghost var out := Substituted(ms, params, targs, body, steps).run.out;
      PlainAt(ts, close);
      PlainMark(out, hs, tok.text);
      PlainJoin(Mark(out, hs, tok.text), ts[close + 1..]);
      PlainTail(ts, close + 1);
  }

  lemma PlainAt(ts: seq<Tagged>, i: nat)
    requires i < |ts|
    ensures Plain(ts)[i] == ts[i].tok
  {
  }

  lemma ObjectPlain(ms: Definitions, ts: seq<Tagged>, steps: nat)
    requires ts != [] && !Stays(ms, Plain(ts)) && ts[0].tok.text in ms && ms[ts[0].tok.text].Object?
    ensures var t := ts[0].tok;
            Output(Replaced(ms, ts, steps)) == Some(AddHide(ms[t.text].body, t.hide + [t.text]) + Plain(ts)[1..])
  {
    hide Plain, Mark, Tag, AddHide;
    var t := ts[0].tok;
    var body := ms[t.text].body;
    PlainTag(body);
    PlainMark(Tag(body, {}), t.hide + [t.text], t.text);
    PlainJoin(Mark(Tag(body, {}), t.hide + [t.text], t.text), ts[1..]);
    PlainTail(ts, 1);
  }

  lemma SubstitutedNext(ms: Definitions, params: seq<Name>, args: seq<seq<Tagged>>, body: seq<Token>, k: nat,
                        steps: nat)
    requires |args| == |params| && k < |body|
    ensures Substituted(ms, params, args, body[..k + 1], steps) ==
              Joined(Substituted(ms, params, args, body[..k], steps), OneToken(ms, params, args, body[k], steps))
  {
    hide OneToken, Joined;
    assert body[..k + 1][..k] == body[..k];
  }

  lemma OutputJoined(a: Result, b: Result)
    requires a.Ran?
    ensures Output(Joined(a, b)) == if b.Ran? then Some(Plain(a.run.out) + Plain(b.run.out)) else None
  {
    if b.Ran? {
      PlainJoin(a.run.out, b.run.out);
    }
  }

  lemma OneOutput(ms: Definitions, params: seq<Name>, args: seq<seq<Tagged>>, t: Token, steps: nat)
    requires |args| == |params|
    ensures var j := IndexOf(params, t.text);
            if t.kind.Identifier? && j < |params|
            then OneToken(ms, params, args, t, steps) == RunOn(ms, args[j], steps)
            else OneToken(ms, params, args, t, steps).Ran? &&
                 Output(OneToken(ms, params, args, t, steps)) == Some([t])
  {
    hide RunOn;
    PlainTag([t]);
  }

  /** Failure stays failure, and so does being cut off. */
  lemma {:induction false} SubstitutedOn(ms: Definitions, params: seq<Name>, args: seq<seq<Tagged>>,
                                         body: seq<Token>, k: nat, steps: nat)
    requires |args| == |params| && k <= |body|
    ensures Substituted(ms, params, args, body[..k], steps).Cut? ==> Substituted(ms, params, args, body, steps).Cut?
    ensures !Substituted(ms, params, args, body[..k], steps).Ran? ==> !Substituted(ms, params, args, body, steps).Ran?
    decreases |body| - k
  {
    hide Substituted, OneToken;
    if k == |body| {
      assert body[..k] == body;
    } else {
      SubstitutedNext(ms, params, args, body, k, steps);
      SubstitutedOn(ms, params, args, body, k + 1, steps);
    }
  }

  lemma SubstitutedNone(ms: Definitions, params: seq<Name>, args: seq<seq<Tagged>>, steps: nat)
    requires |args| == |params|
    ensures Substituted(ms, params, args, [], steps).Ran?
    ensures Output(Substituted(ms, params, args, [], steps)) == Some([])
  {
  }

  /** The body, token by token, with expanded arguments for parameters. */
  method Substitute(ms: Definitions, params: seq<Name>, args: seq<seq<Token>>, body: seq<Token>,
                    ghost targs: seq<seq<Tagged>>, ghost steps: nat)
    returns (r: Option<seq<Token>>)
    requires |args| == |params| && SameArgs(args, targs)
    requires !Substituted(ms, params, targs, body, steps).Cut?
    ensures r == Output(Substituted(ms, params, targs, body, steps))
    decreases steps, 1
  {
    hide Substituted, RunOn, Plain, OneToken;
    var out: seq<Token> := [];
    assert body[..0] == [];
    SubstitutedNone(ms, params, targs, steps);
    for k := 0 to |body|
      invariant Substituted(ms, params, targs, body[..k], steps).Ran?
      invariant Output(Substituted(ms, params, targs, body[..k], steps)) == Some(out)
    {
      SubstitutedNext(ms, params, targs, body, k, steps);
      SubstitutedOn(ms, params, targs, body, k + 1, steps);
      OneOutput(ms, params, targs, body[k], steps);
      OutputJoined(Substituted(ms, params, targs, body[..k], steps), OneToken(ms, params, targs, body[k], steps));
      var j := IndexOf(params, body[k].text);
      if body[k].kind.Identifier? && j < |params| {
        var one := ExpandList(ms, args[j], targs[j], steps);
        if one.None? {
          return None;
        }
        out := out + one.value;
      } else {
        out := out + [body[k]];
      }
    }
    assert body[..|body|] == body;
    r := Some(out);
  }

  /** Expands a list of tokens, knowing a number of steps that is enough. */
  method ExpandList(ms: Definitions, tokens: seq<Token>, ghost ts: seq<Tagged>, ghost steps: nat)
    returns (out: Option<seq<Token>>)
    requires Plain(ts) == tokens && !RunOn(ms, ts, steps).Cut?
    ensures out == Output(RunOn(ms, ts, steps))
    decreases steps, 0
  {
    hide RunOn, Replaced, Stays, Plain;
    var list: seq<Token>, done: seq<Token> := tokens, [];
    ghost var rest: seq<Tagged>, left: nat := ts, steps;
    BehindNothing(RunOn(ms, ts, steps));
    while list != []
      invariant Plain(rest) == list && left <= steps
      invariant !RunOn(ms, rest, left).Cut?
      invariant Behind(done, RunOn(ms, rest, left)) == Output(RunOn(ms, ts, steps))
      decreases left
    {
      CutOff(ms, rest);
      if Stays(ms, list) {
        BehindKept(ms, rest, left, done);
        PlainAt(rest, 0);
        PlainTail(rest, 1);
        done := done + [list[0]];
        list := list[1..];
        rest := rest[1..];
      } else {
        BehindReplaced(ms, rest, left, done);
        var next := ReplaceFirst(ms, list, rest, left - 1);
        if next.None? {
          return None;
        }
        list := next.value;
        rest := Replaced(ms, rest, left - 1).run.out;
      }
      left := left - 1;
    }
    RunOver(ms, rest, left);
    assert done + [] == done;
    out := Some(done);
  }

  lemma BehindNothing(r: Result)
    ensures Behind([], r) == Output(r)
  {
    assert r.Ran? ==> [] + Plain(r.run.out) == Plain(r.run.out);
  }

  lemma CutOff(ms: Definitions, ts: seq<Tagged>)
    requires Plain(ts) != []
    ensures RunOn(ms, ts, 0) == Cut && ts != []
  {
  }

  lemma RunOver(ms: Definitions, ts: seq<Tagged>, steps: nat)
    requires Plain(ts) == []
    ensures RunOn(ms, ts, steps) == Ran(Run([], [])) && Plain([]) == []
  {
  }

  // ---------------------------------------------------------------- object-like macros only

  ghost predicate ObjectsOnly(ms: Definitions, m: Table) {
    ms.Keys == m.Keys && forall n :: n in m ==> ms[n] == Object(m[n])
  }

  /** With object-like macros only, the run ends within as many steps as the recursive
      expansion looks at tokens, with its result. */
  lemma {:induction false} RunExpands(ms: Definitions, m: Table, ts: seq<Tagged>, steps: nat)
    requires ObjectsOnly(ms, m)
    ensures RunOn(ms, ts, steps).Cut? <==> steps < Work(m, Plain(ts))
    ensures Work(m, Plain(ts)) <= steps ==> Output(RunOn(ms, ts, steps)) == Some(Expand(m, Plain(ts)))
    decreases steps
  {
    hide ObjectsOnly, Expand, Work, WorkToken, ExpandToken, Plain, Replaced, Stays;
    if ts == [] {
      RunEmpty(m);
    } else {
      WorkFirst(m, Plain(ts));
      if steps > 0 {
        PlainAt(ts, 0);
        PlainTail(ts, 1);
        if Stays(ms, Plain(ts)) {
          StaysObject(ms, m, Plain(ts));
          RunExpands(ms, m, ts[1..], steps - 1);
          BehindKept(ms, ts, steps, []);
          BehindNothing(RunOn(ms, ts, steps));
          BehindFirst(ts[0].tok, RunOn(ms, ts[1..], steps - 1));
        } else {
          StaysObject(ms, m, Plain(ts));
          ObjectPlain(ms, ts, steps - 1);
          var next := Replaced(ms, ts, steps - 1).run.out;
          RunExpands(ms, m, next, steps - 1);
          BehindReplaced(ms, ts, steps, []);
          BehindNothing(RunOn(ms, next, steps - 1));
          BehindNothing(RunOn(ms, ts, steps));
        }
      }
    }
  }

  lemma RunEmpty(m: Table)
    ensures Plain([]) == [] && Work(m, []) == 0 && Expand(m, []) == []
  {
  }

  lemma BehindFirst(t: Token, rest: Result)
    ensures Behind([] + [t], rest) == if rest.Ran? then Some([t] + Plain(rest.run.out)) else None
  {
    assert [] + [t] == [t];
  }

  /** Work and result of a list, by what happens to its first token. */
  lemma WorkFirst(m: Table, list: seq<Token>)
    requires list != []
    ensures Expands(m, list[0]) ==>
              var next := Replacement(m, list[0]) + list[1..];
              Work(m, list) == 1 + Work(m, next) && Expand(m, list) == Expand(m, next)
    ensures !Expands(m, list[0]) ==>
              Work(m, list) == 1 + Work(m, list[1..]) && Expand(m, list) == [list[0]] + Expand(m, list[1..])
  {
    if Expands(m, list[0]) {
      ExpandConcat(m, Replacement(m, list[0]), list[1..]);
    }
  }

  lemma StaysObject(ms: Definitions, m: Table, list: seq<Token>)
    requires ObjectsOnly(ms, m) && list != []
    ensures Stays(ms, list) <==> !Expands(m, list[0])
    ensures Expands(m, list[0]) ==> list[0].text in ms && ms[list[0].text] == Object(m[list[0].text])
  {
  }
}
