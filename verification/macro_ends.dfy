/** Every expansion ends, with function-like macros too.  Hide sets alone do not show it:
    an invocation's result hides only what both its name and its closing parenthesis hide.
    But each token can be given a base, a set of names that it hides, such that bases only
    shrink to the right; the closing parenthesis is then replaced by tokens of larger base,
    and there are not more bases than sets of macros. */
module MacroEnds {
  import opened Options
  import opened Macros
  import opened MacroCalls
  import opened MacroRuns

  // ---------------------------------------------------------------- more steps

  /** A run that is not cut off is the same with more steps. */
  lemma {:induction false} MoreSteps(ms: Definitions, ts: seq<Tagged>, steps: nat, more: nat)
    requires steps <= more && !RunOn(ms, ts, steps).Cut?
    ensures RunOn(ms, ts, more) == RunOn(ms, ts, steps)
    decreases steps, 0
  {
    hide Stays, Plain, Replaced;
    if ts != [] {
      if Stays(ms, Plain(ts)) {
        MoreSteps(ms, ts[1..], steps - 1, more - 1);
      } else {
        MoreReplaced(ms, ts, steps - 1, more - 1);
        var next := Replaced(ms, ts, steps - 1);
        if next.Ran? {
          MoreSteps(ms, next.run.out, steps - 1, more - 1);
        }
      }
    }
  }

  lemma {:induction false} MoreReplaced(ms: Definitions, ts: seq<Tagged>, steps: nat, more: nat)
    requires ts != [] && !Stays(ms, Plain(ts)) && steps <= more && !Replaced(ms, ts, steps).Cut?
    ensures Replaced(ms, ts, more) == Replaced(ms, ts, steps)
    decreases steps, |BodyOf(ms, ts)| + 2
  {
    hide Substituted, Mark, Tag, Intersection, IsInvocation, TaggedArgs, Total;
    match ms[ts[0].tok.text]
    case Object(_) =>
    case Invoked(params, body) =>
      if HasInvocation(Plain(ts), |params|) {
        MoreSubstituted(ms, params, TaggedArgs(ts, ArgsOf(Plain(ts), |params|)), body, steps, more);
      }
  }

  lemma {:induction false} MoreSubstituted(ms: Definitions, params: seq<Name>, args: seq<seq<Tagged>>,
                                           body: seq<Token>, steps: nat, more: nat)
    requires |args| == |params| && steps <= more && !Substituted(ms, params, args, body, steps).Cut?
    ensures Substituted(ms, params, args, body, more) == Substituted(ms, params, args, body, steps)
    decreases steps, |body| + 1
  {
    hide RunOn;
    if body != [] {
      var last := body[|body| - 1];
      MoreSubstituted(ms, params, args, body[..|body| - 1], steps, more);
      var j := IndexOf(params, last.text);
      if last.kind.Identifier? && j < |params| {
        MoreSteps(ms, args[j], steps, more);
      }
    }
  }

  // ---------------------------------------------------------------- one step

  ghost predicate Ends(ms: Definitions, ts: seq<Tagged>) {
    exists steps: nat :: !RunOn(ms, ts, steps).Cut?
  }

  lemma EndsNothing(ms: Definitions)
    ensures Ends(ms, [])
  {
    assert !RunOn(ms, [], 0).Cut?;
  }

  lemma EndsKept(ms: Definitions, ts: seq<Tagged>)
    requires ts != [] && Stays(ms, Plain(ts)) && Ends(ms, ts[1..])
    ensures Ends(ms, ts)
  {
    hide Stays, Plain;
    var steps: nat :| !RunOn(ms, ts[1..], steps).Cut?;
    assert !RunOn(ms, ts, steps + 1).Cut?;
  }

  /** The replacement of the first macro is not cut off, and the run on its result is not. */
  lemma EndsReplaced(ms: Definitions, ts: seq<Tagged>, steps: nat)
    requires ts != [] && !Stays(ms, Plain(ts)) && !Replaced(ms, ts, steps).Cut?
    requires Replaced(ms, ts, steps).Ran? ==> Ends(ms, Replaced(ms, ts, steps).run.out)
    ensures Ends(ms, ts)
  {
    hide Stays, Plain, Replaced;
    var next := Replaced(ms, ts, steps);
    if next.Ran? {
      var rest: nat :| !RunOn(ms, next.run.out, rest).Cut?;
      var most := if rest < steps then steps else rest;
      MoreReplaced(ms, ts, steps, most);
      MoreSteps(ms, next.run.out, rest, most);
      assert !RunOn(ms, ts, most + 1).Cut?;
    } else {
      assert !RunOn(ms, ts, steps + 1).Cut?;
    }
  }

  /** If every argument's run ends, so many steps are enough for all of them. */
  lemma {:induction false} EndsSubstituted(ms: Definitions, params: seq<Name>, args: seq<seq<Tagged>>, body: seq<Token>)
    returns (steps: nat)
    requires |args| == |params| && forall j :: 0 <= j < |args| ==> Ends(ms, args[j])
    ensures !Substituted(ms, params, args, body, steps).Cut?
  {
    hide Ends, RunOn;
    if body == [] {
      steps := 0;
    } else {
      var front, last := body[..|body| - 1], body[|body| - 1];
      var a := EndsSubstituted(ms, params, args, front);
      var b := EndsOne(ms, params, args, last);
      steps := if a < b then b else a;
      MoreSubstituted(ms, params, args, front, a, steps);
      MoreOne(ms, params, args, last, b, steps);
    }
  }

  lemma EndsOne(ms: Definitions, params: seq<Name>, args: seq<seq<Tagged>>, t: Token) returns (steps: nat)
    requires |args| == |params| && forall j :: 0 <= j < |args| ==> Ends(ms, args[j])
    ensures !OneToken(ms, params, args, t, steps).Cut?
  {
    hide RunOn;
    var j := IndexOf(params, t.text);
    steps := 0;
    if j < |params| {
      steps :| !RunOn(ms, args[j], steps).Cut?;
    }
  }

  lemma MoreOne(ms: Definitions, params: seq<Name>, args: seq<seq<Tagged>>, t: Token, steps: nat, more: nat)
    requires |args| == |params| && steps <= more && !OneToken(ms, params, args, t, steps).Cut?
    ensures OneToken(ms, params, args, t, more) == OneToken(ms, params, args, t, steps)
  {
    hide RunOn;
    var j := IndexOf(params, t.text);
    if t.kind.Identifier? && j < |params| {
      MoreSteps(ms, args[j], steps, more);
    }
  }

  // ---------------------------------------------------------------- bases

  datatype Based = Based(tag: Tagged, base: set<Name>)

  function Bare(s: seq<Based>): (r: seq<Tagged>)
    ensures |r| == |s|
  {
    seq(|s|, i requires 0 <= i < |s| => s[i].tag)
  }

  function WithBase(ts: seq<Tagged>, base: set<Name>): (r: seq<Based>)
    ensures |r| == |ts|
  {
    seq(|ts|, i requires 0 <= i < |ts| => Based(ts[i], base))
  }

  ghost predicate HidesBase(ms: Definitions, b: Based) {
    b.base <= ms.Keys && forall n :: n in b.base ==> n in b.tag.tok.hide
  }

  /** Bases are hidden, and only shrink to the right. */
  ghost predicate Layered(ms: Definitions, s: seq<Based>) {
    && (forall i :: 0 <= i < |s| ==> HidesBase(ms, s[i]))
    && (forall i, j :: 0 <= i < j < |s| ==> s[j].base <= s[i].base)
  }

  /** The macros that are not in the base. */
  ghost function Height(ms: Definitions, b: Based): nat {
    |ms.Keys - b.base|
  }

  ghost predicate Below(ms: Definitions, z: seq<Based>, k: nat) {
    forall i :: 0 <= i < |z| ==> Height(ms, z[i]) < k
  }

  /** Whatever token i is replaced by, if it is lower, and wherever the list then ends, the
      run ends. */
  ghost predicate EndsBehind(ms: Definitions, s: seq<Based>, i: nat, j: nat, z: seq<Based>)
    requires i < j <= |s|
  {
    Below(ms, z, Height(ms, s[i])) && Layered(ms, z + s[i + 1..j]) ==> Ends(ms, Bare(z + s[i + 1..j]))
  }

  ghost predicate Good(ms: Definitions, s: seq<Based>) {
    Layered(ms, s) && forall i: nat, j: nat, z: seq<Based> :: i < j <= |s| ==> EndsBehind(ms, s, i, j, z)
  }

  lemma LayeredPart(ms: Definitions, s: seq<Based>, i: nat, j: nat)
    requires Layered(ms, s) && i <= j <= |s|
    ensures Layered(ms, s[i..j])
  {
    hide HidesBase;
  }

  lemma GoodPart(ms: Definitions, s: seq<Based>, n: nat)
    requires Good(ms, s) && n <= |s|
    ensures Good(ms, s[..n])
  {
    hide Layered, Ends, Below, Height;
    LayeredPart(ms, s, 0, n);
    assert s[0..n] == s[..n];
    forall i: nat, j: nat, z: seq<Based> | i < j <= n
      ensures EndsBehind(ms, s[..n], i, j, z)
    {
      assert EndsBehind(ms, s, i, j, z);
      assert s[..n][i + 1..j] == s[i + 1..j];
    }
  }

  // ---------------------------------------------------------------- a good list ends

  lemma BareCut(s: seq<Based>, i: nat, j: nat)
    requires i <= j <= |s|
    ensures Bare(s[i..j]) == Bare(s)[i..j]
  {
  }

  lemma BareJoin(a: seq<Based>, b: seq<Based>)
    ensures Bare(a + b) == Bare(a) + Bare(b)
  {
  }

  lemma BareWith(ts: seq<Tagged>, base: set<Name>)
    ensures Bare(WithBase(ts, base)) == ts
  {
  }

  /** A part that does not begin the list ends. */
  lemma PartEnds(ms: Definitions, s: seq<Based>, i: nat, j: nat)
    requires Good(ms, s) && 0 < i <= j <= |s|
    ensures Ends(ms, Bare(s)[i..j])
  {
    hide Good, Layered, Ends, Height, Bare;
    GoodAt(ms, s, i - 1, j, []);
    assert [] + s[i..j] == s[i..j];
    GoodLayered(ms, s);
    LayeredPart(ms, s, i, j);
    BareCut(s, i, j);
  }

  /** So does what is left when tokens up to the i-th have been replaced by ones that hide
      one more name than the i-th token's base. */
  lemma NextEnds(ms: Definitions, s: seq<Based>, i: nat, name: Name, new_: seq<Tagged>)
    requires Good(ms, s) && i < |s| && name in ms && name !in s[i].base
    requires forall t, n :: t in new_ && n in s[i].base + {name} ==> n in t.tok.hide
    ensures Ends(ms, new_ + Bare(s)[i + 1..])
  {
    hide Ends, Layered, Below, Height, Bare, WithBase;
    var z := WithBase(new_, s[i].base + {name});
    GoodLayered(ms, s);
    NextLayered(ms, s, i, name, new_);
    NextBelow(ms, s[i], name, new_);
    assert EndsBehind(ms, s, i, |s|, z);
    BareJoin(z, s[i + 1..|s|]);
    BareWith(new_, s[i].base + {name});
    BareCut(s, i + 1, |s|);
    assert Bare(s)[i + 1..|s|] == Bare(s)[i + 1..];
  }

  lemma NextBelow(ms: Definitions, b: Based, name: Name, new_: seq<Tagged>)
    requires name in ms && name !in b.base
    ensures Below(ms, WithBase(new_, b.base + {name}), Height(ms, b))
  {
    assert ms.Keys - (b.base + {name}) == ms.Keys - b.base - {name};
  }

  lemma NextLayered(ms: Definitions, s: seq<Based>, i: nat, name: Name, new_: seq<Tagged>)
    requires Layered(ms, s) && i < |s| && name in ms
    requires forall t, n :: t in new_ && n in s[i].base + {name} ==> n in t.tok.hide
    ensures Layered(ms, WithBase(new_, s[i].base + {name}) + s[i + 1..|s|])
  {
    var z := WithBase(new_, s[i].base + {name});
    forall j | 0 <= j < |z|
      ensures HidesBase(ms, z[j])
    {
      assert z[j].tag in new_;
      assert HidesBase(ms, s[i]);
    }
    hide HidesBase;
  }

  lemma MarkedHide(ts: seq<Tagged>, hs: seq<Name>, name: Name, base: set<Name>)
    requires forall n :: n in base ==> n in hs
    ensures forall t, n :: t in Mark(ts, hs, name) && n in base ==> n in t.tok.hide
  {
    forall t, n | t in Mark(ts, hs, name) && n in base
      ensures n in t.tok.hide
    {
      var i :| 0 <= i < |ts| && t == Mark(ts, hs, name)[i];
    }
  }

  /** The first token's base is hidden by it, so a macro's name is not in any base behind. */
  lemma FirstMacro(ms: Definitions, s: seq<Based>, i: nat)
    requires Layered(ms, s) && i < |s| && !Stays(ms, Plain(Bare(s)))
    ensures var t := s[0].tag.tok;
              Plain(Bare(s))[0] == t && t.text in ms && t.text !in s[i].base &&
              forall n :: n in s[i].base ==> n in t.hide && n in s[i].tag.tok.hide
  {
    assert HidesBase(ms, s[0]) && HidesBase(ms, s[i]);
    assert s[i].base <= s[0].base;
  }

  lemma ArgsEnd(ms: Definitions, s: seq<Based>, args: seq<seq<Token>>)
    requires Good(ms, s) && IsInvocation(Plain(Bare(s)), args)
    ensures forall j :: 0 <= j < |args| ==> Ends(ms, TaggedArgs(Bare(s), args)[j])
  {
    hide Good, Ends, IsInvocation, Total;
    forall j | 0 <= j < |args|
      ensures Ends(ms, TaggedArgs(Bare(s), args)[j])
    {
      ArgPlace(Plain(Bare(s)), args, j);
      var start := 2 + Total(args[..j]);
      PartEnds(ms, s, start, start + |args[j]|);
    }
  }

  lemma GoodObject(ms: Definitions, s: seq<Based>)
    requires Good(ms, s) && s != [] && !Stays(ms, Plain(Bare(s)))
    requires s[0].tag.tok.text in ms && ms[s[0].tag.tok.text].Object?
    ensures Ends(ms, Bare(s))
  {
    hide Good, Ends, Mark, Tag, Layered, Stays;
    var ts, t := Bare(s), s[0].tag.tok;
    assert Layered(ms, s) by { GoodLayered(ms, s); }
    FirstMacro(ms, s, 0);
    var marked := Mark(Tag(ms[t.text].body, {}), t.hide + [t.text], t.text);
    MarkedHide(Tag(ms[t.text].body, {}), t.hide + [t.text], t.text, s[0].base + {t.text});
    NextEnds(ms, s, 0, t.text, marked);
    EndsReplaced(ms, ts, 0);
  }

  lemma GoodLayered(ms: Definitions, s: seq<Based>)
    requires Good(ms, s)
    ensures Layered(ms, s)
  {
  }

  lemma GoodInvoked(ms: Definitions, s: seq<Based>)
    requires Good(ms, s) && s != [] && !Stays(ms, Plain(Bare(s)))
    requires s[0].tag.tok.text in ms && ms[s[0].tag.tok.text].Invoked?
    ensures Ends(ms, Bare(s))
  {
    hide Good, Ends, Mark, Tag, Layered, Stays, IsInvocation, Substituted, Total, Intersection, TaggedArgs;
    var ts, t := Bare(s), s[0].tag.tok;
    var params, body := ms[t.text].params, ms[t.text].body;
    if HasInvocation(Plain(ts), |params|) {
      var args := ArgsOf(Plain(ts), |params|);
      var close := CloseOf(args);
      CloseInside(ts, args);
      ArgsEnd(ms, s, args);
      var steps := EndsSubstituted(ms, params, TaggedArgs(ts, args), body);
      var sub := Substituted(ms, params, TaggedArgs(ts, args), body, steps);
      if sub.Ran? {
        GoodLayered(ms, s);
        FirstMacro(ms, s, close);
        var hs := Intersection(t.hide, ts[close].tok.hide) + [t.text];
        IntersectionIs(t.hide, ts[close].tok.hide);
        MarkedHide(sub.run.out, hs, t.text, s[close].base + {t.text});
        NextEnds(ms, s, close, t.text, Mark(sub.run.out, hs, t.text));
      }
      EndsReplaced(ms, ts, steps);
    } else {
      EndsReplaced(ms, ts, 0);
    }
  }

  lemma GoodEnds(ms: Definitions, s: seq<Based>)
    requires Good(ms, s)
    ensures Ends(ms, Bare(s))
  {
    hide Good, Ends;
    if s == [] {
      EndsNothing(ms);
    } else if Stays(ms, Plain(Bare(s))) {
      PartEnds(ms, s, 1, |s|);
      assert Bare(s)[1..|s|] == Bare(s)[1..];
      EndsKept(ms, Bare(s));
    } else if ms[s[0].tag.tok.text].Object? {
      GoodObject(ms, s);
    } else {
      GoodInvoked(ms, s);
    }
  }

  // ---------------------------------------------------------------- every list is good

  lemma GoodNothing(ms: Definitions)
    ensures Good(ms, [])
  {
  }

  /** One more token in front. */
  lemma {:induction false} GoodFront(ms: Definitions, b: Based, s: seq<Based>)
    requires Good(ms, s) && Layered(ms, [b] + s)
    ensures Good(ms, [b] + s)
    decreases Height(ms, b), 2, 0
  {
    hide EndsBehind;
    var more := [b] + s;
    forall i: nat, j: nat, z: seq<Based> | i < j <= |more|
      ensures EndsBehind(ms, more, i, j, z)
    {
      if i > 0 {
        BehindShift(ms, b, s, i, j, z);
      } else {
        FrontBehind(ms, b, s, j, z);
      }
    }
  }

  lemma BehindShift(ms: Definitions, b: Based, s: seq<Based>, i: nat, j: nat, z: seq<Based>)
    requires Good(ms, s) && 0 < i < j <= |s| + 1
    ensures EndsBehind(ms, [b] + s, i, j, z)
  {
    hide Good, Layered, Ends, Below, Height;
    GoodAt(ms, s, i - 1, j - 1, z);
    CutShift(b, s, i, j);
  }

  lemma GoodAt(ms: Definitions, s: seq<Based>, i: nat, j: nat, z: seq<Based>)
    requires Good(ms, s) && i < j <= |s|
    ensures EndsBehind(ms, s, i, j, z)
  {
    hide EndsBehind;
  }

  lemma CutShift(b: Based, s: seq<Based>, i: nat, j: nat)
    requires 0 < i < j <= |s| + 1
    ensures ([b] + s)[i] == s[i - 1] && ([b] + s)[i + 1..j] == s[i..j - 1]
  {
  }

  /** What replaces the front token is lower, so it is good in front of the rest. */
  lemma {:induction false} FrontBehind(ms: Definitions, b: Based, s: seq<Based>, j: nat, z: seq<Based>)
    requires Good(ms, s) && 0 < j <= |s| + 1
    ensures EndsBehind(ms, [b] + s, 0, j, z)
    decreases Height(ms, b), 1, 0
  {
    hide Good, Layered, Ends, Below, Height;
    assert ([b] + s)[1..j] == s[..j - 1];
    if Below(ms, z, Height(ms, b)) && Layered(ms, z + s[..j - 1]) {
      GoodPart(ms, s, j - 1);
      GoodFronts(ms, z, s[..j - 1], Height(ms, b));
      GoodEnds(ms, z + s[..j - 1]);
    }
  }

  lemma {:induction false} GoodFronts(ms: Definitions, z: seq<Based>, s: seq<Based>, k: nat)
    requires Good(ms, s) && Below(ms, z, k) && Layered(ms, z + s)
    ensures Good(ms, z + s)
    decreases k, 0, |z|
  {
    hide Good, Layered, Height;
    if z == [] {
      assert z + s == s;
    } else {
      assert (z + s)[1..|z + s|] == z[1..] + s;
      LayeredPart(ms, z + s, 1, |z + s|);
      GoodFronts(ms, z[1..], s, k);
      assert [z[0]] + (z[1..] + s) == z + s;
      GoodFront(ms, z[0], z[1..] + s);
    }
  }

  /** Every run ends, whatever the tokens hide at first. */
  lemma RunEnds(ms: Definitions, ts: seq<Tagged>)
    ensures Ends(ms, ts)
  {
    hide Good, Ends, Below, Layered;
    var s := WithBase(ts, {});
    GoodNothing(ms);
    NoBase(ms, ts);
    assert s + [] == s;
    GoodFronts(ms, s, [], |ms| + 1);
    GoodEnds(ms, s);
    BareWith(ts, {});
  }

  lemma NoBase(ms: Definitions, ts: seq<Tagged>)
    ensures Layered(ms, WithBase(ts, {})) && Below(ms, WithBase(ts, {}), |ms| + 1)
  {
    assert ms.Keys - {} == ms.Keys;
  }

  // ---------------------------------------------------------------- the whole loop

  /** The run without regard to steps. */
  ghost function Whole(ms: Definitions, ts: seq<Tagged>): (r: Result)
    ensures !r.Cut?
    ensures forall steps: nat :: RunOn(ms, ts, steps) == r || RunOn(ms, ts, steps).Cut?
  {
    RunEnds(ms, ts);
    var enough: nat :| !RunOn(ms, ts, enough).Cut?;
    var r := RunOn(ms, ts, enough);
    assert forall steps: nat :: RunOn(ms, ts, steps) == r || RunOn(ms, ts, steps).Cut? by {
      forall steps: nat
        ensures RunOn(ms, ts, steps) == r || RunOn(ms, ts, steps).Cut?
      {
        if steps >= enough {
          MoreSteps(ms, ts, enough, steps);
        } else if !RunOn(ms, ts, steps).Cut? {
          MoreSteps(ms, ts, steps, enough);
        }
      }
    }
    r
  }

  lemma WholeIs(ms: Definitions, ts: seq<Tagged>) returns (steps: nat)
    ensures Whole(ms, ts) == RunOn(ms, ts, steps)
  {
    RunEnds(ms, ts);
    steps :| !RunOn(ms, ts, steps).Cut?;
  }

  /** No macro is expanded again in what came out of it, and tokens hide their origins. */
  lemma WholeHides(ms: Definitions, ts: seq<Tagged>)
    requires HidesOrigins(ts)
    ensures GoodRun(Whole(ms, ts))
  {
    hide RunOn, Whole, GoodRun;
    var steps := WholeIs(ms, ts);
    RunHides(ms, ts, steps);
  }

  /** With object-like macros only, the result is the recursive expansion. */
  lemma WholeExpands(ms: Definitions, m: Table, ts: seq<Tagged>)
    requires ObjectsOnly(ms, m)
    ensures Output(Whole(ms, ts)) == Some(Expand(m, Plain(ts)))
  {
    hide RunOn, Expand, Work, Plain, ObjectsOnly;
    var steps := WholeIs(ms, ts);
    RunExpands(ms, m, ts, steps);
  }

  /** A macro's name that is left and not hidden is that of a function-like macro. */
  lemma {:induction false} RunLeaves(ms: Definitions, ts: seq<Tagged>, steps: nat)
    requires RunOn(ms, ts, steps).Ran?
    ensures forall t :: t in RunOn(ms, ts, steps).run.out && IsMacro(ms, t.tok) ==> ms[t.tok.text].Invoked?
    decreases steps
  {
    hide Replaced;
    if ts != [] {
      if Stays(ms, Plain(ts)) {
        RunLeaves(ms, ts[1..], steps - 1);
      } else {
        RunLeaves(ms, Replaced(ms, ts, steps - 1).run.out, steps - 1);
      }
    }
  }

  lemma WholeLeaves(ms: Definitions, ts: seq<Tagged>)
    requires Whole(ms, ts).Ran?
    ensures forall t :: t in Whole(ms, ts).run.out && IsMacro(ms, t.tok) ==> ms[t.tok.text].Invoked?
  {
    hide RunOn, Whole, IsMacro;
    var steps := WholeIs(ms, ts);
    RunLeaves(ms, ts, steps);
  }

  /** Expands a list of tokens. */
  method Preprocess(ms: Definitions, tokens: seq<Token>) returns (out: Option<seq<Token>>)
    ensures out == Output(Whole(ms, Tag(tokens, {})))
  {
    ghost var ts := Tag(tokens, {});
    RunEnds(ms, ts);
    ghost var steps: nat :| !RunOn(ms, ts, steps).Cut?;
    PlainTag(tokens);
    out := ExpandList(ms, tokens, ts, steps);
  }
}
