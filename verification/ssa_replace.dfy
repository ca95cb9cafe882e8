/** Why replacing one value by another is safe.

    The pass replaces x by y when y equals x at the place where x is computed.  Uses of
    x may be far away, and y may be computed again in between.  The lemmas below show
    that no use can tell: on every path to a place where x is always available, y has
    not been recomputed since x was. */
module SsaReplace {
  import opened IR
  import opened Cfg
  import opened SsaPaths

  /** The same block occurs in a path at i; what was defined by then still is. */
  lemma DefinedOnPrefix(c: Ctx, v: Value, path: seq<nat>, k: nat, i: nat, k': nat, j: int)
    requires i < |path|
    requires DefinedAt(c, v, path[..i + 1], k', j)
    requires i < |path| - 1 || k' <= k
    ensures DefinedAt(c, v, path, k, j)
  {
  }

  /** First arrival: nothing in block b is defined on a path that reaches b only now. */
  lemma FirstArrival(c: Ctx, v: Value, path: seq<nat>, i: nat, k: nat)
    requires i < |path| && HasDef(c, v) && path[i] == DefBlock(c, v)
    requires forall j :: 0 <= j < i ==> path[j] != DefBlock(c, v)
    requires Avail(c, v, path[..i + 1], k)
    requires !v.Const? && !v.Arg?
    ensures DefIndex(c, v) <= k
  {
  }

  /** A value always available in its own block was computed above. */
  lemma AvailBefore(c: Ctx, v: Value, b: nat, k: nat, path: seq<nat>)
    requires PathTo(c.f, path, b) && AlwaysAvail(c, v, b, k) && !v.Const? && !v.Arg?
    ensures HasDef(c, v) && (DefBlock(c, v) == b ==> DefIndex(c, v) <= k)
  {
    assert Avail(c, v, path, k);
    var first := FirstIndex(path, b);
    PrefixIsPath(c.f, path, first);
    assert Avail(c, v, path[..first + 1], k);
  }

  ghost predicate SameAtDefs(c: Ctx, x: Value, y: Value, path: seq<nat>) {
    HasDef(c, x) && DefIndex(c, x) <= Len(c, DefBlock(c, x)) &&
    forall i {:trigger path[i]} ::
      0 <= i < |path| && path[i] == DefBlock(c, x) && PathTo(c.f, path[..i + 1], DefBlock(c, x)) ==>
      SameWhenDefined(c, x, y, path[..i + 1])
  }

  lemma YAtDef(c: Ctx, x: Value, y: Value, path: seq<nat>, i: nat)
    requires SameAtDefs(c, x, y, path)
    requires IsPath(c.f, path) && i < |path| && path[i] == DefBlock(c, x)
    ensures PathTo(c.f, path[..i + 1], DefBlock(c, x))
    ensures SameWhenDefined(c, x, y, path[..i + 1])
  {
    PrefixIsPath(c.f, path, i);
  }

  lemma AvailAtDef(c: Ctx, x: Value, y: Value, path: seq<nat>, i: nat)
    requires SameAtDefs(c, x, y, path)
    requires IsPath(c.f, path) && i < |path| && path[i] == DefBlock(c, x)
    ensures DefIndex(c, x) <= Len(c, DefBlock(c, x)) && Avail(c, y, path[..i + 1], DefIndex(c, x))
  {
    hide Sem, Avail;
    YAtDef(c, x, y, path, i);
  }

  /** In another block y comes first. */
  lemma YBeforeX(c: Ctx, x: Value, y: Value, path: seq<nat>, first: nat, g: nat)
    requires IsPath(c.f, path)
    requires SameAtDefs(c, x, y, path)
    requires HasDef(c, y) && !y.Const? && !y.Arg? && DefBlock(c, y) != DefBlock(c, x)
    requires first < |path| && forall j :: 0 <= j < first ==> path[j] != DefBlock(c, y)
    requires g < first
    ensures path[g] != DefBlock(c, x)
  {
    if path[g] == DefBlock(c, x) {
      YAtDef(c, x, y, path, g);
    }
  }

  lemma DefinedOnCut(c: Ctx, x: Value, path: seq<nat>, k: nat, first: nat, j: nat, q: int)
    requires first <= j < |path|
    requires DefinedAt(c, x, path[..first + 1] + path[j + 1..], k, q)
    ensures q <= first ==> path[q] == DefBlock(c, x)
    ensures q > first ==> DefinedAt(c, x, path, k, q - first + j)
  {
  }

  /** y cannot be recomputed in another block after the last time x was computed:
      cutting the detour that leads to it would give a path on which x is missing. */
  lemma NoRecomputeElsewhere(c: Ctx, x: Value, y: Value, path: seq<nat>, b: nat, k: nat, i: nat, j: nat)
    requires PathTo(c.f, path, b)
    requires AlwaysAvail(c, x, b, k) && !x.Const? && !x.Arg?
    requires SameAtDefs(c, x, y, path)
    requires IsLastDef(c, x, path, k, i)
    requires HasDef(c, y) && !y.Const? && !y.Arg? && DefBlock(c, y) != DefBlock(c, x)
    requires i < j < |path|
    ensures path[j] != DefBlock(c, y)
  {
    hide Sem;
    if path[j] == DefBlock(c, y) {
      var first := FirstIndex(path, DefBlock(c, y));
      CutIsPath(c.f, path, first, j);
      var cut := path[..first + 1] + path[j + 1..];
      assert Avail(c, x, cut, k);
      var q :| DefinedAt(c, x, cut, k, q);
      DefinedOnCut(c, x, path, k, first, j, q);
      if q < first {
        YBeforeX(c, x, y, path, first, q);
      }
    }
  }

  /** Nor in the same block: on the first arrival there x would be missing. */
  lemma NoRecomputeHere(c: Ctx, x: Value, y: Value, path: seq<nat>, b: nat, k: nat, i: nat, j: nat)
    requires PathTo(c.f, path, b)
    requires AlwaysAvail(c, x, b, k) && !x.Const? && !x.Arg?
    requires SameAtDefs(c, x, y, path)
    requires IsLastDef(c, x, path, k, i)
    requires HasDef(c, y) && !y.Const? && !y.Arg? && DefBlock(c, y) == DefBlock(c, x)
    requires DefinedAt(c, y, path, k, j)
    ensures j <= i && DefIndex(c, y) <= DefIndex(c, x)
  {
    hide Sem, SameAtDefs, AlwaysAvail;
    var first := FirstIndex(path, DefBlock(c, x));
    AvailAtDef(c, x, y, path, first);
    FirstArrival(c, y, path, first, DefIndex(c, x));
    if j > i {
      assert !DefinedAt(c, x, path, k, j);
      assert b == DefBlock(c, x);
      AvailBefore(c, x, b, k, path);
    }
  }

  lemma NotRecomputed(c: Ctx, x: Value, y: Value, path: seq<nat>, b: nat, k: nat, i: nat, j: nat)
    requires PathTo(c.f, path, b)
    requires AlwaysAvail(c, x, b, k) && !x.Const? && !x.Arg?
    requires SameAtDefs(c, x, y, path)
    requires IsLastDef(c, x, path, k, i)
    requires HasDef(c, y) && !y.Const? && !y.Arg?
    requires DefinedAt(c, y, path, k, j)
    ensures j <= i && DefinedAt(c, y, path[..i + 1], DefIndex(c, x), j)
  {
    if DefBlock(c, y) == DefBlock(c, x) {
      NoRecomputeHere(c, x, y, path, b, k, i, j);
    } else if j > i {
      NoRecomputeElsewhere(c, x, y, path, b, k, i, j);
    }
  }

  /** What is last defined on a path before i is last defined on its prefix. */
  lemma LastDefOnPrefix(c: Ctx, y: Value, path: seq<nat>, k: nat, i: nat, k': nat, j: nat)
    requires i < |path| && (i < |path| - 1 || k' <= k)
    requires IsLastDef(c, y, path, k, j)
    requires DefinedAt(c, y, path[..i + 1], k', j)
    ensures IsLastDef(c, y, path[..i + 1], k', j)
  {
    var prefix := path[..i + 1];
    forall j' | j < j' < |prefix|
      ensures !DefinedAt(c, y, prefix, k', j')
    {
      if DefinedAt(c, y, prefix, k', j') {
        DefinedOnPrefix(c, y, path, k, i, k', j');
      }
    }
  }

  lemma SameLastDef(c: Ctx, run: Setting, y: Value, path: seq<nat>, k: nat, i: nat, k': nat, j: nat)
    requires GoodDefs(c)
    requires IsPath(c.f, path) && k <= Len(c, path[|path| - 1])
    requires i < |path| && k' <= Len(c, path[i])
    requires IsLastDef(c, y, path, k, j)
    requires IsLastDef(c, y, path[..i + 1], k', j)
    ensures IsPath(c.f, path[..i + 1])
    ensures Sem(c, run, y, path, k) == Sem(c, run, y, path[..i + 1], k')
  {
    hide Sem;
    hide GoodDefs;
    PrefixIsPath(c.f, path, i);
    SemStable(c, run, y, path, k, j);
    SemStable(c, run, y, path[..i + 1], k', j);
    assert path[..i + 1][..j + 1] == path[..j + 1];
  }

  lemma SemOfLeaf(c: Ctx, run: Setting, y: Value, path: seq<nat>, k: nat, path': seq<nat>, k': nat)
    requires y.Const? || y.Arg?
    requires IsPath(c.f, path) && k <= Len(c, path[|path| - 1])
    requires IsPath(c.f, path') && k' <= Len(c, path'[|path'| - 1])
    ensures Sem(c, run, y, path, k) == Sem(c, run, y, path', k')
  {
  }

  /** Where y was last computed when x was. */
  lemma LastDefOfOther(c: Ctx, x: Value, y: Value, path: seq<nat>, b: nat, k: nat, i: nat) returns (j: nat)
    requires PathTo(c.f, path, b) && k <= Len(c, b)
    requires AlwaysAvail(c, x, b, k) && !x.Const? && !x.Arg? && !y.Const? && !y.Arg?
    requires SameAtDefs(c, x, y, path) && IsLastDef(c, x, path, k, i)
    requires Avail(c, y, path[..i + 1], DefIndex(c, x))
    ensures IsLastDef(c, y, path, k, j) && IsLastDef(c, y, path[..i + 1], DefIndex(c, x), j)
  {
    hide Sem;
    var kx := DefIndex(c, x);
    var d :| DefinedAt(c, y, path[..i + 1], kx, d);
    DefinedOnPrefix(c, y, path, k, i, kx, d);
    j := LastDef(c, y, path, k, |path|);
    NotRecomputed(c, x, y, path, b, k, i, j);
    LastDefOnPrefix(c, y, path, k, i, kx, j);
  }

  /** The replacement lemma, on one path. */
  lemma ReplaceOn(c: Ctx, x: Value, y: Value, path: seq<nat>, b: nat, k: nat)
    requires GoodDefs(c) && PathTo(c.f, path, b) && k <= Len(c, b)
    requires AlwaysAvail(c, x, b, k) && !x.Const? && !x.Arg?
    requires SameAtDefs(c, x, y, path)
    ensures SoundOn(c, y, ValueOf(x), path, k)
  {
    hide Sem;
    hide GoodDefs;
    assert Avail(c, x, path, k);
    var i := LastDef(c, x, path, k, |path|);
    var prefix := path[..i + 1];
    var kx := DefIndex(c, x);
    YAtDef(c, x, y, path, i);
    assert SoundOn(c, y, ValueOf(x), prefix, kx);
    var leaf := y.Const? || y.Arg?;
    var j := 0;
    if !leaf {
      j := LastDefOfOther(c, x, y, path, b, k, i);
    }
    forall run: Setting | c.machines(run.m)
      ensures Sem(c, run, y, path, k) == Sem(c, run, x, path, k)
    {
      SemStable(c, run, x, path, k, i);
      assert Sem(c, run, y, prefix, kx) == Meaning(c, run, ValueOf(x), prefix, kx);
      if leaf {
        SemOfLeaf(c, run, y, path, k, prefix, kx);
      } else {
        SameLastDef(c, run, y, path, k, i, kx, j);
      }
    }
  }

  /** A value that may replace x keeps every fact known about x. */
  lemma ReplaceSound(c: Ctx, x: Value, y: Value, t: Target, b: nat, k: nat)
    requires GoodEdges(c) && GoodDefs(c)
    requires MayReplace(c, x, y) && !x.Const? && !x.Arg?
    requires Sound(c, x, t, b, k)
    ensures Sound(c, y, t, b, k)
  {
    forall path | PathTo(c.f, path, b)
      ensures SoundOn(c, y, t, path, k)
    {
      forall p | PathTo(c.f, p, b)
        ensures Avail(c, x, p, k)
      {
        assert SoundOn(c, x, t, p, k);
      }
      ReplaceOn(c, x, y, path, b, k);
      assert SoundOn(c, x, t, path, k);
    }
  }
}
