/** Paths through the control-flow graph of a function.  A path starts at the entry. */
module Cfg {
  import opened IR

  ghost predicate Edge(f: Func, p: nat, b: nat) {
    p < |f.blocks| && b < |f.blocks| && b in Succs(f.blocks[p].term)
  }

  ghost predicate Step(f: Func, path: seq<nat>, i: nat) {
    i + 1 < |path| && Edge(f, path[i], path[i + 1])
  }

  ghost predicate IsPath(f: Func, path: seq<nat>) {
    && |path| > 0
    && |f.blocks| > 0
    && path[0] == 0
    && (forall i :: 0 <= i < |path| ==> path[i] < |f.blocks|)
    && (forall i :: 0 <= i < |path| - 1 ==> Step(f, path, i))
  }

  ghost predicate PathTo(f: Func, path: seq<nat>, b: nat) {
    IsPath(f, path) && path[|path| - 1] == b
  }

  ghost predicate Reachable(f: Func, b: nat) {
    exists path :: PathTo(f, path, b)
  }

  ghost predicate AllReachable(f: Func) {
    forall b :: 0 <= b < |f.blocks| ==> Reachable(f, b)
  }

  /** Predecessor arrays agree with the terminators. */
  ghost predicate GoodGraph(f: Func, preds: seq<seq<nat>>) {
    && |f.blocks| > 0
    && ValidTargets(f)
    && |preds| == |f.blocks|
    && (forall b, p :: 0 <= b < |preds| ==> (p in preds[b] <==> Edge(f, p, b)))
  }

  lemma PredsAreEdges(f: Func, preds: seq<seq<nat>>, b: nat)
    requires GoodGraph(f, preds)
    ensures |preds| == |f.blocks| > 0
    ensures b < |preds| ==> forall p :: p in preds[b] <==> Edge(f, p, b)
  {
  }

  lemma PrefixIsPath(f: Func, path: seq<nat>, i: nat)
    requires IsPath(f, path) && i < |path|
    ensures PathTo(f, path[..i + 1], path[i])
  {
    var prefix := path[..i + 1];
    forall j | 0 <= j < i
      ensures Step(f, prefix, j)
    {
      assert Step(f, path, j);
    }
  }

  lemma ExtendIsPath(f: Func, path: seq<nat>, b: nat, t: nat)
    requires PathTo(f, path, b) && Edge(f, b, t)
    ensures PathTo(f, path + [t], t) && (path + [t])[..|path|] == path
  {
    var q := path + [t];
    forall i | 0 <= i < |q| - 1
      ensures Step(f, q, i)
    {
      if i < |path| - 1 {
        assert Step(f, path, i);
      }
    }
  }

  /** Cutting a detour out of a path. */
  lemma CutIsPath(f: Func, path: seq<nat>, i: nat, j: nat)
    requires IsPath(f, path) && i <= j < |path| && path[i] == path[j]
    ensures PathTo(f, path[..i + 1] + path[j + 1..], path[|path| - 1])
  {
    var q := path[..i + 1] + path[j + 1..];
    forall x | 0 <= x < |q| - 1
      ensures Step(f, q, x)
    {
      if x < i {
        assert Step(f, path, x);
      } else {
        assert Step(f, path, x - i + j);
        assert q[x] == path[x - i + j] && q[x + 1] == path[x - i + j + 1];
      }
    }
  }
}
