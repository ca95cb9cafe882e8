/** Counting facts about sets and sequences. */
module Collections {

  lemma SubsetCard<T>(a: set<T>, b: set<T>)
    requires a <= b
    ensures |a| <= |b|
  {
    if a != {} {
      var x :| x in a;
      SubsetCard(a - {x}, b - {x});
    }
  }

  lemma InAppend(s: seq<nat>, b: nat)
    ensures forall x :: x in s + [b] <==> x in s || x == b
  {
  }

  ghost predicate Distinct<T>(s: seq<T>) {
    forall i, j :: 0 <= i < j < |s| ==> s[i] != s[j]
  }

  function Below(n: nat): set<nat> {
    if n == 0 then {} else Below(n - 1) + {n - 1}
  }

  lemma {:induction false} BelowCard(n: nat)
    ensures (forall x: nat :: x in Below(n) <==> x < n) && |Below(n)| == n
  {
    if n > 0 {
      BelowCard(n - 1);
      var last: nat, rest := n - 1, Below(n - 1);
      assert Below(n) == rest + {last} && last !in rest;
      hide Below;
      forall x: nat
        ensures x in rest + {last} <==> x < n
      {
      }
    }
  }

  lemma {:induction false} DistinctCard<T>(s: seq<T>)
    requires Distinct(s)
    ensures |(set x | x in s)| == |s|
  {
    if s != [] {
      var last := |s| - 1;
      DistinctCard(s[..last]);
      assert (set x | x in s) == (set x | x in s[..last]) + {s[last]};
    } else {
      assert (set x | x in s) == {};
    }
  }

  lemma DistinctBelow(s: seq<nat>, n: nat)
    requires Distinct(s) && forall i :: 0 <= i < |s| ==> s[i] < n
    ensures |s| <= n
    ensures (forall x: nat :: x < n ==> x in s) ==> |s| == n
  {
    DistinctCard(s);
    BelowCard(n);
    var elements := set x | x in s;
    SubsetCard(elements, Below(n));
    if forall x: nat :: x < n ==> x in s {
      assert elements == Below(n);
    }
  }

  /** More entries than values: one value is there twice. */
  lemma Repeats(s: seq<nat>, n: nat) returns (i: nat, j: nat)
    requires |s| > n && forall i :: 0 <= i < |s| ==> s[i] < n
    ensures i < j < |s| && s[i] == s[j]
  {
    if Distinct(s) {
      DistinctBelow(s, n);
      assert false;
    } else {
      i, j :| 0 <= i < j < |s| && s[i] == s[j];
    }
  }
}
