/**
The in-place shuffle of math/rand/v2: from the last position down, each element is swapped with one drawn
from the positions up to its own. The draws are a parameter.
*/
module Shuffling {
  // draws[i] is the position swapped with position i.
  predicate Draws(draws: seq<nat>, n: nat) {
    |draws| == n && forall i :: 0 <= i < n ==> draws[i] <= i
  }

  function Swap<T>(s: seq<T>, i: nat, j: nat): (r: seq<T>)
    requires i < |s| && j < |s|
    ensures |r| == |s|
  {
    s[i := s[j]][j := s[i]]
  }

  // The swaps that are left when i positions are.
  function ShuffleFirst<T>(s: seq<T>, i: nat, draws: seq<nat>): (r: seq<T>)
    requires i <= |s| && i <= |draws| && Draws(draws[..i], i)
    ensures |r| == |s|
    decreases i
  {
    if i == 0 then s
    else
      assert forall k :: 0 <= k < i ==> draws[..i][k] == draws[k];
      ShuffleFirst(Swap(s, i - 1, draws[i - 1]), i - 1, draws)
  }

  function ShuffleBy<T>(s: seq<T>, draws: seq<nat>): (r: seq<T>)
    requires Draws(draws, |s|)
    ensures |r| == |s|
  {
    assert draws[..|s|] == draws;
    ShuffleFirst(s, |s|, draws)
  }

  lemma {:induction false} SwapPermutes<T>(s: seq<T>, i: nat, j: nat)
    requires i < |s| && j < |s|
    ensures multiset(Swap(s, i, j)) == multiset(s)
  {
  }

  lemma {:induction false} ShuffleFirstPermutes<T>(s: seq<T>, i: nat, draws: seq<nat>)
    requires i <= |s| && i <= |draws| && Draws(draws[..i], i)
    ensures multiset(ShuffleFirst(s, i, draws)) == multiset(s)
    decreases i
  {
    if i > 0 {
      assert draws[..i][..i - 1] == draws[..i - 1] && draws[..i][i - 1] == draws[i - 1];
      ShuffleFirstPermutes(Swap(s, i - 1, draws[i - 1]), i - 1, draws);
      SwapPermutes(s, i - 1, draws[i - 1]);
    }
  }

  lemma {:induction false} ShufflePermutes<T>(s: seq<T>, draws: seq<nat>)
    requires Draws(draws, |s|)
    ensures multiset(ShuffleBy(s, draws)) == multiset(s)
  {
    assert draws[..|s|] == draws;
    ShuffleFirstPermutes(s, |s|, draws);
  }

  // Draws beyond the positions left make no difference.
  lemma {:induction false} LaterDrawsIgnored<T>(s: seq<T>, i: nat, draws: seq<nat>, more: seq<nat>)
    requires i <= |s| && i <= |draws| && i <= |more| && draws[..i] == more[..i] && Draws(draws[..i], i)
    ensures ShuffleFirst(s, i, draws) == ShuffleFirst(s, i, more)
    decreases i
  {
    if i > 0 {
      assert draws[i - 1] == draws[..i][i - 1] == more[..i][i - 1] == more[i - 1];
      assert draws[..i - 1] == draws[..i][..i - 1] == more[..i][..i - 1] == more[..i - 1];
      LaterDrawsIgnored(Swap(s, i - 1, draws[i - 1]), i - 1, draws, more);
    }
  }

  lemma {:induction false} FindElement<T>(s: seq<T>, x: T) returns (i: nat)
    requires x in s
    ensures i < |s| && s[i] == x
  {
    i :| 0 <= i < |s| && s[i] == x;
  }

  lemma {:induction false} SplitLast<T>(s: seq<T>, i: nat)
    requires 0 < i <= |s|
    ensures multiset(s[..i]) == multiset(s[..i - 1]) + multiset{s[i - 1]}
  {
    assert s[..i] == s[..i - 1] + [s[i - 1]];
  }

  lemma {:induction false} CancelOne<T>(a: multiset<T>, b: multiset<T>, x: T)
    requires a + multiset{x} == b + multiset{x}
    ensures a == b
  {
    assert a == (a + multiset{x}) - multiset{x} && b == (b + multiset{x}) - multiset{x};
  }

  lemma {:induction false} SwapWithin<T>(s: seq<T>, i: nat, j: nat)
    requires j <= i < |s|
    ensures multiset(Swap(s, i, j)[..i + 1]) == multiset(s[..i + 1]) && Swap(s, i, j)[i + 1..] == s[i + 1..]
  {
    assert Swap(s, i, j)[..i + 1] == Swap(s[..i + 1], i, j);
    SwapPermutes(s[..i + 1], i, j);
  }

  lemma {:induction false} EveryFirstIsDrawn<T>(s: seq<T>, order: seq<T>, i: nat) returns (draws: seq<nat>)
    requires i <= |s| == |order| && multiset(order[..i]) == multiset(s[..i]) && order[i..] == s[i..]
    ensures Draws(draws, i) && draws[..i] == draws && ShuffleFirst(s, i, draws) == order
    decreases i
  {
    if i == 0 {
      draws := [];
      assert order[0..] == order && s[0..] == s;
    } else {
      SplitLast(order, i);
      assert order[i - 1] in multiset(s[..i]);
      var j := FindElement(s[..i], order[i - 1]);
      var swapped := Swap(s, i - 1, j);
      SwapWithin(s, i - 1, j);
      SplitLast(swapped, i);
      assert swapped[i - 1] == order[i - 1];
      CancelOne(multiset(order[..i - 1]), multiset(swapped[..i - 1]), order[i - 1]);
      assert order[i - 1..] == [order[i - 1]] + order[i..] && swapped[i - 1..] == [swapped[i - 1]] + swapped[i..];
      var rest := EveryFirstIsDrawn(swapped, order, i - 1);
      draws := rest + [j];
      assert draws[..i - 1] == rest && draws[..i] == draws;
      LaterDrawsIgnored(swapped, i - 1, rest, draws);
    }
  }

  // No order of the elements is out of reach.
  lemma {:induction false} EveryOrderIsDrawn<T>(s: seq<T>, order: seq<T>) returns (draws: seq<nat>)
    requires multiset(order) == multiset(s)
    ensures Draws(draws, |s|) && ShuffleBy(s, draws) == order
  {
    assert |multiset(order)| == |order| && |multiset(s)| == |s|;
    assert order[..|s|] == order && s[..|s|] == s;
    draws := EveryFirstIsDrawn(s, order, |s|);
  }

  method RandomDraws(n: nat) returns (draws: seq<nat>)
    ensures Draws(draws, n)
  {
    draws := [];
    while |draws| < n
      invariant Draws(draws, |draws|) && |draws| <= n
    {
      var j: nat :| j <= |draws|;
      draws := draws + [j];
    }
  }

  method Shuffle<T>(a: array<T>, draws: seq<nat>)
    requires Draws(draws, a.Length)
    modifies a
    ensures a[..] == ShuffleBy(old(a[..]), draws)
  {
    var i := a.Length;
    assert draws[..i] == draws;
    while i > 0
      invariant 0 <= i <= a.Length && Draws(draws[..i], i)
      invariant ShuffleFirst(a[..], i, draws) == ShuffleBy(old(a[..]), draws)
    {
      i := i - 1;
      assert draws[..i + 1][..i] == draws[..i] && draws[..i + 1][i] == draws[i];
      ghost var before := a[..];
      a[i], a[draws[i]] := a[draws[i]], a[i];
      assert a[..] == Swap(before, i, draws[i]);
    }
  }
}
