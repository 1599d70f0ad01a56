/** The Fisher-Yates shuffle of the answer pool. */
module Shuffle {

  /** `s` with the elements at positions `i` and `j` exchanged. */
  function Swap<T>(s: seq<T>, i: nat, j: nat): (r: seq<T>)
    requires i < |s| && j < |s|
    ensures |r| == |s|
  {
    seq(|s|, k requires 0 <= k < |s| => if k == j then s[i] else if k == i then s[j] else s[k])
  }

  /** A swap keeps the same elements, each as often as before. */
  lemma SwapIsPermutation<T>(s: seq<T>, i: nat, j: nat)
    requires i < |s| && j < |s|
    ensures multiset(Swap(s, i, j)) == multiset(s)
  {
    var once := s[i := s[j]];
    assert Swap(s, i, j) == once[j := s[i]];
    assert multiset(once) == multiset(s) - multiset{s[i]} + multiset{s[j]};
  }

  /** The random draws of the first `|draws|` iterations over a list of
      length `n`: draw `k` is taken while the current index is `n - k`, so it
      lies in `[0, n - k)`. */
  predicate DrawsFit(draws: seq<nat>, n: nat) {
    |draws| <= n && forall k :: 0 <= k < |draws| ==> draws[k] < n - k
  }

  /** The draws of a complete run: one per element. */
  predicate IsDrawSequence(draws: seq<nat>, n: nat) {
    |draws| == n && DrawsFit(draws, n)
  }

  /** The list after the first `m` iterations: iteration `k` decrements the
      current index to `|s| - 1 - k` and swaps that position with position
      `draws[k]`. Whatever the draws, the result has the same length and
      holds the same answers, each as often as before. */
  function ShuffledUpTo<T>(s: seq<T>, draws: seq<nat>, m: nat): (r: seq<T>)
    requires DrawsFit(draws, |s|) && m <= |draws|
    ensures |r| == |s|
    decreases m
  {
    if m == 0 then s
    else Swap(ShuffledUpTo(s, draws, m - 1), |s| - m, draws[m - 1])
  }

  /** The list after all the iterations whose draws are `draws`. */
  function Shuffled<T>(s: seq<T>, draws: seq<nat>): (r: seq<T>)
    requires DrawsFit(draws, |s|)
  {
    ShuffledUpTo(s, draws, |draws|)
  }

  /** One iteration keeps the same elements. */
  lemma IterationIsPermutation<T>(s: seq<T>, draws: seq<nat>, m: nat)
    requires DrawsFit(draws, |s|) && 0 < m <= |draws|
    ensures multiset(ShuffledUpTo(s, draws, m)) == multiset(ShuffledUpTo(s, draws, m - 1))
  {
    SwapIsPermutation(ShuffledUpTo(s, draws, m - 1), |s| - m, draws[m - 1]);
  }

  /** Any number of iterations leaves a permutation of the original. */
  lemma {:induction false} ShuffledUpToIsPermutation<T>(s: seq<T>, draws: seq<nat>, m: nat)
    requires DrawsFit(draws, |s|) && m <= |draws|
    ensures multiset(ShuffledUpTo(s, draws, m)) == multiset(s)
    decreases m
  {
    if m > 0 {
      ShuffledUpToIsPermutation(s, draws, m - 1);
      IterationIsPermutation(s, draws, m);
    }
  }

  /** Whatever the draws, the shuffled list has the same length and holds
      the same answers, each as often as before. */
  lemma ShuffledIsPermutation<T>(s: seq<T>, draws: seq<nat>)
    requires DrawsFit(draws, |s|)
    ensures |Shuffled(s, draws)| == |s|
    ensures multiset(Shuffled(s, draws)) == multiset(s)
  {
    ShuffledUpToIsPermutation(s, draws, |draws|);
  }

  /** The first `m` iterations depend only on the first `m` draws. */
  lemma {:induction false} UpToUsesOnlyEarlierDraws<T>(s: seq<T>, draws: seq<nat>, more: seq<nat>, m: nat)
    requires DrawsFit(draws, |s|) && DrawsFit(more, |s|) && m <= |draws| && m <= |more|
    requires forall k :: 0 <= k < m ==> draws[k] == more[k]
    ensures ShuffledUpTo(s, draws, m) == ShuffledUpTo(s, more, m)
    decreases m
  {
    if m > 0 {
      UpToUsesOnlyEarlierDraws(s, draws, more, m - 1);
    }
  }

  // ---------------------------------------------------------------------
  // Every arrangement is reachable

  /** Swapping two positions of a list that both lie before an appended
      element leaves that element in place. */
  lemma SwapBeforeLast<T>(a: seq<T>, x: T, i: nat, j: nat)
    requires i < |a| && j < |a|
    ensures Swap(a + [x], i, j) == Swap(a, i, j) + [x]
  {
  }

  /** The draws after the first one fit the list without its last element. */
  lemma DrawsFitTail(draws: seq<nat>, n: nat)
    requires draws != [] && DrawsFit(draws, n)
    ensures draws[0] < n && DrawsFit(draws[1..], n - 1)
  {
    assert forall k :: 0 <= k < |draws| - 1 ==> draws[1..][k] == draws[k + 1];
  }

  /** The first iteration settles the last position for good: iterations
      1 to `m - 1` shuffle only the list before it, with the later draws. */
  lemma {:induction false} FirstDrawSettlesLast<T>(s: seq<T>, draws: seq<nat>, m: nat)
    requires draws != [] && DrawsFit(draws, |s|) && 1 <= m <= |draws|
    ensures ShuffledUpTo(s, draws, m) ==
      ShuffledUpTo(Swap(s, |s| - 1, draws[0])[..|s| - 1], draws[1..], m - 1) + [Swap(s, |s| - 1, draws[0])[|s| - 1]]
    decreases m
  {
    DrawsFitTail(draws, |s|);
    var n := |s|;
    var u := Swap(s, n - 1, draws[0]);
    if m == 1 {
      assert u == u[..n - 1] + [u[n - 1]];
    } else {
      FirstDrawSettlesLast(s, draws, m - 1);
      var before := ShuffledUpTo(u[..n - 1], draws[1..], m - 2);
      assert draws[1..][m - 2] == draws[m - 1];
      SwapBeforeLast(before, u[n - 1], n - m, draws[m - 1]);
    }
  }

  /** Two permutations of each other that end in the same element are
      permutations of each other without it. */
  lemma DropLastKeepsPermutation<T>(u: seq<T>, t: seq<T>)
    requires |u| == |t| > 0 && multiset(u) == multiset(t) && u[|u| - 1] == t[|t| - 1]
    ensures multiset(u[..|u| - 1]) == multiset(t[..|t| - 1])
  {
    var n := |u|;
    assert u == u[..n - 1] + [u[n - 1]];
    assert t == t[..n - 1] + [t[n - 1]];
    var x := t[n - 1];
    calc {
      multiset(u[..n - 1]);
      (multiset(u[..n - 1]) + multiset{x}) - multiset{x};
      multiset(u[..n - 1] + [u[n - 1]]) - multiset{x};
      multiset(u) - multiset{x};
      multiset(t) - multiset{x};
      multiset(t[..n - 1] + [t[n - 1]]) - multiset{x};
      (multiset(t[..n - 1]) + multiset{x}) - multiset{x};
      multiset(t[..n - 1]);
    }
  }

  /** A first draw that brings the wanted last element into place, followed
      by a run that arranges the rest, arranges the whole list. */
  lemma ReachByFirstDraw<T>(s: seq<T>, t: seq<T>, first: nat, rest: seq<nat>)
    requires |s| == |t| > 0 && first < |s| && s[first] == t[|t| - 1]
    requires IsDrawSequence(rest, |s| - 1)
    requires Shuffled(Swap(s, |s| - 1, first)[..|s| - 1], rest) == t[..|t| - 1]
    ensures IsDrawSequence([first] + rest, |s|)
    ensures Shuffled(s, [first] + rest) == t
  {
    var n := |s|;
    var draws := [first] + rest;
    assert draws[1..] == rest;
    assert forall k :: 0 <= k < |rest| ==> draws[k + 1] == rest[k];
    assert IsDrawSequence(draws, n);
    FirstDrawSettlesLast(s, draws, n);
    assert t == t[..n - 1] + [t[n - 1]];
  }

  /** For a rearrangement `t` of `s`, the first draw that brings `t`'s last
      element to the end of `s`, leaving before it a rearrangement of the
      rest of `t`. */
  lemma FirstDrawFor<T>(s: seq<T>, t: seq<T>) returns (j: nat)
    requires |s| > 0 && multiset(s) == multiset(t)
    ensures |t| == |s| && j < |s| && s[j] == t[|t| - 1]
    ensures multiset(Swap(s, |s| - 1, j)[..|s| - 1]) == multiset(t[..|t| - 1])
  {
    assert |s| == |multiset(s)| == |t|;
    var n := |s|;
    assert t[n - 1] in multiset(s);
    j :| 0 <= j < n && s[j] == t[n - 1];
    var u := Swap(s, n - 1, j);
    assert u[n - 1] == t[n - 1];
    SwapIsPermutation(s, n - 1, j);
    DropLastKeepsPermutation(u, t);
  }

  /** Every rearrangement of a list is the result of some run: no ordering
      of the answers is out of the shuffle's reach. */
  lemma {:induction false} EveryArrangementReachable<T>(s: seq<T>, t: seq<T>)
    requires multiset(s) == multiset(t)
    ensures exists draws :: IsDrawSequence(draws, |s|) && Shuffled(s, draws) == t
    decreases |s|
  {
    if |s| == 0 {
      assert |t| == |multiset(t)| == 0;
      assert IsDrawSequence([], 0) && Shuffled(s, []) == t;
    } else {
      var n := |s|;
      var j := FirstDrawFor(s, t);
      var front, wanted := Swap(s, n - 1, j)[..n - 1], t[..n - 1];
      EveryArrangementReachable(front, wanted);
      var rest :| IsDrawSequence(rest, n - 1) && Shuffled(front, rest) == wanted;
      ReachByFirstDraw(s, t, j, rest);
    }
  }

  // ---------------------------------------------------------------------
  // The loop

  /** Copies `source` into a fresh array and shuffles it in place: while the
      current index is not zero, draw an index below it, decrement it and swap
      the two positions. The draws taken are returned alongside the result;
      there is one per element. */
  method ShuffleCopy<T>(source: seq<T>) returns (shuffled: seq<T>, draws: seq<nat>)
    ensures IsDrawSequence(draws, |source|)
    ensures shuffled == Shuffled(source, draws)
    ensures multiset(shuffled) == multiset(source)
  {
    var copy := new T[|source|](i requires 0 <= i < |source| => source[i]);
    var currentIndex := copy.Length;
    draws := [];
    assert copy[..] == source;
    while currentIndex != 0
      invariant 0 <= currentIndex <= copy.Length
      invariant |draws| == copy.Length - currentIndex
      invariant DrawsFit(draws, copy.Length)
      invariant copy[..] == Shuffled(source, draws)
    {
      var randomIndex: nat :| randomIndex < currentIndex;
      ghost var before := copy[..];
      currentIndex := currentIndex - 1;
      copy[currentIndex], copy[randomIndex] := copy[randomIndex], copy[currentIndex];
      assert copy[..] == Swap(before, currentIndex, randomIndex);
      ghost var drawn := draws;
      draws := draws + [randomIndex];
      UpToUsesOnlyEarlierDraws(source, drawn, draws, |drawn|);
    }
    shuffled := copy[..];
    ShuffledIsPermutation(source, draws);
  }
}
