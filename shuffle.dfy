/** The Fisher–Yates shuffle used by the start-puzzle route and by the client's
    shuffle button. `Math.floor(Math.random() * (i + 1))` is the `i`-th entry of
    `draws`, which is therefore at most `i`. */
module Shuffle {

  predicate ValidDraws(draws: seq<nat>) {
    forall i :: 0 <= i < |draws| ==> draws[i] <= i
  }

  function Swap<T>(s: seq<T>, i: nat, j: nat): (r: seq<T>)
    requires i < |s| && j < |s|
    ensures |r| == |s| && r[i] == s[j] && r[j] == s[i]
    ensures forall k :: 0 <= k < |s| && k != i && k != j ==> r[k] == s[k]
  {
    s[i := s[j]][j := s[i]]
  }

  /** The sequence after the swaps at positions `|s| - 1` down to `from`. */
  function SwapsFrom<T>(s: seq<T>, draws: seq<nat>, from: nat): (r: seq<T>)
    requires |draws| >= |s| && ValidDraws(draws)
    ensures |r| == |s|
    decreases |s| - from
  {
    if from >= |s| then s else
      var t := SwapsFrom(s, draws, from + 1);
      Swap(t, from, draws[from])
  }

  /** The loop runs for `i = n - 1` down to `1`. */
  function Shuffled<T>(s: seq<T>, draws: seq<nat>): seq<T>
    requires |draws| >= |s| && ValidDraws(draws)
  {
    SwapsFrom(s, draws, 1)
  }

  lemma SwapPermutes<T>(s: seq<T>, i: nat, j: nat)
    requires i < |s| && j < |s|
    ensures multiset(Swap(s, i, j)) == multiset(s)
  {
    var t := s[i := s[j]];
    assert multiset(t) == multiset(s) - multiset{s[i]} + multiset{s[j]};
    assert multiset(t[j := s[i]]) == multiset(t) - multiset{t[j]} + multiset{s[i]};
  }

  lemma {:induction false} SwapsFromPermutes<T>(s: seq<T>, draws: seq<nat>, from: nat)
    requires |draws| >= |s| && ValidDraws(draws)
    ensures multiset(SwapsFrom(s, draws, from)) == multiset(s)
    decreases |s| - from
  {
    if from < |s| {
      SwapsFromPermutes(s, draws, from + 1);
      SwapPermutes(SwapsFrom(s, draws, from + 1), from, draws[from]);
    }
  }

  /** Shuffling rearranges the words: each occurs exactly as often as before. */
  lemma ShuffledPermutes<T>(s: seq<T>, draws: seq<nat>)
    requires |draws| >= |s| && ValidDraws(draws)
    ensures |Shuffled(s, draws)| == |s|
    ensures multiset(Shuffled(s, draws)) == multiset(s)
  {
    SwapsFromPermutes(s, draws, 1);
  }

  /** The shuffle loop, in place. */
  method FisherYates<T>(a: array<T>, draws: seq<nat>)
    requires |draws| >= a.Length && ValidDraws(draws)
    modifies a
    ensures a[..] == Shuffled(old(a[..]), draws)
  {
    var i := a.Length - 1;
    while i > 0
      invariant -1 <= i < a.Length
      invariant a[..] == SwapsFrom(old(a[..]), draws, i + 1)
    {
      var j := draws[i];
      a[i], a[j] := a[j], a[i];
      i := i - 1;
    }
  }
}
