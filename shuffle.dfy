/**
 * The Fisher–Yates shuffle the game runs on its deck and on the mission
 * catalog. The random index drawn at step `i` (a value in 0..i) is an input:
 * `picks[i]`.
 */
module Shuffle {

  /** `picks` supplies, for each step i in 1..n-1, an index in 0..i. */
  predicate ValidPicks(picks: seq<int>, n: nat) {
    |picks| == n && forall i :: 0 < i < n ==> 0 <= picks[i] <= i
  }

  function Swap<T>(s: seq<T>, i: nat, j: nat): (r: seq<T>)
    requires i < |s| && j < |s|
    ensures |r| == |s| && r[i] == s[j] && r[j] == s[i]
    ensures forall k :: 0 <= k < |s| && k != i && k != j ==> r[k] == s[k]
  {
    s[i := s[j]][j := s[i]]
  }

  /** The steps i, i-1, ..., 1 of the shuffle, each swapping position i with `picks[i]`. */
  function ShuffleFrom<T>(s: seq<T>, picks: seq<int>, i: int): (r: seq<T>)
    requires ValidPicks(picks, |s|) && i < |s|
    ensures |r| == |s|
    decreases i
  {
    if i <= 0 then s else ShuffleFrom(Swap(s, i, picks[i]), picks, i - 1)
  }

  /** The whole shuffle, from the last position down to position 1. */
  function Shuffled<T>(s: seq<T>, picks: seq<int>): (r: seq<T>)
    requires ValidPicks(picks, |s|)
    ensures |r| == |s|
  {
    ShuffleFrom(s, picks, |s| - 1)
  }

  /** A shuffle only reorders: the result is a permutation of the input. */
  lemma {:induction false} ShuffleFromPermutes<T>(s: seq<T>, picks: seq<int>, i: int)
    requires ValidPicks(picks, |s|) && i < |s|
    ensures |ShuffleFrom(s, picks, i)| == |s|
    ensures multiset(ShuffleFrom(s, picks, i)) == multiset(s)
    decreases i
  {
    if i > 0 {
      var t := Swap(s, i, picks[i]);
      assert multiset(t) == multiset(s) by {
        assert t == s[i := s[picks[i]]][picks[i] := s[i]];
      }
      ShuffleFromPermutes(t, picks, i - 1);
    }
  }

  lemma ShuffledPermutes<T>(s: seq<T>, picks: seq<int>)
    requires ValidPicks(picks, |s|)
    ensures |Shuffled(s, picks)| == |s|
    ensures multiset(Shuffled(s, picks)) == multiset(s)
  {
    ShuffleFromPermutes(s, picks, |s| - 1);
  }

  /** `shuffleArray`: the shuffle done in place on an array. */
  method ShuffleArray<T>(a: array<T>, picks: seq<int>)
    requires ValidPicks(picks, a.Length)
    modifies a
    ensures a[..] == Shuffled(old(a[..]), picks)
    ensures multiset(a[..]) == multiset(old(a[..]))
  {
    var i := a.Length - 1;
    while i > 0
      invariant -1 <= i < a.Length
      invariant ShuffleFrom(a[..], picks, i) == Shuffled(old(a[..]), picks)
      decreases i
    {
      var j := picks[i];
      a[i], a[j] := a[j], a[i];
      i := i - 1;
    }
    ShuffledPermutes(old(a[..]), picks);
  }
}
