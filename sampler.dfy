/**
 * `sampleQuestions(arr, n)`: a Fisher-Yates shuffle of a copy of the bank,
 * from the last position down to position 1, followed by the first
 * min(n, |arr|) entries. The random choice made at position i is injected
 * as draws[i], a number in [0, i].
 */
module Sampler {

  /** The draws the shuffle of a sequence of length n may use: one per position, never beyond that position. */
  predicate ValidDraws(draws: seq<nat>, n: nat)
  {
    |draws| == n && forall i :: 0 <= i < n ==> draws[i] <= i
  }

  function Min(a: int, b: int): int
  {
    if a <= b then a else b
  }

  /** `[s[i], s[j]] = [s[j], s[i]]` */
  function Swap<T>(s: seq<T>, i: nat, j: nat): (r: seq<T>)
    requires i < |s| && j < |s|
    ensures |r| == |s|
    ensures r[i] == s[j] && r[j] == s[i]
    ensures forall k :: 0 <= k < |s| && k != i && k != j ==> r[k] == s[k]
  {
    s[i := s[j]][j := s[i]]
  }

  /** The loop iterations for positions i, i-1, ..., 1, applied to `s`. */
  function ShuffleFrom<T>(s: seq<T>, draws: seq<nat>, i: nat): (r: seq<T>)
    requires i < |s| && ValidDraws(draws, |s|)
    ensures |r| == |s|
    decreases i
  {
    if i == 0 then s else ShuffleFrom(Swap(s, i, draws[i]), draws, i - 1)
  }

  /** The whole shuffle of a copy of `s`. */
  function Shuffle<T>(s: seq<T>, draws: seq<nat>): (r: seq<T>)
    requires ValidDraws(draws, |s|)
    ensures |r| == |s|
  {
    if s == [] then s else ShuffleFrom(s, draws, |s| - 1)
  }

  lemma SwapPermutes<T>(s: seq<T>, i: nat, j: nat)
    requires i < |s| && j < |s|
    ensures multiset(Swap(s, i, j)) == multiset(s)
  {
  }

  lemma {:induction false} ShuffleFromPermutes<T>(s: seq<T>, draws: seq<nat>, i: nat)
    requires i < |s| && ValidDraws(draws, |s|)
    ensures multiset(ShuffleFrom(s, draws, i)) == multiset(s)
    decreases i
  {
    if i > 0 {
      SwapPermutes(s, i, draws[i]);
      ShuffleFromPermutes(Swap(s, i, draws[i]), draws, i - 1);
    }
  }

  /** The shuffle only reorders: it is a permutation of `s`. */
  lemma ShufflePermutes<T>(s: seq<T>, draws: seq<nat>)
    requires ValidDraws(draws, |s|)
    ensures multiset(Shuffle(s, draws)) == multiset(s)
  {
    if s != [] {
      ShuffleFromPermutes(s, draws, |s| - 1);
    }
  }

  /** The positions 0, 1, ..., n-1. */
  function Iota(n: nat): (r: seq<nat>)
    ensures |r| == n && forall k :: 0 <= k < n ==> r[k] == k
  {
    seq(n, k => k)
  }

  predicate InRange(t: seq<nat>, n: nat)
  {
    forall k :: 0 <= k < |t| ==> t[k] < n
  }

  predicate Distinct(t: seq<nat>)
  {
    forall k, l :: 0 <= k < l < |t| ==> t[k] != t[l]
  }

  /** The entries of `base` at the positions `t`. */
  function Pick<T>(base: seq<T>, t: seq<nat>): (r: seq<T>)
    requires InRange(t, |base|)
    ensures |r| == |t| && forall k :: 0 <= k < |t| ==> r[k] == base[t[k]]
  {
    seq(|t|, k requires 0 <= k < |t| => base[t[k]])
  }

  /** Shuffling the entries at some positions is picking the entries at the shuffled positions. */
  lemma {:induction false} ShuffleFromPick<T>(base: seq<T>, t: seq<nat>, draws: seq<nat>, i: nat)
    requires InRange(t, |base|) && i < |t| && ValidDraws(draws, |t|)
    ensures InRange(ShuffleFrom(t, draws, i), |base|)
    ensures ShuffleFrom(Pick(base, t), draws, i) == Pick(base, ShuffleFrom(t, draws, i))
    decreases i
  {
    if i > 0 {
      var t' := Swap(t, i, draws[i]);
      assert Swap(Pick(base, t), i, draws[i]) == Pick(base, t');
      ShuffleFromPick(base, t', draws, i - 1);
    }
  }

  lemma SwapDistinct(t: seq<nat>, i: nat, j: nat, n: nat)
    requires i < |t| && j < |t| && InRange(t, n) && Distinct(t)
    ensures InRange(Swap(t, i, j), n) && Distinct(Swap(t, i, j))
  {
    var t' := Swap(t, i, j);
    forall k, l | 0 <= k < l < |t'| ensures t'[k] != t'[l] {
      var k0 := if k == i then j else if k == j then i else k;
      var l0 := if l == i then j else if l == j then i else l;
      assert t'[k] == t[k0] && t'[l] == t[l0] && k0 != l0;
    }
  }

  /** The shuffle moves positions without duplicating any. */
  lemma {:induction false} ShuffleFromDistinct(t: seq<nat>, draws: seq<nat>, i: nat, n: nat)
    requires i < |t| && ValidDraws(draws, |t|) && InRange(t, n) && Distinct(t)
    ensures InRange(ShuffleFrom(t, draws, i), n) && Distinct(ShuffleFrom(t, draws, i))
    decreases i
  {
    if i > 0 {
      var t' := Swap(t, i, draws[i]);
      SwapDistinct(t, i, draws[i], n);
      ShuffleFromDistinct(t', draws, i - 1, n);
      assert ShuffleFrom(t, draws, i) == ShuffleFrom(t', draws, i - 1);
    } else {
      assert ShuffleFrom(t, draws, i) == t;
    }
  }

  /** The bank positions the shuffle brings to the front, in order. */
  function ShuffledPositions(n: nat, draws: seq<nat>): (p: seq<nat>)
    requires ValidDraws(draws, n)
  {
    Shuffle(Iota(n), draws)
  }

  /** Picking every position in order gives back the sequence. */
  lemma PickAll<T>(s: seq<T>)
    ensures InRange(Iota(|s|), |s|) && Distinct(Iota(|s|)) && Pick(s, Iota(|s|)) == s
  {
  }

  /**
   * The shuffle is a permutation of positions: entry k of the shuffled copy
   * is the bank entry at position p[k], and no position occurs twice.
   */
  lemma ShuffleIsPermutationOfPositions<T>(s: seq<T>, draws: seq<nat>)
    requires ValidDraws(draws, |s|)
    ensures var p := ShuffledPositions(|s|, draws);
      |p| == |s| && InRange(p, |s|) && Distinct(p) && Shuffle(s, draws) == Pick(s, p)
  {
    var n := |s|;
    var t := Iota(n);
    PickAll(s);
    if n > 0 {
      ShuffleFromPick(s, t, draws, n - 1);
      ShuffleFromDistinct(t, draws, n - 1, n);
      assert ShuffledPositions(n, draws) == ShuffleFrom(t, draws, n - 1);
    }
  }

  lemma PrefixMultiset<T>(s: seq<T>, k: nat)
    requires k <= |s|
    ensures multiset(s[..k]) <= multiset(s)
  {
    assert s == s[..k] + s[k..];
  }

  /** What `sampleQuestions(arr, n)` returns for the given draws: the first min(n, |arr|) entries of the shuffle. */
  function Sample<T>(arr: seq<T>, n: nat, draws: seq<nat>): (r: seq<T>)
    requires ValidDraws(draws, |arr|)
    ensures |r| == Min(n, |arr|)
  {
    Shuffle(arr, draws)[..Min(n, |arr|)]
  }

  /**
   * `sampleQuestions(arr, n)`: shuffles a copy of `arr` in place and returns
   * its first min(n, |arr|) entries. `arr` itself is a value and stays as it is.
   */
  method SampleQuestions<T>(arr: seq<T>, n: nat, draws: seq<nat>) returns (r: seq<T>)
    requires ValidDraws(draws, |arr|)
    ensures r == Sample(arr, n, draws)
  {
    var copy := new T[|arr|](k requires 0 <= k < |arr| => arr[k]);
    assert copy[..] == arr;
    var i := copy.Length - 1;
    while i > 0
      invariant -1 <= i < copy.Length
      invariant i == -1 ==> copy[..] == arr == []
      invariant i >= 0 ==> ShuffleFrom(copy[..], draws, i) == Shuffle(arr, draws)
    {
      ghost var before := copy[..];
      var j := draws[i];
      var tmp := copy[i];
      copy[i] := copy[j];
      copy[j] := tmp;
      assert copy[..] == Swap(before, i, j);
      assert ShuffleFrom(before, draws, i) == ShuffleFrom(copy[..], draws, i - 1);
      i := i - 1;
    }
    var shuffled := copy[..];
    assert shuffled == Shuffle(arr, draws);
    r := shuffled[..Min(n, copy.Length)];
  }

  /** The sample takes every bank entry at most as often as the bank holds it. */
  lemma SampleWithinBank<T>(arr: seq<T>, n: nat, draws: seq<nat>)
    requires ValidDraws(draws, |arr|)
    ensures multiset(Sample(arr, n, draws)) <= multiset(arr)
  {
    ShufflePermutes(arr, draws);
    PrefixMultiset(Shuffle(arr, draws), Min(n, |arr|));
  }

  /**
   * The sample is drawn from distinct bank positions: sample entry k is the
   * bank entry at position p[k], and the positions are pairwise different.
   * (The bank may hold equal questions at different positions, so the sampled
   * questions themselves need not be different.)
   */
  lemma SampleAtDistinctPositions<T>(arr: seq<T>, n: nat, draws: seq<nat>)
    requires ValidDraws(draws, |arr|)
    ensures var r := Sample(arr, n, draws);
      var p := ShuffledPositions(|arr|, draws)[..|r|];
      InRange(p, |arr|) && Distinct(p) && forall k :: 0 <= k < |r| ==> r[k] == arr[p[k]]
  {
    ShuffleIsPermutationOfPositions(arr, draws);
  }
}
