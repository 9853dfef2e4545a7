/** The injected random source and the Fisher–Yates `shuffle`. */
module Random {

  /** A stream of random draws: the k-th call of `Math.random` is `src(k)`.
      Every random step takes a cursor and returns the next unused one. */
  type Source = nat -> nat

  /** `Math.floor(Math.random() * n)`: the k-th draw scaled to [0, n). */
  function Draw(src: Source, k: nat, n: nat): (d: nat)
    requires n > 0
    ensures d < n
  {
    src(k) % n
  }

  /** `[a[i], a[j]] = [a[j], a[i]]`. */
  function Swap<T>(a: seq<T>, i: nat, j: nat): (b: seq<T>)
    requires i < |a| && j < |a|
    ensures |b| == |a| && b[i] == a[j] && b[j] == a[i]
    ensures forall m :: 0 <= m < |a| && m != i && m != j ==> b[m] == a[m]
  {
    a[i := a[j]][j := a[i]]
  }

  lemma SwapPermutes<T>(a: seq<T>, i: nat, j: nat)
    requires i < |a| && j < |a|
    ensures multiset(Swap(a, i, j)) == multiset(a)
  {
  }

  /** The shuffle loop from index `i` down to 1: position `i` is swapped with
      a position drawn from [0, i]. One draw is used per step. */
  function ShuffleFrom<T>(a: seq<T>, i: nat, src: Source, k: nat): (out: (seq<T>, nat))
    requires i < |a|
    ensures |out.0| == |a| && multiset(out.0) == multiset(a)
    ensures out.1 == k + i
    decreases i
  {
    if i == 0 then (a, k)
    else
      var j := Draw(src, k, i + 1);
      SwapPermutes(a, i, j);
      ShuffleFrom(Swap(a, i, j), i - 1, src, k + 1)
  }

  /** `shuffle(arr)`: a permutation of `a`, using |a| - 1 draws. */
  function Shuffle<T>(a: seq<T>, src: Source, k: nat): (out: (seq<T>, nat))
    ensures |out.0| == |a| && multiset(out.0) == multiset(a)
    ensures out.1 == if |a| == 0 then k else k + |a| - 1
  {
    if |a| == 0 then (a, k) else ShuffleFrom(a, |a| - 1, src, k)
  }

  /** Shuffling the two symbols yields one of their two orders. */
  lemma ShufflePair(src: Source, k: nat)
    ensures Shuffle([1, 2], src, k).0 == [1, 2] || Shuffle([1, 2], src, k).0 == [2, 1]
  {
    var s := Shuffle([1, 2], src, k).0;
    assert s[0] in multiset(s) && s[1] in multiset(s);
    assert 1 in multiset(s) && 2 in multiset(s);
  }
}
