/** rand.Shuffle: the Fisher–Yates pass Go's math/rand runs over a slice,
    with the random numbers taken from a stream. Draw number `d` of the
    stream is `rng(d)`; the swap partner of position `i` is that draw
    reduced to the range 0..i. */
module Shuffling {

  /** The pass over positions `i` down to 1, the first draw being number
      `draws`. */
  function ShuffleFrom<T>(a: seq<T>, i: int, rng: nat -> nat, draws: nat): (r: seq<T>)
    requires i < |a|
    ensures |r| == |a|
    decreases i
  {
    if i <= 0 then a
    else
      var j := Partner(rng(draws), i);
      ShuffleFrom(a[i := a[j]][j := a[i]], i - 1, rng, draws + 1)
  }

  /** The swap partner of position `i` for random number `n`: `n` reduced
      to the range 0..i. */
  function Partner(n: nat, i: nat): (j: nat)
    ensures j <= i
  {
    n % (i + 1)
  }

  /** The whole pass over `a`. */
  function Shuffled<T>(a: seq<T>, rng: nat -> nat, draws: nat): (r: seq<T>)
    ensures |r| == |a|
  {
    ShuffleFrom(a, |a| - 1, rng, draws)
  }

  /** How many draws a pass over `n` elements takes. */
  function ShuffleDraws(n: nat): nat {
    if n > 1 then n - 1 else 0
  }

  lemma SwapPermutes<T>(a: seq<T>, i: nat, j: nat)
    requires i < |a| && j < |a|
    ensures multiset(a[i := a[j]][j := a[i]]) == multiset(a)
  {
  }

  /** Whatever the random numbers, a shuffle only rearranges. */
  lemma {:induction false} ShuffleFromPermutes<T>(a: seq<T>, i: int, rng: nat -> nat, draws: nat)
    requires i < |a|
    ensures multiset(ShuffleFrom(a, i, rng, draws)) == multiset(a)
    decreases i
  {
    if i > 0 {
      var j := Partner(rng(draws), i);
      SwapPermutes(a, i, j);
      ShuffleFromPermutes(a[i := a[j]][j := a[i]], i - 1, rng, draws + 1);
    }
  }

  lemma ShuffledPermutes<T>(a: seq<T>, rng: nat -> nat, draws: nat)
    ensures multiset(Shuffled(a, rng, draws)) == multiset(a)
  {
    ShuffleFromPermutes(a, |a| - 1, rng, draws);
  }

  /** A fresh array holding `s`. */
  method ToArray<T>(s: seq<T>) returns (a: array<T>)
    ensures fresh(a) && a[..] == s
  {
    a := new T[|s|](k requires 0 <= k < |s| => s[k]);
  }

  /** Exchanges two elements of `a` in place. */
  method Swap<T>(a: array<T>, i: nat, j: nat)
    requires i < a.Length && j < a.Length
    modifies a
    ensures a[..] == old(a[..])[i := old(a[j])][j := old(a[i])]
  {
    var tmp := a[i];
    a[i] := a[j];
    a[j] := tmp;
  }

  /** rand.Shuffle on a copy of `pool` held in an array, swapping in place;
      also gives the number of the next unused draw. */
  method Shuffle<T>(pool: seq<T>, rng: nat -> nat, draws: nat) returns (shuffled: seq<T>, next: nat)
    ensures shuffled == Shuffled(pool, rng, draws)
    ensures next == draws + ShuffleDraws(|pool|)
  {
    var a := ToArray(pool);
    var i := a.Length - 1;
    next := draws;
    ghost var cur := pool;
    while i > 0
      invariant -1 <= i < a.Length
      invariant a.Length > 0 ==> 0 <= i
      invariant a[..] == cur
      invariant ShuffleFrom(cur, i, rng, next) == Shuffled(pool, rng, draws)
      invariant next + (if i > 0 then i else 0) == draws + ShuffleDraws(|pool|)
    {
      var j := Partner(rng(next), i);
      Swap(a, i, j);
      cur := cur[i := cur[j]][j := cur[i]];
      i := i - 1;
      next := next + 1;
    }
    shuffled := a[..];
  }
}
