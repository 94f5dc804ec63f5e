/** Permutations of sequences and how an element-wise projection carries them. */
module Permutation {

  /** The element-wise projection `Select(f)`. */
  function Map<T, U>(f: T -> U, s: seq<T>): (r: seq<U>)
    ensures |r| == |s|
    ensures forall k :: 0 <= k < |s| ==> r[k] == f(s[k])
  {
    seq(|s|, k requires 0 <= k < |s| => f(s[k]))
  }

  lemma MapAppend<T, U>(f: T -> U, x: seq<T>, y: seq<T>)
    ensures Map(f, x + y) == Map(f, x) + Map(f, y)
  {
  }

  lemma AddCancel<T>(m: multiset<T>, m': multiset<T>, x: T)
    requires m + multiset{x} == m' + multiset{x}
    ensures m == m'
  {
    assert m == (m + multiset{x}) - multiset{x};
    assert m' == (m' + multiset{x}) - multiset{x};
  }

  /** Splitting `b` around position j: the element there, and the rest in order. */
  lemma Around<T, U>(f: T -> U, b: seq<T>, j: nat)
    requires j < |b|
    ensures multiset(b) == multiset(b[..j] + b[j + 1..]) + multiset{b[j]}
    ensures multiset(Map(f, b)) == multiset(Map(f, b[..j] + b[j + 1..])) + multiset{f(b[j])}
  {
    assert b == b[..j] + [b[j]] + b[j + 1..];
    MapAppend(f, b[..j] + [b[j]], b[j + 1..]);
    MapAppend(f, b[..j], [b[j]]);
    MapAppend(f, b[..j], b[j + 1..]);
  }

  /** Projecting two permutations of each other gives permutations of each other. */
  lemma {:induction false} MapPreservesPermutation<T, U>(f: T -> U, a: seq<T>, b: seq<T>)
    requires multiset(a) == multiset(b)
    ensures multiset(Map(f, a)) == multiset(Map(f, b))
    decreases |a|
  {
    if |a| == 0 {
      assert |b| == |multiset(b)| == 0;
    } else {
      assert a[0] in multiset(b);
      var j :| 0 <= j < |b| && b[j] == a[0];
      var a', b' := a[1..], b[..j] + b[j + 1..];
      assert a[..0] + a[0 + 1..] == a';
      Around(f, a, 0);
      Around(f, b, j);
      AddCancel(multiset(a'), multiset(b'), a[0]);
      MapPreservesPermutation(f, a', b');
      calc {
        multiset(Map(f, a));
        multiset(Map(f, a')) + multiset{f(a[0])};
        multiset(Map(f, b')) + multiset{f(b[j])};
        multiset(Map(f, b));
      }
    }
  }

}
