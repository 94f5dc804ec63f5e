/**
 Splitting a sequence into consecutive batches of bounded size, the way the
 team repository walks its identifiers with LINQ `Skip`/`Take`.
 */
module Chunking {

  function Min(a: int, b: int): int
  {
    if a <= b then a else b
  }

  /** LINQ `Skip(n)`: drops the first `n` elements, or every element when `n` is past the end. */
  function Skip<T>(s: seq<T>, n: nat): (r: seq<T>)
    ensures |r| == if n <= |s| then |s| - n else 0
    ensures forall k :: 0 <= k < |r| ==> r[k] == s[n + k]
  {
    if n <= |s| then s[n..] else []
  }

  /** LINQ `Take(n)`: keeps the first `n` elements, or all of them when there are fewer. */
  function Take<T>(s: seq<T>, n: nat): (r: seq<T>)
    ensures |r| == Min(n, |s|)
    ensures forall k :: 0 <= k < |r| ==> r[k] == s[k]
  {
    if n <= |s| then s[..n] else s
  }

  /** The number of batches of size `d` needed to cover `n` items, one batch at a time. */
  function CeilDiv(n: nat, d: nat): nat
    requires d > 0
    decreases n
  {
    if n == 0 then 0 else if n <= d then 1 else 1 + CeilDiv(n - d, d)
  }

  /** CeilDiv(n, d) is the ceiling of n / d: the least q with q * d >= n. */
  lemma {:induction false} CeilDivIsCeiling(n: nat, d: nat)
    requires d > 0
    ensures CeilDiv(n, d) * d >= n
    ensures CeilDiv(n, d) == 0 || (CeilDiv(n, d) - 1) * d < n
    decreases n
  {
    if n > d {
      var q' := CeilDiv(n - d, d);
      CeilDivIsCeiling(n - d, d);
      assert (1 + q') * d == d + q' * d;
      assert q' * d == d + (q' - 1) * d || q' == 0;
    }
  }

  /** For batches of 20, CeilDiv agrees with the integer formula (n + 19) / 20. */
  lemma {:induction false} CeilDivTwenty(n: nat)
    ensures CeilDiv(n, 20) == (n + 19) / 20
    decreases n
  {
    if n > 20 {
      CeilDivTwenty(n - 20);
    }
  }

  /** The concatenation of a sequence of sequences, in order. */
  function Flatten<T>(ss: seq<seq<T>>): seq<T>
  {
    if |ss| == 0 then [] else ss[0] + Flatten(ss[1..])
  }

  lemma {:induction false} FlattenAppend<T>(a: seq<seq<T>>, b: seq<seq<T>>)
    ensures Flatten(a + b) == Flatten(a) + Flatten(b)
    decreases |a|
  {
    if |a| == 0 {
      assert a + b == b;
    } else {
      assert (a + b)[1..] == a[1..] + b;
      FlattenAppend(a[1..], b);
    }
  }

  /** An element of the concatenation comes from one of the parts, and every part's elements are in it. */
  lemma {:induction false} InFlatten<T>(ss: seq<seq<T>>, x: T)
    ensures x in Flatten(ss) <==> exists k :: 0 <= k < |ss| && x in ss[k]
    decreases |ss|
  {
    if |ss| > 0 {
      InFlatten(ss[1..], x);
      if x in Flatten(ss[1..]) {
        var k :| 0 <= k < |ss[1..]| && x in ss[1..][k];
        assert x in ss[k + 1];
      }
      if exists k :: 0 <= k < |ss| && x in ss[k] {
        var k :| 0 <= k < |ss| && x in ss[k];
        if k > 0 {
          assert x in ss[1..][k - 1];
        }
      }
    }
  }

  /**
   Reference definition of batching: the first `size` elements form a batch
   and the rest is batched the same way.
   */
  function Batches<T>(s: seq<T>, size: nat): (r: seq<seq<T>>)
    requires size > 0
    ensures |r| == CeilDiv(|s|, size)
    ensures Flatten(r) == s
    ensures forall k :: 0 <= k < |r| ==> 0 < |r[k]| <= size
    ensures forall k :: 0 <= k < |r| - 1 ==> |r[k]| == size
    decreases |s|
  {
    if |s| == 0 then
      []
    else if |s| <= size then
      assert [s][1..] == [];
      [s]
    else
      var rest := Batches(s[size..], size);
      assert ([s[..size]] + rest)[1..] == rest;
      assert s[..size] + s[size..] == s;
      [s[..size]] + rest
  }

  lemma SkipSkip<T>(s: seq<T>, a: nat, b: nat)
    ensures Skip(Skip(s, a), b) == Skip(s, a + b)
  {
  }

  lemma BatchAtZero<T>(s: seq<T>, size: nat)
    requires size > 0
    requires |s| > 0
    ensures Batches(s, size)[0] == Take(Skip(s, 0), size)
  {
    assert Skip(s, 0) == s;
  }

  lemma BatchAtSucc<T>(s: seq<T>, size: nat, i: nat)
    requires size > 0
    requires 0 < i < |Batches(s, size)|
    ensures |s| > size
    ensures i - 1 < |Batches(s[size..], size)|
    ensures Batches(s, size)[i] == Batches(s[size..], size)[i - 1]
    ensures s[size..] == Skip(s, size)
  {
  }

  /** Kept apart from BatchAt: in that lemma's context this nonlinear step exhausts the solver. */
  lemma MulPred(i: nat, size: nat)
    requires i > 0
    ensures i * size == (i - 1) * size + size
  {
  }

  /** The i-th batch is what `Skip(i * size).Take(size)` selects. */
  lemma {:induction false} BatchAt<T>(s: seq<T>, size: nat, i: nat)
    requires size > 0
    requires i < |Batches(s, size)|
    ensures Batches(s, size)[i] == Take(Skip(s, i * size), size)
    decreases i
  {
    if i == 0 {
      BatchAtZero(s, size);
    } else {
      BatchAtSucc(s, size, i);
      BatchAt(s[size..], size, i - 1);
      SkipSkip(s, size, (i - 1) * size);
      MulPred(i, size);
    }
  }

}
