/**
 Ordinal (character-code) ordering of strings, used for team names, and an
 insertion sort over it.
 */
module OrdinalString {

  /**
   Reference definition of lexicographic order: `a` is a prefix of `b`, or
   the two first differ at a position where `a` has the smaller character.
   */
  predicate LessOrEqual(a: string, b: string)
  {
    || (|a| <= |b| && a == b[..|a|])
    || exists k :: 0 <= k < |a| && k < |b| && a[..k] == b[..k] && a[k] < b[k]
  }

  predicate Less(a: string, b: string)
  {
    LessOrEqual(a, b) && a != b
  }

  /** Three-way comparison in the style of `CompareTo`: negative, zero or positive. */
  function Compare(a: string, b: string): (r: int)
    ensures -1 <= r <= 1
    ensures r == 0 <==> a == b
    decreases |a|
  {
    if |a| == 0 then (if |b| == 0 then 0 else -1)
    else if |b| == 0 then 1
    else if a[0] < b[0] then -1
    else if a[0] > b[0] then 1
    else
      var r := Compare(a[1..], b[1..]);
      assert r == 0 ==> a == [a[0]] + a[1..] == [b[0]] + b[1..] == b;
      r
  }

  lemma LessOrEqualSameHead(a: string, b: string)
    requires |a| > 0 && |b| > 0 && a[0] == b[0]
    ensures LessOrEqual(a, b) <==> LessOrEqual(a[1..], b[1..])
  {
    if LessOrEqual(a[1..], b[1..]) {
      if |a[1..]| <= |b[1..]| && a[1..] == b[1..][..|a[1..]|] {
        assert a == [a[0]] + a[1..] && b[..|a|] == [b[0]] + b[1..][..|a| - 1];
      } else {
        var k :| 0 <= k < |a[1..]| && k < |b[1..]| && a[1..][..k] == b[1..][..k] && a[1..][k] < b[1..][k];
        assert a[..k + 1] == [a[0]] + a[1..][..k] && b[..k + 1] == [b[0]] + b[1..][..k];
        assert a[k + 1] < b[k + 1];
      }
    }
    if LessOrEqual(a, b) {
      if |a| <= |b| && a == b[..|a|] {
        assert a[1..] == b[1..][..|a| - 1];
      } else {
        var k :| 0 <= k < |a| && k < |b| && a[..k] == b[..k] && a[k] < b[k];
        assert k > 0;
        assert a[1..][..k - 1] == a[..k][1..] == b[..k][1..] == b[1..][..k - 1];
        assert a[1..][k - 1] < b[1..][k - 1];
      }
    }
  }

  lemma LessOrEqualHeadsDiffer(a: string, b: string)
    requires |a| > 0 && |b| > 0 && a[0] != b[0]
    ensures LessOrEqual(a, b) <==> a[0] < b[0]
  {
    if a[0] < b[0] {
      assert a[..0] == b[..0];
    }
  }

  /** Compare orders strings exactly as the lexicographic reference does. */
  lemma {:induction false} CompareAgreesWithLessOrEqual(a: string, b: string)
    ensures Compare(a, b) <= 0 <==> LessOrEqual(a, b)
    ensures Compare(a, b) < 0 <==> Less(a, b)
    decreases |a|
  {
    if |a| == 0 {
      assert a == b[..0];
    } else if |b| > 0 {
      if a[0] == b[0] {
        LessOrEqualSameHead(a, b);
        CompareAgreesWithLessOrEqual(a[1..], b[1..]);
      } else {
        LessOrEqualHeadsDiffer(a, b);
      }
    }
  }

  lemma {:induction false} CompareAntisymmetric(a: string, b: string)
    ensures Compare(b, a) == -Compare(a, b)
    decreases |a|
  {
    if |a| > 0 && |b| > 0 && a[0] == b[0] {
      CompareAntisymmetric(a[1..], b[1..]);
    }
  }

  lemma {:induction false} CompareTransitive(a: string, b: string, c: string)
    requires Compare(a, b) <= 0 && Compare(b, c) <= 0
    ensures Compare(a, c) <= 0
    decreases |a|
  {
    if |a| > 0 && a[0] == b[0] && b[0] == c[0] {
      CompareTransitive(a[1..], b[1..], c[1..]);
    }
  }

  /** Ordinal string order is a total order. */
  lemma Total(a: string, b: string)
    ensures LessOrEqual(a, b) || LessOrEqual(b, a)
  {
    CompareAgreesWithLessOrEqual(a, b);
    CompareAgreesWithLessOrEqual(b, a);
    CompareAntisymmetric(a, b);
  }

  lemma Antisymmetric(a: string, b: string)
    requires LessOrEqual(a, b) && LessOrEqual(b, a)
    ensures a == b
  {
    CompareAgreesWithLessOrEqual(a, b);
    CompareAgreesWithLessOrEqual(b, a);
    CompareAntisymmetric(a, b);
  }

  lemma Transitive(a: string, b: string, c: string)
    requires LessOrEqual(a, b) && LessOrEqual(b, c)
    ensures LessOrEqual(a, c)
  {
    CompareAgreesWithLessOrEqual(a, b);
    CompareAgreesWithLessOrEqual(b, c);
    CompareAgreesWithLessOrEqual(a, c);
    CompareTransitive(a, b, c);
  }

  lemma LessTransitive(a: string, b: string, c: string)
    requires Less(a, b) && LessOrEqual(b, c)
    ensures Less(a, c)
  {
    Transitive(a, b, c);
    if a == c {
      Antisymmetric(a, b);
    }
  }

  predicate Sorted(s: seq<string>)
  {
    forall i, j :: 0 <= i < j < |s| ==> LessOrEqual(s[i], s[j])
  }

  lemma SortedCons(x: string, t: seq<string>)
    requires Sorted(t)
    requires forall y :: y in t ==> LessOrEqual(x, y)
    ensures Sorted([x] + t)
  {
    forall i, j | 0 <= i < j < |[x] + t|
      ensures LessOrEqual(([x] + t)[i], ([x] + t)[j])
    {
      assert ([x] + t)[j] == t[j - 1];
      if i > 0 {
        assert ([x] + t)[i] == t[i - 1];
      }
    }
  }

  lemma SortedHeadFirst(s: seq<string>)
    requires Sorted(s) && |s| > 0
    ensures forall y :: y in s ==> LessOrEqual(s[0], y)
  {
    forall y | y in s
      ensures LessOrEqual(s[0], y)
    {
      SortedHeadIsLeast(s, y);
    }
  }

  lemma InsertInFront(x: string, s: seq<string>)
    requires Sorted(s) && |s| > 0 && LessOrEqual(x, s[0])
    ensures Sorted([x] + s)
  {
    SortedHeadFirst(s);
    forall y | y in s
      ensures LessOrEqual(x, y)
    {
      Transitive(x, s[0], y);
    }
    SortedCons(x, s);
  }

  lemma InsertBehindHead(s: seq<string>, x: string, rest: seq<string>)
    requires Sorted(s) && |s| > 0 && LessOrEqual(s[0], x)
    requires Sorted(rest) && multiset(rest) == multiset(s[1..]) + multiset{x}
    ensures Sorted([s[0]] + rest)
    ensures multiset([s[0]] + rest) == multiset(s) + multiset{x}
  {
    SortedHeadFirst(s);
    forall y | y in rest
      ensures LessOrEqual(s[0], y)
    {
      assert y in multiset(rest);
      if y != x {
        assert y in multiset(s[1..]);
        assert y in s;
      }
    }
    SortedCons(s[0], rest);
    assert s == [s[0]] + s[1..];
    assert multiset(s) == multiset{s[0]} + multiset(s[1..]);
  }

  /** Inserts `x` into a sorted sequence, before the first element it does not exceed. */
  function Insert(x: string, s: seq<string>): (r: seq<string>)
    requires Sorted(s)
    ensures Sorted(r)
    ensures multiset(r) == multiset(s) + multiset{x}
    decreases |s|
  {
    if |s| == 0 then
      [x]
    else if Compare(x, s[0]) <= 0 then
      CompareAgreesWithLessOrEqual(x, s[0]);
      InsertInFront(x, s);
      [x] + s
    else
      CompareAntisymmetric(x, s[0]);
      CompareAgreesWithLessOrEqual(s[0], x);
      SortedTail(s);
      var rest := Insert(x, s[1..]);
      InsertBehindHead(s, x, rest);
      [s[0]] + rest
  }

  /** Insertion sort in ascending ordinal order. */
  function Sort(s: seq<string>): (r: seq<string>)
    ensures Sorted(r)
    ensures multiset(r) == multiset(s)
    decreases |s|
  {
    if |s| == 0 then
      []
    else
      assert s == [s[0]] + s[1..];
      Insert(s[0], Sort(s[1..]))
  }

  lemma SortedHeadIsLeast(a: seq<string>, x: string)
    requires Sorted(a) && x in multiset(a)
    ensures LessOrEqual(a[0], x)
  {
    var i :| 0 <= i < |a| && a[i] == x;
    if i == 0 {
      CompareAgreesWithLessOrEqual(x, x);
    }
  }

  lemma SortedHeadsEqual(a: seq<string>, b: seq<string>)
    requires Sorted(a) && Sorted(b) && |a| > 0
    requires multiset(a) == multiset(b)
    ensures |b| > 0 && a[0] == b[0]
  {
    assert a[0] in multiset(b);
    SortedHeadIsLeast(b, a[0]);
    assert b[0] in multiset(a);
    SortedHeadIsLeast(a, b[0]);
    Antisymmetric(a[0], b[0]);
  }

  lemma SortedTail(a: seq<string>)
    requires Sorted(a) && |a| > 0
    ensures Sorted(a[1..])
  {
    forall i, j | 0 <= i < j < |a[1..]|
      ensures LessOrEqual(a[1..][i], a[1..][j])
    {
      assert a[1..][i] == a[i + 1] && a[1..][j] == a[j + 1];
    }
  }

  lemma MultisetTails<T>(a: seq<T>, b: seq<T>)
    requires |a| > 0 && |b| > 0 && a[0] == b[0]
    requires multiset(a) == multiset(b)
    ensures multiset(a[1..]) == multiset(b[1..])
  {
    assert a == [a[0]] + a[1..] && b == [b[0]] + b[1..];
    assert multiset(a) == multiset{a[0]} + multiset(a[1..]);
    assert multiset(b) == multiset{b[0]} + multiset(b[1..]);
    assert multiset(a[1..]) == multiset(a) - multiset{a[0]};
    assert multiset(b[1..]) == multiset(b) - multiset{b[0]};
  }

  /** Two sorted arrangements of the same multiset are the same sequence. */
  lemma {:induction false} SortedPermutationsEqual(a: seq<string>, b: seq<string>)
    requires Sorted(a) && Sorted(b)
    requires multiset(a) == multiset(b)
    ensures a == b
    decreases |a|
  {
    if |a| == 0 {
      assert |b| == |multiset(b)| == 0;
    } else {
      SortedHeadsEqual(a, b);
      SortedTail(a);
      SortedTail(b);
      MultisetTails(a, b);
      SortedPermutationsEqual(a[1..], b[1..]);
      assert a == [a[0]] + a[1..] && b == [b[0]] + b[1..];
    }
  }

  /** Sorting depends only on the multiset of its input, not on the input's order. */
  lemma SortIgnoresInputOrder(a: seq<string>, b: seq<string>)
    requires multiset(a) == multiset(b)
    ensures Sort(a) == Sort(b)
  {
    SortedPermutationsEqual(Sort(a), Sort(b));
  }

}
