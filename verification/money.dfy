/**
  Monetary amounts. The application keeps prices and totals as `decimal`; the model
  uses exact rationals, so sums and products carry no rounding.
*/
module Money {
  import opened Sorting

  type Money = real

  /** The sum of `f` over the elements of `s`, added from left to right. */
  function Sum<T>(s: seq<T>, f: T -> Money): Money
  {
    if |s| == 0 then 0.0 else f(s[0]) + Sum(s[1..], f)
  }

  /** The sum over a concatenation is the sum of the two parts. */
  lemma {:induction false} SumConcat<T>(a: seq<T>, b: seq<T>, f: T -> Money)
    ensures Sum(a + b, f) == Sum(a, f) + Sum(b, f)
  {
    if |a| == 0 {
      assert a + b == b;
    } else {
      assert (a + b)[1..] == a[1..] + b;
      SumConcat(a[1..], b, f);
    }
  }

  /** Taking one element out of a sequence takes its amount out of the sum. */
  lemma {:induction false} SumRemove<T>(b: seq<T>, j: nat, f: T -> Money)
    requires j < |b|
    ensures Sum(b, f) == f(b[j]) + Sum(b[..j] + b[j + 1..], f)
  {
    assert b == b[..j] + ([b[j]] + b[j + 1..]);
    SumConcat(b[..j], [b[j]] + b[j + 1..], f);
    assert ([b[j]] + b[j + 1..])[1..] == b[j + 1..];
    SumConcat(b[..j], b[j + 1..], f);
  }

  /** The order in which amounts are added does not matter: reordered sequences have equal sums. */
  lemma {:induction false} SumPermutation<T>(a: seq<T>, b: seq<T>, f: T -> Money)
    requires multiset(a) == multiset(b)
    ensures Sum(a, f) == Sum(b, f)
    decreases |a|
  {
    if |a| == 0 {
      assert |b| == |multiset(b)| == 0;
    } else {
      assert a[0] in multiset(b);
      var j :| 0 <= j < |b| && b[j] == a[0];
      RestPermutation(a, b, j);
      SumPermutation(a[1..], b[..j] + b[j + 1..], f);
      SumRemove(b, j, f);
    }
  }
}
