/** The rating aggregates. Ratings are integers; the backend's average is
    `Math.round((total / count) * 10) / 10`, a float with one decimal. Here it is
    kept exactly, as a whole number of tenths: 4.5 is 45 and 3.3 is 33. */
module Aggregates {

  /** Reference sum of the ratings. */
  function Sum(rs: seq<int>): int {
    if rs == [] then 0 else rs[0] + Sum(rs[1..])
  }

  /** `rs.reduce((sum, r) => sum + r, acc)`: JavaScript's left fold. */
  function Reduce(acc: int, rs: seq<int>): int
    decreases rs
  {
    if rs == [] then acc else Reduce(acc + rs[0], rs[1..])
  }

  lemma {:induction false} ReduceIsSum(acc: int, rs: seq<int>)
    ensures Reduce(acc, rs) == acc + Sum(rs)
    decreases rs
  {
    if rs != [] {
      ReduceIsSum(acc + rs[0], rs[1..]);
    }
  }

  /** `Math.round((total / n) * 10)`, i.e. ten times the mean rounded to the
      nearest integer with halves rounded up: the result `t` is the integer
      with `t - 1/2 <= 10 * total / n < t + 1/2`. */
  function RoundTenths(total: int, n: int): (t: int)
    requires n > 0
    ensures 2 * n * t <= 20 * total + n < 2 * n * (t + 1)
  {
    (20 * total + n) / (2 * n)
  }

  /** The average rating in tenths, 0 when there is no rating. The backend
      writes this formula out in five places; each place is modelled on its
      own and proved equal to this one. */
  function AverageTenths(rs: seq<int>): (t: int)
    ensures rs == [] ==> t == 0
    ensures rs != [] ==> 2 * |rs| * t <= 20 * Sum(rs) + |rs| < 2 * |rs| * (t + 1)
  {
    if |rs| == 0 then 0 else RoundTenths(Sum(rs), |rs|)
  }

  lemma {:induction false} SumBounds(rs: seq<int>, lo: int, hi: int)
    requires forall i | 0 <= i < |rs| :: lo <= rs[i] <= hi
    ensures |rs| * lo <= Sum(rs) <= |rs| * hi
  {
    if rs != [] {
      SumBounds(rs[1..], lo, hi);
      assert |rs| * lo == lo + (|rs| - 1) * lo;
      assert |rs| * hi == hi + (|rs| - 1) * hi;
    }
  }

  lemma MulCancel(n: int, a: int, b: int)
    requires n > 0 && n * a < n * b
    ensures a < b
  {
  }

  /** A mean of at most `hi`, rounded to tenths, is at most `10 * hi`. */
  lemma TenthsAtMost(n: int, s: int, t: int, hi: int)
    requires n > 0 && s <= n * hi && 2 * n * t <= 20 * s + n
    ensures t <= 10 * hi
  {
    assert 20 * s <= 20 * (n * hi);
    assert 2 * n * t < 2 * n * (10 * hi + 1);
    MulCancel(2 * n, t, 10 * hi + 1);
  }

  /** A mean of at least `lo`, rounded to tenths, is at least `10 * lo`. */
  lemma TenthsAtLeast(n: int, s: int, t: int, lo: int)
    requires n > 0 && n * lo <= s && 20 * s + n < 2 * n * (t + 1)
    ensures 10 * lo <= t
  {
    assert 20 * (n * lo) <= 20 * s;
    assert 2 * n * (10 * lo) < 2 * n * (t + 1);
    MulCancel(2 * n, 10 * lo, t + 1);
  }

  /** The rounded average lies between the smallest and the largest rating. */
  lemma AverageWithinRatings(rs: seq<int>, lo: int, hi: int)
    requires rs != []
    requires forall i | 0 <= i < |rs| :: lo <= rs[i] <= hi
    ensures 10 * lo <= AverageTenths(rs) <= 10 * hi
  {
    SumBounds(rs, lo, hi);
    TenthsAtMost(|rs|, Sum(rs), AverageTenths(rs), hi);
    TenthsAtLeast(|rs|, Sum(rs), AverageTenths(rs), lo);
  }

  /** Examples: no ratings give 0, 4 and 5 average to 4.5, and 3, 3 and 4
      to 3.3. */
  lemma AverageExamples()
    ensures AverageTenths([]) == 0
    ensures AverageTenths([4, 5]) == 45
    ensures AverageTenths([3, 3, 4]) == 33
  {
    assert Sum([4, 5]) == 9 by { assert [4, 5][1..] == [5]; }
    assert Sum([3, 3, 4]) == 10 by { assert [3, 3, 4][1..] == [3, 4]; assert [3, 4][1..] == [4]; }
  }
}
