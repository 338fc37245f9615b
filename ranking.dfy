/** The top-reviewers ranking (`getUsersWithMostReviews`): every user is mapped
    to a summary with its review count and average, the summaries are sorted by
    `(a, b) => b.reviewCount - a.reviewCount` with JavaScript's stable sort,
    and the first `limit` are kept with `slice(0, limit)`. */
module Ranking {
  import opened Aggregates

  /** A user as the ranking query reads it: its ratings, in the store's order. */
  datatype UserRatings = UserRatings(id: int, name: string, email: string, ratings: seq<int>)

  datatype TopUser = TopUser(id: int, name: string, email: string, reviewCount: int, averageRating: int)

  /** The `map` step, with its own copy of the average formula. */
  function Summary(u: UserRatings): (t: TopUser)
    ensures t.id == u.id && t.name == u.name && t.email == u.email
    ensures t.reviewCount == |u.ratings|
    ensures t.averageRating == AverageTenths(u.ratings)
  {
    var n := |u.ratings|;
    ReduceIsSum(0, u.ratings);
    TopUser(u.id, u.name, u.email, n, if n > 0 then RoundTenths(Reduce(0, u.ratings), n) else 0)
  }

  function Summaries(us: seq<UserRatings>): (ts: seq<TopUser>)
    ensures |ts| == |us| && forall i | 0 <= i < |us| :: ts[i] == Summary(us[i])
  {
    seq(|us|, i requires 0 <= i < |us| => Summary(us[i]))
  }

  predicate NonIncreasing(s: seq<TopUser>) {
    forall i, j | 0 <= i < j < |s| :: s[i].reviewCount >= s[j].reviewCount
  }

  /** The entries with review count `c`, in order. */
  function WithCount(s: seq<TopUser>, c: int): seq<TopUser> {
    if s == [] then [] else (if s[0].reviewCount == c then [s[0]] else []) + WithCount(s[1..], c)
  }

  /** Places `x` before the first entry that does not count strictly more. */
  function Insert(x: TopUser, s: seq<TopUser>): (r: seq<TopUser>)
    ensures multiset(r) == multiset(s) + multiset{x}
  {
    if s == [] || x.reviewCount >= s[0].reviewCount then [x] + s
    else
      assert s == [s[0]] + s[1..];
      [s[0]] + Insert(x, s[1..])
  }

  /** A stable sort by decreasing review count (insertion sort). */
  function SortByCount(s: seq<TopUser>): (r: seq<TopUser>)
    ensures multiset(r) == multiset(s)
  {
    if s == [] then []
    else
      assert s == [s[0]] + s[1..];
      Insert(s[0], SortByCount(s[1..]))
  }

  lemma {:induction false} InsertKeepsOrder(x: TopUser, s: seq<TopUser>)
    requires NonIncreasing(s)
    ensures NonIncreasing(Insert(x, s))
  {
    if s == [] || x.reviewCount >= s[0].reviewCount {
      ConsKeepsOrder(x, s);
    } else {
      InsertKeepsOrder(x, s[1..]);
      InsertBounded(x, s[1..], s[0].reviewCount);
      ConsKeepsOrder(s[0], Insert(x, s[1..]));
    }
  }

  /** An entry counting at least as much as every entry of an ordered list
      can be put in front of it. */
  lemma ConsKeepsOrder(y: TopUser, r: seq<TopUser>)
    requires NonIncreasing(r) && forall j | 0 <= j < |r| :: r[j].reviewCount <= y.reviewCount
    ensures NonIncreasing([y] + r)
  {
    var q := [y] + r;
    forall i, j | 0 <= i < j < |q| ensures q[i].reviewCount >= q[j].reviewCount {
      assert q[j] == r[j - 1];
      if i > 0 {
        assert q[i] == r[i - 1];
      }
    }
  }

  /** Inserting into entries whose counts are at most `c` an entry whose
      count is at most `c` leaves every count at most `c`. */
  lemma {:induction false} InsertBounded(x: TopUser, s: seq<TopUser>, c: int)
    requires x.reviewCount <= c && forall j | 0 <= j < |s| :: s[j].reviewCount <= c
    ensures forall j | 0 <= j < |Insert(x, s)| :: Insert(x, s)[j].reviewCount <= c
  {
    if !(s == [] || x.reviewCount >= s[0].reviewCount) {
      InsertBounded(x, s[1..], c);
    }
  }

  /** Within one count, insertion puts `x` before the entries already there. */
  lemma {:induction false} InsertWithCount(x: TopUser, s: seq<TopUser>, c: int)
    ensures WithCount(Insert(x, s), c) == (if x.reviewCount == c then [x] else []) + WithCount(s, c)
  {
    if s == [] || x.reviewCount >= s[0].reviewCount {
      assert ([x] + s)[1..] == s;
    } else {
      var r := Insert(x, s[1..]);
      InsertWithCount(x, s[1..], c);
      assert ([s[0]] + r)[1..] == r;
      assert WithCount([s[0]] + r, c) == (if s[0].reviewCount == c then [s[0]] else []) + WithCount(r, c);
    }
  }

  /** The sort orders by decreasing count, and within each count it keeps the
      entries in their original order: it is stable (and so a permutation). */
  lemma {:induction false} SortByCountIsStable(s: seq<TopUser>)
    ensures NonIncreasing(SortByCount(s))
    ensures forall c :: WithCount(SortByCount(s), c) == WithCount(s, c)
  {
    if s != [] {
      SortByCountIsStable(s[1..]);
      InsertKeepsOrder(s[0], SortByCount(s[1..]));
      forall c ensures WithCount(SortByCount(s), c) == WithCount(s, c) {
        InsertWithCount(s[0], SortByCount(s[1..]), c);
      }
    }
  }

  lemma {:induction false} WithCountOfPrefix(s: seq<TopUser>, k: nat, c: int)
    requires k <= |s|
    ensures WithCount(s[..k], c) <= WithCount(s, c)
  {
    if k > 0 {
      WithCountOfPrefix(s[1..], k - 1, c);
      assert s[..k][1..] == s[1..][..k - 1];
    }
  }

  /** `slice(0, limit)` on an array of length `len`: a negative end counts back
      from the end of the array. */
  function SliceEnd(len: nat, limit: int): (e: nat)
    ensures e <= len
    ensures limit >= 0 ==> e == if limit < len then limit else len
    ensures limit < 0 ==> e == if len + limit > 0 then len + limit else 0
  {
    if limit >= 0 then (if limit < len then limit else len)
    else if len + limit > 0 then len + limit else 0
  }

  /** `getUsersWithMostReviews(limit)`: the first `limit` users by decreasing
      review count, each with its count and its average in tenths; users with
      equal counts keep their relative order from the store. Every summary
      left out counts no more than any summary kept. */
  function MostReviews(us: seq<UserRatings>, limit: int): (r: seq<TopUser>)
    ensures |r| == SliceEnd(|us|, limit)
    ensures NonIncreasing(r)
    ensures multiset(r) <= multiset(Summaries(us))
    ensures forall i | 0 <= i < |r| :: r[i] in Summaries(us)
    ensures forall x | x in Summaries(us) && x !in r ::
              forall i | 0 <= i < |r| :: x.reviewCount <= r[i].reviewCount
    ensures forall c :: WithCount(r, c) <= WithCount(Summaries(us), c)
  {
    var sorted := SortByCount(Summaries(us));
    SortedLength(Summaries(us));
    var r := sorted[..SliceEnd(|us|, limit)];
    SortByCountIsStable(Summaries(us));
    forall c ensures WithCount(r, c) <= WithCount(Summaries(us), c) {
      WithCountOfPrefix(sorted, |r|, c);
    }
    PrefixOfSorted(Summaries(us), sorted, |r|);
    r
  }

  /** The first `n` entries of an ordering of `s` are drawn from `s`, and
      every entry of `s` not among them counts no more than any of them. */
  lemma PrefixOfSorted(s: seq<TopUser>, sorted: seq<TopUser>, n: nat)
    requires multiset(sorted) == multiset(s) && NonIncreasing(sorted) && n <= |sorted|
    ensures multiset(sorted[..n]) <= multiset(s)
    ensures forall i | 0 <= i < n :: sorted[..n][i] in s
    ensures forall x | x in s && x !in sorted[..n] ::
              forall i | 0 <= i < n :: x.reviewCount <= sorted[..n][i].reviewCount
  {
    var r := sorted[..n];
    assert sorted == r + sorted[n..];
    forall i | 0 <= i < n ensures r[i] in s {
      assert r[i] in multiset(sorted);
    }
    forall x | x in s && x !in r ensures forall i | 0 <= i < n :: x.reviewCount <= r[i].reviewCount {
      assert x in multiset(sorted);
      var j :| 0 <= j < |sorted| && sorted[j] == x;
      assert j >= n;
    }
  }

  /** Sorting keeps the length. */
  lemma SortedLength(s: seq<TopUser>)
    ensures |SortByCount(s)| == |s|
  {
    assert |multiset(SortByCount(s))| == |multiset(s)|;
  }

  /** An entry of the ranking summarises one of the users. */
  lemma SummaryOfSome(us: seq<UserRatings>, x: TopUser)
    requires x in Summaries(us)
    ensures exists k | 0 <= k < |us| :: x == Summary(us[k])
  {
    var k :| 0 <= k < |Summaries(us)| && Summaries(us)[k] == x;
  }
}
