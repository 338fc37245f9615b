/** The "favoriteGenre" statistic, which is in fact the most-reviewed author:
    the authors of a user's reviewed books are counted into a dictionary, and
    its keys are then reduced, keeping the running choice only when its count
    is strictly greater, so that among equally counted authors the later key
    wins. Keys are taken in order of first appearance. */
module Favorites {
  import opened Wrappers

  /** How many times `a` occurs in `s`. */
  function Occurrences(s: seq<string>, a: string): nat {
    if s == [] then 0
    else Occurrences(s[..|s| - 1], a) + (if s[|s| - 1] == a then 1 else 0)
  }

  /** The distinct elements of `s` in order of first appearance: the order in
      which `authorCounts` receives its keys. */
  function FirstAppearances(s: seq<string>): (keys: seq<string>)
    ensures forall a :: a in keys <==> a in s
  {
    if s == [] then []
    else
      var keys := FirstAppearances(s[..|s| - 1]);
      if s[|s| - 1] in keys then keys else keys + [s[|s| - 1]]
  }

  lemma {:induction false} OccurrencesOfAbsent(s: seq<string>, a: string)
    requires a !in s
    ensures Occurrences(s, a) == 0
  {
    if s != [] {
      OccurrencesOfAbsent(s[..|s| - 1], a);
    }
  }

  lemma OccurrencesSnoc(s: seq<string>, x: string)
    ensures forall a :: Occurrences(s + [x], a) == Occurrences(s, a) + (if x == a then 1 else 0)
    ensures FirstAppearances(s + [x]) == if x in s then FirstAppearances(s) else FirstAppearances(s) + [x]
  {
    assert (s + [x])[..|s|] == s;
  }

  /** The `forEach` that fills `authorCounts`: one key per distinct author, in
      order of first appearance, mapped to that author's number of reviews. */
  method CountAuthors(authors: seq<string>) returns (keys: seq<string>, counts: map<string, int>)
    ensures keys == FirstAppearances(authors)
    ensures forall a :: a in counts <==> a in authors
    ensures forall a | a in counts :: counts[a] == Occurrences(authors, a)
  {
    keys, counts := [], map[];
    for i := 0 to |authors|
      invariant keys == FirstAppearances(authors[..i])
      invariant forall a :: a in counts <==> a in authors[..i]
      invariant forall a | a in counts :: counts[a] == Occurrences(authors[..i], a)
    {
      var author := authors[i];
      assert authors[..i + 1] == authors[..i] + [author];
      OccurrencesSnoc(authors[..i], author);
      if author !in counts {
        OccurrencesOfAbsent(authors[..i], author);
      }
      if author !in counts {
        keys := keys + [author];
      }
      counts := counts[author := (if author in counts then counts[author] else 0) + 1];
    }
    assert authors[..|authors|] == authors;
  }

  /** `r` is the key at some position `i` whose count no earlier key exceeds
      and every later key falls short of. */
  ghost predicate Leads(keys: seq<string>, counts: map<string, int>, r: string)
    requires forall k | k in keys :: k in counts
  {
    exists i | 0 <= i < |keys| ::
      && keys[i] == r
      && (forall j | 0 <= j < i :: counts[keys[j]] <= counts[r])
      && (forall j | i < j < |keys| :: counts[keys[j]] < counts[r])
  }

  /** `keys.reduce((a, b) => counts[a] > counts[b] ? a : b)`: a key with the
      highest count, every later key counting strictly less, so that on a tie
      the later key wins. */
  function PickFavorite(keys: seq<string>, counts: map<string, int>): (r: string)
    requires keys != []
    requires forall k | k in keys :: k in counts
    ensures Leads(keys, counts, r)
    decreases |keys|
  {
    if |keys| == 1 then
      assert keys[0] == keys[0];
      keys[0]
    else
      var a := PickFavorite(keys[..|keys| - 1], counts);
      var b := keys[|keys| - 1];
      PickStep(keys, counts, a);
      if counts[a] > counts[b] then a else b
  }

  /** One step of the `reduce`: the leader of all keys but the last, against
      the last key. */
  lemma PickStep(keys: seq<string>, counts: map<string, int>, a: string)
    requires |keys| >= 2 && forall k | k in keys :: k in counts
    requires Leads(keys[..|keys| - 1], counts, a)
    ensures var b := keys[|keys| - 1];
            Leads(keys, counts, if counts[a] > counts[b] then a else b)
  {
    var init := keys[..|keys| - 1];
    var n := |keys| - 1;
    var i :| 0 <= i < |init| && init[i] == a
      && (forall j | 0 <= j < i :: counts[init[j]] <= counts[a])
      && (forall j | i < j < |init| :: counts[init[j]] < counts[a]);
    if counts[a] > counts[keys[n]] {
      assert keys[i] == a;
      assert forall j | 0 <= j < i :: counts[keys[j]] <= counts[a] by {
        forall j | 0 <= j < i ensures counts[keys[j]] <= counts[a] { assert keys[j] == init[j]; }
      }
      assert forall j | i < j < |keys| :: counts[keys[j]] < counts[a] by {
        forall j | i < j < |keys| ensures counts[keys[j]] < counts[a] {
          if j < n { assert keys[j] == init[j]; }
        }
      }
    } else {
      forall j | 0 <= j < n ensures counts[keys[j]] <= counts[keys[n]] {
        assert keys[j] == init[j];
        if j != i {
          assert counts[init[j]] <= counts[a];
        }
      }
    }
  }

  /** `favorite` is what `favoriteGenre` promises for these authors: absent
      exactly when there are none; otherwise an author that no other author
      outnumbers, and every author whose first review comes later has
      strictly fewer reviews (on a tie the later key wins). */
  ghost predicate IsFavorite(authors: seq<string>, favorite: Option<string>) {
    && (favorite.None? <==> authors == [])
    && (favorite.Some? ==>
          && favorite.value in authors
          && (forall a | a in authors :: Occurrences(authors, a) <= Occurrences(authors, favorite.value))
          && LaterKeysFewer(authors, favorite.value))
  }

  /** `f` is a key of `authorCounts` after which every key counts less. */
  ghost predicate LaterKeysFewer(authors: seq<string>, f: string) {
    var keys := FirstAppearances(authors);
    exists i | 0 <= i < |keys| ::
      && keys[i] == f
      && forall j | i < j < |keys| :: Occurrences(authors, keys[j]) < Occurrences(authors, f)
  }

  /** `favoriteGenre`: the dictionary of counts, then the `reduce` over its
      keys. */
  method FavoriteAuthor(authors: seq<string>) returns (favorite: Option<string>)
    ensures IsFavorite(authors, favorite)
  {
    var keys, counts := CountAuthors(authors);
    if |keys| > 0 {
      var f := PickFavorite(keys, counts);
      favorite := Some(f);
      forall a | a in authors
        ensures Occurrences(authors, a) <= Occurrences(authors, f)
      {
        assert a in keys;
      }
    } else {
      favorite := None;
    }
  }

  /** Examples: authors A, A, B give A; on a tie, as with A, B, B, A, the
      author whose first review comes later wins. */
  lemma FavoriteExamples()
    ensures FirstAppearances(["A", "A", "B"]) == ["A", "B"]
    ensures PickFavorite(["A", "B"], map["A" := 2, "B" := 1]) == "A"
    ensures FirstAppearances(["A", "B", "B", "A"]) == ["A", "B"]
    ensures PickFavorite(["A", "B"], map["A" := 2, "B" := 2]) == "B"
  {
    assert ["A", "A", "B"][..2] == ["A", "A"] && ["A", "A"][..1] == ["A"] && ["A"][..0] == [];
    assert ["A", "B", "B", "A"][..3] == ["A", "B", "B"] && ["A", "B", "B"][..2] == ["A", "B"];
    assert ["A", "B"][..1] == ["A"];
  }
}
