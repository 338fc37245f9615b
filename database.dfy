/** The data the backend keeps: users, books and reviews, each table a map from
    the row's generated id to the row, with one auto-increment counter per
    table. `Store` is the mutable database every service operation reads and
    writes; `Tables` is its value at one moment. */
module Database {
  import opened Wrappers
  import opened Credentials
  import Text

  datatype User = User(email: string, name: string, password: PasswordHash, role: string)
  datatype Book = Book(title: string, author: string)
  datatype Review = Review(rating: int, text: string, userId: int, bookId: int)

  datatype Tables = Tables(
    users: map<int, User>,
    books: map<int, Book>,
    reviews: map<int, Review>,
    nextUserId: int,
    nextBookId: int,
    nextReviewId: int,
    defaultRole: string)

  /** Every id in `m` was handed out by a counter that now stands at `next`. */
  ghost predicate IdsBelow<V>(m: map<int, V>, next: int) {
    1 <= next && forall k | k in m :: 1 <= k < next
  }

  ghost predicate UniqueEmails(users: map<int, User>) {
    forall a, b | a in users && b in users && users[a].email == users[b].email :: a == b
  }

  ghost predicate UniqueNames(users: map<int, User>) {
    forall a, b | a in users && b in users && users[a].name == users[b].name :: a == b
  }

  /** No two books share both title and author. */
  ghost predicate UniqueTitleAuthor(books: map<int, Book>) {
    forall a, b | a in books && b in books && books[a] == books[b] :: a == b
  }

  /** Every review belongs to an existing user and an existing book. */
  ghost predicate NoDanglingReviews(t: Tables) {
    forall r | r in t.reviews :: t.reviews[r].userId in t.users && t.reviews[r].bookId in t.books
  }

  /** Every review is listed by the reviews counter and points at an existing
      user and book: what reading a row together with its reviews relies on. */
  ghost predicate Linked(t: Tables) {
    IdsBelow(t.reviews, t.nextReviewId) && NoDanglingReviews(t)
  }

  /** The invariant every operation preserves. */
  ghost predicate Consistent(t: Tables) {
    && IdsBelow(t.users, t.nextUserId)
    && IdsBelow(t.books, t.nextBookId)
    && IdsBelow(t.reviews, t.nextReviewId)
    && UniqueEmails(t.users)
    && UniqueNames(t.users)
    && UniqueTitleAuthor(t.books)
    && NoDanglingReviews(t)
  }

  ghost predicate EmailInUse(users: map<int, User>, email: string) {
    exists k | k in users :: users[k].email == email
  }

  ghost predicate NameInUse(users: map<int, User>, name: string) {
    exists k | k in users :: users[k].name == name
  }

  /** Some book other than `except` has this title and author. */
  ghost predicate PairInUse(books: map<int, Book>, title: string, author: string, except: Option<int>) {
    exists k | k in books :: books[k] == Book(title, author) && Some(k) != except
  }

  /** The ids of `m` below `hi`, in ascending order: the order in which the
      model lists rows whenever the backend reads a table without ordering it. */
  function AscendingKeys<V>(m: map<int, V>, hi: int): (ks: seq<int>)
    decreases hi
    ensures forall k :: k in ks <==> k in m && 1 <= k < hi
    ensures forall i, j | 0 <= i < j < |ks| :: ks[i] < ks[j]
  {
    if hi <= 1 then []
    else
      var below := AscendingKeys(m, hi - 1);
      assert forall i | 0 <= i < |below| :: below[i] in below;
      below + (if hi - 1 in m then [hi - 1] else [])
  }

  /** The ids of `m` from 1 up to, but excluding, `hi`. */
  ghost function KeysBelow<V>(m: map<int, V>, hi: int): set<int> {
    set k | k in m && 1 <= k < hi
  }

  /** The ascending listing holds each id once. */
  lemma {:induction false} AscendingKeysCount<V>(m: map<int, V>, hi: int)
    decreases hi
    ensures |AscendingKeys(m, hi)| == |KeysBelow(m, hi)|
  {
    if hi <= 1 {
      assert forall k | k in KeysBelow(m, hi) :: false;
      assert KeysBelow(m, hi) == {};
    } else {
      AscendingKeysCount(m, hi - 1);
      var below := KeysBelow(m, hi - 1);
      assert hi - 1 !in below;
      if hi - 1 in m {
        assert AscendingKeys(m, hi) == AscendingKeys(m, hi - 1) + [hi - 1];
        assert KeysBelow(m, hi) == below + {hi - 1};
      } else {
        assert AscendingKeys(m, hi) == AscendingKeys(m, hi - 1);
        assert KeysBelow(m, hi) == below;
      }
    }
  }

  /** A table whose ids are all below its counter is listed with exactly as
      many entries as it has rows. */
  lemma TableCount<V>(m: map<int, V>, next: int)
    requires IdsBelow(m, next)
    ensures |AscendingKeys(m, next)| == |m|
  {
    AscendingKeysCount(m, next);
    assert forall k | k in m :: k in KeysBelow(m, next);
    assert KeysBelow(m, next) == m.Keys;
  }

  /** The first id of `ks` whose row in `m` satisfies `p`: a `findFirst`. */
  function FindKey<V>(m: map<int, V>, ks: seq<int>, p: V -> bool): (r: Option<int>)
    ensures r.Some? ==> r.value in ks && r.value in m && p(m[r.value])
    ensures r.None? ==> forall k | k in ks && k in m :: !p(m[k])
  {
    if ks == [] then None
    else if ks[0] in m && p(m[ks[0]]) then Some(ks[0])
    else FindKey(m, ks[1..], p)
  }

  function UserIds(t: Tables): seq<int> {
    AscendingKeys(t.users, t.nextUserId)
  }

  function BookIds(t: Tables): seq<int> {
    AscendingKeys(t.books, t.nextBookId)
  }

  function ReviewIds(t: Tables): seq<int> {
    AscendingKeys(t.reviews, t.nextReviewId)
  }

  /** `findUnique({ where: { email } })` */
  function FindUserByEmail(t: Tables, email: string): (r: Option<int>)
    requires Consistent(t)
    ensures r.Some? ==> r.value in t.users && t.users[r.value].email == email
    ensures r.None? <==> !EmailInUse(t.users, email)
  {
    FindKey(t.users, UserIds(t), (u: User) => u.email == email)
  }

  /** `findFirst({ where: { name } })` */
  function FindUserByName(t: Tables, name: string): (r: Option<int>)
    requires Consistent(t)
    ensures r.Some? ==> r.value in t.users && t.users[r.value].name == name
    ensures r.None? <==> !NameInUse(t.users, name)
  {
    FindKey(t.users, UserIds(t), (u: User) => u.name == name)
  }

  /** The ids of the reviews satisfying `p`, in ascending order. */
  function ReviewIdsWhere(t: Tables, p: Review -> bool): (ids: seq<int>)
    requires IdsBelow(t.reviews, t.nextReviewId)
    ensures forall k :: k in ids <==> k in t.reviews && p(t.reviews[k])
    ensures forall i, j | 0 <= i < j < |ids| :: ids[i] < ids[j]
  {
    var reviews := t.reviews;
    FilterIds(ReviewIds(t), k => k in reviews && p(reviews[k]))
  }

  /** When no review satisfies `p`, the filtered list is empty. */
  lemma NoReviewWhere(t: Tables, p: Review -> bool)
    requires IdsBelow(t.reviews, t.nextReviewId)
    requires forall k | k in t.reviews :: !p(t.reviews[k])
    ensures ReviewIdsWhere(t, p) == []
  {
    var reviews := t.reviews;
    FilterNone(ReviewIds(t), k => k in reviews && p(reviews[k]));
  }

  lemma {:induction false} FilterNone(ids: seq<int>, p: int -> bool)
    requires forall i, j | 0 <= i < j < |ids| :: ids[i] < ids[j]
    requires forall k | k in ids :: !p(k)
    ensures FilterIds(ids, p) == []
  {
    if ids != [] {
      FilterNone(ids[1..], p);
    }
  }

  /** `ids.filter(p)` for a strictly increasing list of ids. */
  function FilterIds(ids: seq<int>, p: int -> bool): (r: seq<int>)
    requires forall i, j | 0 <= i < j < |ids| :: ids[i] < ids[j]
    ensures forall k :: k in r <==> k in ids && p(k)
    ensures forall i, j | 0 <= i < j < |r| :: r[i] < r[j]
  {
    if ids == [] then []
    else
      var rest := FilterIds(ids[1..], p);
      assert forall i | 0 <= i < |rest| :: rest[i] in rest;
      assert forall k | k in rest :: ids[0] < k;
      (if p(ids[0]) then [ids[0]] else []) + rest
  }

  function EmptyTables(defaultRole: string): (t: Tables)
    ensures Consistent(t)
  {
    Tables(map[], map[], map[], 1, 1, 1, defaultRole)
  }

  /** The database. Its fields are the tables and counters; the services read
      and assign them. */
  class Store {
    /** The role the schema gives a new user when none is supplied. */
    const defaultRole: string
    var users: map<int, User>
    var books: map<int, Book>
    var reviews: map<int, Review>
    var nextUserId: int
    var nextBookId: int
    var nextReviewId: int

    function Snapshot(): Tables
      reads this
    {
      Tables(users, books, reviews, nextUserId, nextBookId, nextReviewId, defaultRole)
    }

    ghost predicate Valid()
      reads this
    {
      Consistent(Snapshot())
    }

    constructor (defaultRole: string)
      ensures Valid()
      ensures Snapshot() == EmptyTables(defaultRole)
    {
      this.defaultRole := defaultRole;
      users, books, reviews := map[], map[], map[];
      nextUserId, nextBookId, nextReviewId := 1, 1, 1;
    }
  }
}
