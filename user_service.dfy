/** The user operations (`UserService`): listing and finding users together
    with their reviews, profile updates, account deletion with its cascade,
    per-user statistics and the top-reviewers ranking. */
module UserService {
  import opened Wrappers
  import opened Errors
  import opened Credentials
  import opened Text
  import opened Database
  import opened Aggregates
  import opened Favorites
  import opened Ranking

  datatype BookRef = BookRef(id: int, title: string, author: string)

  /** A review with its book, as the user queries include it. */
  datatype ReviewWithBook = ReviewWithBook(id: int, rating: int, text: string, book: BookRef)

  /** `{ id, name, email, reviews }`: a user without the password hash. */
  datatype UserView = UserView(id: int, name: string, email: string, reviews: seq<ReviewWithBook>)

  function ReviewWithBookOf(t: Tables, rid: int): (r: ReviewWithBook)
    requires Consistent(t) && rid in t.reviews
    ensures r.id == rid && r.rating == t.reviews[rid].rating && r.text == t.reviews[rid].text
    ensures r.book.id == t.reviews[rid].bookId && r.book.author == t.books[r.book.id].author
  {
    var rv := t.reviews[rid];
    var b := t.books[rv.bookId];
    ReviewWithBook(rid, rv.rating, rv.text, BookRef(rv.bookId, b.title, b.author))
  }

  function ReviewsWithBook(t: Tables, ids: seq<int>): (rs: seq<ReviewWithBook>)
    requires Consistent(t) && forall k | k in ids :: k in t.reviews
    ensures |rs| == |ids| && forall i | 0 <= i < |ids| :: rs[i] == ReviewWithBookOf(t, ids[i])
  {
    seq(|ids|, i requires 0 <= i < |ids| => ReviewWithBookOf(t, ids[i]))
  }

  function ReviewIdsIn(rs: seq<ReviewWithBook>): (ids: seq<int>)
    ensures |ids| == |rs| && forall i | 0 <= i < |rs| :: ids[i] == rs[i].id
  {
    seq(|rs|, i requires 0 <= i < |rs| => rs[i].id)
  }

  function UserViewIds(vs: seq<UserView>): (ids: seq<int>)
    ensures |ids| == |vs| && forall i | 0 <= i < |vs| :: ids[i] == vs[i].id
  {
    seq(|vs|, i requires 0 <= i < |vs| => vs[i].id)
  }

  /** The ids of the reviews user `uid` wrote, ascending. */
  function ReviewIdsOf(t: Tables, uid: int): (ids: seq<int>)
    requires Consistent(t)
    ensures forall k :: k in ids <==> k in t.reviews && t.reviews[k].userId == uid
    ensures forall i, j | 0 <= i < j < |ids| :: ids[i] < ids[j]
  {
    ReviewIdsWhere(t, (rv: Review) => rv.userId == uid)
  }

  /** Each entry of `rs` shows its review's current rating, text and book. */
  ghost predicate ShowsReviews(t: Tables, rs: seq<ReviewWithBook>)
    requires Consistent(t)
  {
    forall i | 0 <= i < |rs| :: rs[i].id in t.reviews && rs[i] == ReviewWithBookOf(t, rs[i].id)
  }

  /** The reviews of user `uid` with their books, in id order. */
  function UserReviews(t: Tables, uid: int): (rs: seq<ReviewWithBook>)
    requires Consistent(t)
    ensures ReviewIdsIn(rs) == ReviewIdsOf(t, uid)
    ensures ShowsReviews(t, rs)
  {
    var rs := ReviewsWithBook(t, ReviewIdsOf(t, uid));
    assert ReviewIdsIn(rs) == ReviewIdsOf(t, uid);
    rs
  }

  function UserViewOf(t: Tables, uid: int): (v: UserView)
    requires Consistent(t) && uid in t.users
    ensures v.id == uid && v.name == t.users[uid].name && v.email == t.users[uid].email
    ensures v.reviews == UserReviews(t, uid)
  {
    UserView(uid, t.users[uid].name, t.users[uid].email, UserReviews(t, uid))
  }

  function UserViews(t: Tables, ids: seq<int>): (vs: seq<UserView>)
    requires Consistent(t) && forall k | k in ids :: k in t.users
    ensures UserViewIds(vs) == ids
    ensures forall i | 0 <= i < |ids| :: vs[i] == UserViewOf(t, ids[i])
  {
    var vs := seq(|ids|, i requires 0 <= i < |ids| => UserViewOf(t, ids[i]));
    assert UserViewIds(vs) == ids;
    vs
  }

  /** `getAllUsers`: every user once, in id order. */
  function GetAllUsers(t: Tables): (vs: seq<UserView>)
    requires Consistent(t)
    ensures |vs| == |t.users|
    ensures UserViewIds(vs) == UserIds(t)
    ensures forall i | 0 <= i < |vs| :: vs[i].id in t.users && vs[i] == UserViewOf(t, vs[i].id)
  {
    TableCount(t.users, t.nextUserId);
    UserViews(t, UserIds(t))
  }

  /** `getUserById`: the user with its reviews, or nothing. */
  function GetUserById(t: Tables, id: int): (r: Option<UserView>)
    requires Consistent(t)
    ensures r.None? <==> id !in t.users
    ensures r.Some? ==> r.value == UserViewOf(t, id)
  {
    if id in t.users then Some(UserViewOf(t, id)) else None
  }

  /** `getUserByEmail`: the one user holding the address, or nothing. */
  function GetUserByEmail(t: Tables, email: string): (r: Option<UserView>)
    requires Consistent(t)
    ensures r.None? <==> !EmailInUse(t.users, email)
    ensures r.Some? ==> r.value.id in t.users && r.value.email == email && r.value == UserViewOf(t, r.value.id)
  {
    match FindUserByEmail(t, email)
    case None => None
    case Some(id) => Some(UserViewOf(t, id))
  }

  /** Name or e-mail contains the query (case-sensitively). */
  predicate UserMatches(u: User, query: string) {
    Contains(u.name, query) || Contains(u.email, query)
  }

  /** `searchUsers`: exactly the users whose name or e-mail contains the
      query, in id order. */
  function SearchUsers(t: Tables, query: string): (vs: seq<UserView>)
    requires Consistent(t)
    ensures forall k :: k in UserViewIds(vs) <==> k in t.users && UserMatches(t.users[k], query)
    ensures forall i, j | 0 <= i < j < |vs| :: vs[i].id < vs[j].id
    ensures forall i | 0 <= i < |vs| :: vs[i].id in t.users && vs[i] == UserViewOf(t, vs[i].id)
  {
    var users := t.users;
    var ids := FilterIds(UserIds(t), k => k in users && UserMatches(users[k], query));
    UserViews(t, ids)
  }

  function Reverse<T(!new)>(s: seq<T>): (r: seq<T>)
    ensures |r| == |s| && forall i | 0 <= i < |s| :: r[i] == s[|s| - 1 - i]
    ensures forall x :: x in r <==> x in s
  {
    var r := seq(|s|, i requires 0 <= i < |s| => s[|s| - 1 - i]);
    assert forall i | 0 <= i < |s| :: r[|s| - 1 - i] == s[i];
    r
  }

  /** `getUserReviews`: exactly the user's reviews with their books, newest id
      first. An unknown id has no reviews. */
  function GetUserReviews(t: Tables, uid: int): (rs: seq<ReviewWithBook>)
    requires Consistent(t)
    ensures forall k :: k in ReviewIdsIn(rs) <==> k in t.reviews && t.reviews[k].userId == uid
    ensures forall i, j | 0 <= i < j < |rs| :: rs[i].id > rs[j].id
    ensures ShowsReviews(t, rs)
    ensures uid !in t.users ==> rs == []
  {
    var asc := UserReviews(t, uid);
    var rs := Reverse(asc);
    ReversedReviews(t, asc);
    assert uid !in t.users ==> ReviewIdsOf(t, uid) == [] by {
      if uid !in t.users { NoReviewsOfUnknownUser(t, uid); }
    }
    rs
  }

  /** Reversing a list of shown reviews in ascending id order keeps the same
      ids and shows the same reviews, now in descending id order. */
  lemma ReversedReviews(t: Tables, asc: seq<ReviewWithBook>)
    requires Consistent(t) && ShowsReviews(t, asc)
    requires forall i, j | 0 <= i < j < |asc| :: asc[i].id < asc[j].id
    ensures forall k :: k in ReviewIdsIn(Reverse(asc)) <==> k in ReviewIdsIn(asc)
    ensures forall i, j | 0 <= i < j < |asc| :: Reverse(asc)[i].id > Reverse(asc)[j].id
    ensures ShowsReviews(t, Reverse(asc))
  {
    var rs := Reverse(asc);
    assert ReviewIdsIn(rs) == Reverse(ReviewIdsIn(asc));
  }

  /** No review points at a user that does not exist. */
  lemma NoReviewsOfUnknownUser(t: Tables, uid: int)
    requires Consistent(t) && uid !in t.users
    ensures ReviewIdsOf(t, uid) == []
  {
    NoReviewWhere(t, (rv: Review) => rv.userId == uid);
  }

  // ---------------------------------------------------------------- updateUser

  datatype UpdateUserInput = UpdateUserInput(
    name: Option<string>, email: Option<string>, currentPassword: Option<string>, newPassword: Option<string>)

  /** `updateData`: the columns the update writes; an absent one is left as it is. */
  datatype UserPatch = UserPatch(name: Option<string>, email: Option<string>, password: Option<PasswordHash>)

  function ApplyPatch(u: User, p: UserPatch): User {
    User(p.email.GetOr(u.email), p.name.GetOr(u.name), p.password.GetOr(u.password), u.role)
  }

  /** The row `updateUser` writes, or the first error it throws: user
      missing, then a changed e-mail already in use, then a changed name
      already in use, then a new password without the current one, then a
      wrong current password. Only truthy (present, non-empty) fields count. */
  ghost function UpdatedUser(t: Tables, id: int, data: UpdateUserInput): Result<User, Error> {
    if id !in t.users then Err(Thrown(UserNotFound))
    else
      var u := t.users[id];
      if Truthy(data.email) && data.email.value != u.email && EmailInUse(t.users, data.email.value) then
        Err(Thrown(EmailTaken))
      else if Truthy(data.name) && data.name.value != u.name && NameInUse(t.users, data.name.value) then
        Err(Thrown(NameTaken))
      else if Truthy(data.newPassword) && !Truthy(data.currentPassword) then
        Err(Thrown(CurrentPasswordRequired))
      else if Truthy(data.newPassword) && !Verify(data.currentPassword.value, u.password) then
        Err(Thrown(CurrentPasswordIncorrect))
      else
        Ok(User(
          if Truthy(data.email) then data.email.value else u.email,
          if Truthy(data.name) then data.name.value else u.name,
          if Truthy(data.newPassword) then Hash(data.newPassword.value) else u.password,
          u.role))
  }

  /** A successful update keeps every e-mail and every name unique, and
      touches no other row. */
  lemma UpdateUserKeepsConsistent(t: Tables, id: int, data: UpdateUserInput)
    requires Consistent(t) && UpdatedUser(t, id, data).Ok?
    ensures Consistent(t.(users := t.users[id := UpdatedUser(t, id, data).value]))
  {
    var u := t.users[id];
    var nu := UpdatedUser(t, id, data).value;
    var t' := t.(users := t.users[id := nu]);
    assert nu.email == u.email || !EmailInUse(t.users, nu.email);
    assert nu.name == u.name || !NameInUse(t.users, nu.name);
    assert forall k | k in t.users && k != id :: t.users[k].email != nu.email && t.users[k].name != nu.name;
  }

  /** Only a caller who knows the current password can change it, and the new
      one is stored hashed; the role never changes. */
  lemma UpdateUserPasswordGate(t: Tables, id: int, data: UpdateUserInput)
    requires UpdatedUser(t, id, data).Ok?
    ensures var u := t.users[id];
            var nu := UpdatedUser(t, id, data).value;
            && nu.role == u.role
            && (nu.password != u.password ==>
                  && Truthy(data.newPassword) && data.currentPassword.Some?
                  && Verify(data.currentPassword.value, u.password)
                  && nu.password == Hash(data.newPassword.value))
  {
  }

  /** Submitting the user's own e-mail and name again skips both uniqueness
      checks and leaves the row as it was. */
  lemma UpdateUserOwnValues(t: Tables, id: int)
    requires id in t.users
    ensures var u := t.users[id];
            UpdatedUser(t, id, UpdateUserInput(Some(u.name), Some(u.email), None, None)) == Ok(u)
  {
  }

  /** The part of `updateUser` before the write: the lookup, the uniqueness
      checks, then `updateData` assembled field by field with the password
      checks; the result is the row to write or the first error. */
  method PrepareUserUpdate(t: Tables, id: int, data: UpdateUserInput) returns (res: Result<User, Error>)
    requires Consistent(t)
    ensures res == UpdatedUser(t, id, data)
  {
    if id !in t.users {
      return Err(Thrown(UserNotFound));
    }
    var user := t.users[id];
    if Truthy(data.email) && data.email.value != user.email {
      var existing := FindUserByEmail(t, data.email.value);
      if existing.Some? {
        return Err(Thrown(EmailTaken));
      }
    }
    if Truthy(data.name) && data.name.value != user.name {
      var existing := FindUserByName(t, data.name.value);
      if existing.Some? {
        return Err(Thrown(NameTaken));
      }
    }
    var patch := UserPatch(None, None, None);
    if Truthy(data.name) {
      patch := patch.(name := data.name);
    }
    if Truthy(data.email) {
      patch := patch.(email := data.email);
    }
    if Truthy(data.newPassword) {
      if !Truthy(data.currentPassword) {
        return Err(Thrown(CurrentPasswordRequired));
      }
      if !Verify(data.currentPassword.value, user.password) {
        return Err(Thrown(CurrentPasswordIncorrect));
      }
      patch := patch.(password := Some(Hash(data.newPassword.value)));
    }
    res := Ok(ApplyPatch(user, patch));
  }

  /** `updateUser`: the checks and `updateData`, then the write. */
  method UpdateUser(db: Store, id: int, data: UpdateUserInput) returns (r: Result<UserView, Error>)
    requires db.Valid()
    modifies db
    ensures db.Valid()
    ensures var s := UpdatedUser(old(db.Snapshot()), id, data);
            && (s.Err? ==> r == Err(s.error) && db.Snapshot() == old(db.Snapshot()))
            && (s.Ok? ==> db.Snapshot() == old(db.Snapshot()).(users := old(db.users)[id := s.value])
                          && r == Ok(UserViewOf(db.Snapshot(), id)))
  {
    var t := db.Snapshot();
    var res := PrepareUserUpdate(t, id, data);
    if res.Err? {
      return Err(res.error);
    }
    UpdateUserKeepsConsistent(t, id, data);
    db.users := db.users[id := res.value];
    assert db.Snapshot() == t.(users := t.users[id := res.value]);
    r := Ok(UserViewOf(db.Snapshot(), id));
  }

  // ---------------------------------------------------------------- deleteUser

  /** The tables after the user's reviews and then the user are deleted. */
  ghost function WithoutUser(t: Tables, id: int): Tables {
    t.(users := t.users - {id},
       reviews := map k | k in t.reviews && t.reviews[k].userId != id :: t.reviews[k])
  }

  /** Deleting a user leaves no review pointing at it and keeps the store
      consistent; every other user, every book and every review by someone
      else stays as it was. */
  lemma DeleteUserCascade(t: Tables, id: int)
    requires Consistent(t)
    ensures var t' := WithoutUser(t, id);
            && Consistent(t')
            && id !in t'.users
            && (forall k | k in t'.reviews :: t'.reviews[k].userId != id)
            && (forall k | k in t.users && k != id :: k in t'.users && t'.users[k] == t.users[k])
            && (forall k | k in t.reviews && t.reviews[k].userId != id :: k in t'.reviews && t'.reviews[k] == t.reviews[k])
            && t'.books == t.books
  {
  }

  /** `deleteUser`: "User not found" for an unknown id; otherwise the user's
      reviews go first, then the user, and the answer is `true`. */
  method DeleteUser(db: Store, id: int) returns (r: Result<bool, Error>)
    requires db.Valid()
    modifies db
    ensures db.Valid()
    ensures id !in old(db.users) ==> r == Err(Thrown(UserNotFound)) && db.Snapshot() == old(db.Snapshot())
    ensures id in old(db.users) ==> r == Ok(true) && db.Snapshot() == WithoutUser(old(db.Snapshot()), id)
  {
    if id !in db.users {
      return Err(Thrown(UserNotFound));
    }
    DeleteUserCascade(db.Snapshot(), id);
    var reviews := db.reviews;
    db.reviews := map k | k in reviews && reviews[k].userId != id :: reviews[k];
    db.users := db.users - {id};
    return Ok(true);
  }

  // -------------------------------------------------------------- getUserStats

  datatype UserStats = UserStats(
    id: int, name: string, email: string, reviewCount: int, averageRating: int, favoriteGenre: Option<string>)

  function Ratings(rs: seq<ReviewWithBook>): (ratings: seq<int>)
    ensures |ratings| == |rs| && forall i | 0 <= i < |rs| :: ratings[i] == rs[i].rating
  {
    seq(|rs|, i requires 0 <= i < |rs| => rs[i].rating)
  }

  function Authors(rs: seq<ReviewWithBook>): (authors: seq<string>)
    ensures |authors| == |rs| && forall i | 0 <= i < |rs| :: authors[i] == rs[i].book.author
  {
    seq(|rs|, i requires 0 <= i < |rs| => rs[i].book.author)
  }

  /** The average as `getUserStats` writes it: the mean when there are
      reviews and 0 otherwise, rounded to tenths in both cases. It agrees with
      the shared definition. */
  function StatsAverage(ratings: seq<int>): (a: int)
    ensures a == AverageTenths(ratings)
  {
    var reviewCount := |ratings|;
    ReduceIsSum(0, ratings);
    if reviewCount > 0 then RoundTenths(Reduce(0, ratings), reviewCount) else RoundTenths(0, 1)
  }

  /** The statistics `getUserStats` promises for user `id`: its name and
      e-mail, the number of its reviews, their average in tenths, and the
      most-reviewed author among them (absent exactly when there are no
      reviews; on a tie, the author whose first review comes later wins). */
  ghost predicate IsStatsOf(t: Tables, id: int, s: UserStats)
    requires Consistent(t) && id in t.users
  {
    var rs := UserReviews(t, id);
    && s.id == id && s.name == t.users[id].name && s.email == t.users[id].email
    && s.reviewCount == |ReviewIdsOf(t, id)|
    && s.averageRating == AverageTenths(Ratings(rs))
    && (s.favoriteGenre.None? <==> s.reviewCount == 0)
    && IsFavorite(Authors(rs), s.favoriteGenre)
  }

  /** `getUserStats`: nothing for an unknown user, otherwise its statistics. */
  method GetUserStats(t: Tables, id: int) returns (stats: Option<UserStats>)
    requires Consistent(t)
    ensures stats.None? <==> id !in t.users
    ensures stats.Some? ==> IsStatsOf(t, id, stats.value)
  {
    if id !in t.users {
      return None;
    }
    var user := t.users[id];
    var reviews := UserReviews(t, id);
    var reviewCount := |reviews|;
    assert reviewCount == |ReviewIdsOf(t, id)| by {
      assert ReviewIdsIn(reviews) == ReviewIdsOf(t, id);
    }
    var averageRating := StatsAverage(Ratings(reviews));
    var favoriteGenre := FavoriteAuthor(Authors(reviews));
    stats := Some(UserStats(id, user.name, user.email, reviewCount, averageRating, favoriteGenre));
  }

  // --------------------------------------------------- getUsersWithMostReviews

  /** The ratings of user `uid`'s reviews, in id order. */
  function RatingsOf(t: Tables, uid: int): (ratings: seq<int>)
    requires Consistent(t)
    ensures var ids := ReviewIdsOf(t, uid);
            |ratings| == |ids| && forall j | 0 <= j < |ids| :: ratings[j] == t.reviews[ids[j]].rating
  {
    var ids := ReviewIdsOf(t, uid);
    seq(|ids|, j requires 0 <= j < |ids| => t.reviews[ids[j]].rating)
  }

  /** The `findMany` of the ranking: every user, in id order, with the ratings
      of its reviews. */
  function RatingRows(t: Tables): (us: seq<UserRatings>)
    requires Consistent(t)
    ensures |us| == |t.users|
    ensures forall i | 0 <= i < |us| ::
              && us[i].id in t.users
              && us[i].name == t.users[us[i].id].name && us[i].email == t.users[us[i].id].email
              && us[i].ratings == RatingsOf(t, us[i].id)
  {
    TableCount(t.users, t.nextUserId);
    RatingRowsOf(t, UserIds(t))
  }

  function RatingRowsOf(t: Tables, ids: seq<int>): (us: seq<UserRatings>)
    requires Consistent(t) && forall k | k in ids :: k in t.users
    ensures |us| == |ids| && forall i | 0 <= i < |ids| :: us[i] == RatingRow(t, ids[i])
  {
    seq(|ids|, i requires 0 <= i < |ids| => RatingRow(t, ids[i]))
  }

  /** One row of the ranking query: the user with the ratings of its reviews. */
  function RatingRow(t: Tables, uid: int): (u: UserRatings)
    requires Consistent(t) && uid in t.users
    ensures u.id == uid && u.name == t.users[uid].name && u.email == t.users[uid].email
    ensures u.ratings == RatingsOf(t, uid)
  {
    UserRatings(uid, t.users[uid].name, t.users[uid].email, RatingsOf(t, uid))
  }

  /** `getUsersWithMostReviews(limit)`: the first `limit` users (counted
      back from the end for a negative limit) by decreasing review count,
      users with equal counts in id order; each entry carries the user's
      review count and average in tenths, and every user left out has no
      more reviews than any user kept. */
  function GetUsersWithMostReviews(t: Tables, limit: int): (r: seq<TopUser>)
    requires Consistent(t)
    ensures |r| == SliceEnd(|t.users|, limit)
    ensures NonIncreasing(r)
    ensures forall i | 0 <= i < |r| ::
              && r[i].id in t.users
              && r[i].name == t.users[r[i].id].name && r[i].email == t.users[r[i].id].email
              && r[i].reviewCount == |ReviewIdsOf(t, r[i].id)|
              && r[i].averageRating == AverageTenths(RatingsOf(t, r[i].id))
    ensures forall uid | uid in t.users && (forall j | 0 <= j < |r| :: r[j].id != uid) ::
              forall i | 0 <= i < |r| :: |ReviewIdsOf(t, uid)| <= r[i].reviewCount
    ensures forall c :: WithCount(r, c) <= WithCount(Summaries(RatingRows(t)), c)
  {
    var us := RatingRows(t);
    var r := MostReviews(us, limit);
    RankedEntries(t, us, r);
    LeftOutUsers(t, us, r);
    r
  }

  /** Every entry drawn from the ranking's summaries carries its user's
      name, e-mail, review count and average. */
  lemma RankedEntries(t: Tables, us: seq<UserRatings>, r: seq<TopUser>)
    requires Consistent(t) && us == RatingRows(t)
    requires forall i | 0 <= i < |r| :: r[i] in Summaries(us)
    ensures forall i | 0 <= i < |r| ::
              && r[i].id in t.users
              && r[i].name == t.users[r[i].id].name && r[i].email == t.users[r[i].id].email
              && r[i].reviewCount == |ReviewIdsOf(t, r[i].id)|
              && r[i].averageRating == AverageTenths(RatingsOf(t, r[i].id))
  {
    forall i | 0 <= i < |r|
      ensures && r[i].id in t.users
              && r[i].name == t.users[r[i].id].name && r[i].email == t.users[r[i].id].email
              && r[i].reviewCount == |ReviewIdsOf(t, r[i].id)|
              && r[i].averageRating == AverageTenths(RatingsOf(t, r[i].id))
    {
      RowSummary(t, r[i]);
    }
  }

  /** When every summary left out counts no more than those kept, so does
      every user without an entry. */
  lemma LeftOutUsers(t: Tables, us: seq<UserRatings>, r: seq<TopUser>)
    requires Consistent(t) && us == RatingRows(t)
    requires forall x | x in Summaries(us) && x !in r ::
               forall i | 0 <= i < |r| :: x.reviewCount <= r[i].reviewCount
    ensures forall uid | uid in t.users && (forall j | 0 <= j < |r| :: r[j].id != uid) ::
              forall i | 0 <= i < |r| :: |ReviewIdsOf(t, uid)| <= r[i].reviewCount
  {
    forall uid | uid in t.users && (forall j | 0 <= j < |r| :: r[j].id != uid)
      ensures forall i | 0 <= i < |r| :: |ReviewIdsOf(t, uid)| <= r[i].reviewCount
    {
      LeftOutUser(t, us, r, uid);
    }
  }

  /** A user with no entry among the kept summaries counts no more than any
      of them. */
  lemma LeftOutUser(t: Tables, us: seq<UserRatings>, r: seq<TopUser>, uid: int)
    requires Consistent(t) && uid in t.users && us == RatingRows(t)
    requires forall x | x in Summaries(us) && x !in r ::
               forall i | 0 <= i < |r| :: x.reviewCount <= r[i].reviewCount
    requires forall j | 0 <= j < |r| :: r[j].id != uid
    ensures forall i | 0 <= i < |r| :: |ReviewIdsOf(t, uid)| <= r[i].reviewCount
  {
    var k := RowOfUser(t, uid);
    var x := Summaries(us)[k];
    assert x.id == uid && x.reviewCount == |ReviewIdsOf(t, uid)|;
    assert x !in r;
  }

  /** Every user has a row in the ranking query. */
  lemma RowOfUser(t: Tables, uid: int) returns (k: nat)
    requires Consistent(t) && uid in t.users
    ensures k < |RatingRows(t)| && RatingRows(t)[k].id == uid
  {
    var ids := UserIds(t);
    assert uid in ids;
    k :| 0 <= k < |ids| && ids[k] == uid;
    assert RatingRows(t) == RatingRowsOf(t, ids);
  }

  /** An entry summarising one of the ranking's rows carries its user's
      name, e-mail, review count and average. */
  lemma RowSummary(t: Tables, x: TopUser)
    requires Consistent(t) && x in Summaries(RatingRows(t))
    ensures && x.id in t.users
            && x.name == t.users[x.id].name && x.email == t.users[x.id].email
            && x.reviewCount == |ReviewIdsOf(t, x.id)|
            && x.averageRating == AverageTenths(RatingsOf(t, x.id))
  {
    var us := RatingRows(t);
    SummaryOfSome(us, x);
    var k :| 0 <= k < |us| && x == Summary(us[k]);
  }
}
