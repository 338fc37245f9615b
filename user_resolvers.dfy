/** The GraphQL entry points of the user module: the user queries, the
    `updateProfile` and `deleteAccount` mutations, and the `User.reviewCount`
    and `User.averageRating` field resolvers. Ids arrive as strings and are
    read with `parseInt`; the signed-in user, if any, comes from the request
    context. */
module UserResolvers {
  import opened Wrappers
  import opened Errors
  import opened Credentials
  import opened Text
  import opened Validation
  import opened JsParseInt
  import opened Database
  import opened Aggregates
  import opened Ranking
  import opened UserService
  import opened RequestContext

  /** `parseInt(id)` followed by the `isNaN` guard. */
  function ParseId(id: string, invalid: string): (r: Result<int, Error>)
    ensures r.Err? <==> ParseInt(id).NaN?
    ensures r.Err? ==> r.error == Thrown(invalid)
    ensures r.Ok? ==> ParseInt(id) == Int(r.value)
  {
    match ParseInt(id)
    case NaN => Err(Thrown(invalid))
    case Int(v) => Ok(v)
  }

  /** `user(id)`: "Invalid user ID" when the id has no leading integer, before
      any lookup; "User not found" when no user has it. */
  function UserQuery(t: Tables, id: string): (r: Result<UserView, Error>)
    requires Consistent(t)
    ensures ParseInt(id).NaN? ==> r == Err(Thrown(InvalidUserId))
    ensures ParseInt(id).Int? && ParseInt(id).value !in t.users ==> r == Err(Thrown(UserNotFound))
    ensures ParseInt(id).Int? && ParseInt(id).value in t.users ==> r == Ok(UserViewOf(t, ParseInt(id).value))
  {
    match ParseId(id, InvalidUserId)
    case Err(e) => Err(e)
    case Ok(userId) =>
      match GetUserById(t, userId)
      case None => Err(Thrown(UserNotFound))
      case Some(u) => Ok(u)
  }

  /** The decimal spelling of an existing user's id finds that user. */
  lemma UserQueryByDecimalId(t: Tables, n: nat)
    requires Consistent(t) && n in t.users
    ensures UserQuery(t, Decimal(n)) == Ok(UserViewOf(t, n))
  {
    assert Decimal(n) + "" == Decimal(n);
    DecimalRoundTrip(n, "");
  }

  /** `userByEmail(email)`: a blank address is refused; otherwise the
      trimmed address is looked up. */
  function UserByEmailQuery(t: Tables, email: string): (r: Result<UserView, Error>)
    requires Consistent(t)
    ensures IsBlank(email) ==> r == Err(Thrown(EmailRequired))
    ensures !IsBlank(email) && !EmailInUse(t.users, Trim(email)) ==> r == Err(Thrown(UserNotFound))
    ensures !IsBlank(email) && EmailInUse(t.users, Trim(email)) ==> r.Ok?
    ensures r.Ok? ==> r.value.id in t.users && r.value.email == Trim(email) && r.value == UserViewOf(t, r.value.id)
  {
    if email == "" || IsBlank(email) then Err(Thrown(EmailRequired))
    else
      var found := GetUserByEmail(t, Trim(email));
      if found.None? then Err(Thrown(UserNotFound)) else Ok(found.value)
  }

  /** `searchUsers(query)`: a blank query is refused; otherwise the search
      runs on the trimmed query. */
  function SearchUsersQuery(t: Tables, query: string): (r: Result<seq<UserView>, Error>)
    requires Consistent(t)
    ensures r.Err? <==> IsBlank(query)
    ensures r.Err? ==> r.error == Thrown(SearchQueryRequired)
    ensures r.Ok? ==> forall k :: k in UserViewIds(r.value) <==> k in t.users && UserMatches(t.users[k], Trim(query))
    ensures r.Ok? ==> forall i, j | 0 <= i < j < |r.value| :: r.value[i].id < r.value[j].id
    ensures r.Ok? ==> forall i | 0 <= i < |r.value| :: r.value[i].id in t.users && r.value[i] == UserViewOf(t, r.value[i].id)
  {
    if query == "" || IsBlank(query) then Err(Thrown(SearchQueryRequired))
    else Ok(SearchUsers(t, Trim(query)))
  }

  /** `userStats(id)`: "Invalid user ID" before any lookup, "User not found"
      for an unknown user, otherwise that user's statistics. */
  method UserStatsQuery(t: Tables, id: string) returns (r: Result<UserStats, Error>)
    requires Consistent(t)
    ensures ParseInt(id).NaN? ==> r == Err(Thrown(InvalidUserId))
    ensures ParseInt(id).Int? && ParseInt(id).value !in t.users ==> r == Err(Thrown(UserNotFound))
    ensures ParseInt(id).Int? && ParseInt(id).value in t.users ==>
              r.Ok? && IsStatsOf(t, ParseInt(id).value, r.value)
  {
    var userId := ParseId(id, InvalidUserId);
    if userId.Err? {
      return Err(userId.error);
    }
    var stats := GetUserStats(t, userId.value);
    if stats.None? {
      return Err(Thrown(UserNotFound));
    }
    return Ok(stats.value);
  }

  /** `myStats`: "Not authenticated" without an identity, before anything else;
      then the statistics of the signed-in user. */
  method MyStats(t: Tables, user: Option<Identity>) returns (r: Result<UserStats, Error>)
    requires Consistent(t)
    ensures user.None? ==> r == Err(Thrown(NotAuthenticated))
    ensures user.Some? && user.value.id !in t.users ==> r == Err(Thrown(UserNotFound))
    ensures user.Some? && user.value.id in t.users ==> r.Ok? && IsStatsOf(t, user.value.id, r.value)
  {
    if user.None? {
      return Err(Thrown(NotAuthenticated));
    }
    var stats := GetUserStats(t, user.value.id);
    if stats.None? {
      return Err(Thrown(UserNotFound));
    }
    return Ok(stats.value);
  }

  /** `limit || 10`: a missing or zero limit becomes 10. */
  function EffectiveLimit(limit: Option<int>): (n: int)
    ensures limit.None? || limit.value == 0 ==> n == 10
    ensures limit.Some? && limit.value != 0 ==> n == limit.value
  {
    if limit.None? || limit.value == 0 then 10 else limit.value
  }

  /** `topUsers(limit)`: the ranking with `limit || 10`, so ten users (or
      all of them) when the limit is missing or zero. */
  function TopUsers(t: Tables, limit: Option<int>): (r: seq<TopUser>)
    requires Consistent(t)
    ensures |r| == SliceEnd(|t.users|, EffectiveLimit(limit))
    ensures (limit.None? || limit.value == 0) ==> |r| == if 10 < |t.users| then 10 else |t.users|
    ensures NonIncreasing(r)
    ensures forall i | 0 <= i < |r| ::
              && r[i].id in t.users
              && r[i].name == t.users[r[i].id].name && r[i].email == t.users[r[i].id].email
              && r[i].reviewCount == |ReviewIdsOf(t, r[i].id)|
              && r[i].averageRating == AverageTenths(RatingsOf(t, r[i].id))
    ensures forall uid | uid in t.users && (forall j | 0 <= j < |r| :: r[j].id != uid) ::
              forall i | 0 <= i < |r| :: |ReviewIdsOf(t, uid)| <= r[i].reviewCount
    ensures forall c :: WithCount(r, c) <= WithCount(Summaries(RatingRows(t)), c)
  {
    GetUsersWithMostReviews(t, EffectiveLimit(limit))
  }

  /** `myReviews`: "Not authenticated" without an identity; otherwise the
      signed-in user's reviews, newest first. */
  function MyReviews(t: Tables, user: Option<Identity>): (r: Result<seq<ReviewWithBook>, Error>)
    requires Consistent(t)
    ensures r.Err? <==> user.None?
    ensures r.Err? ==> r.error == Thrown(NotAuthenticated)
    ensures r.Ok? ==>
              && (forall k :: k in ReviewIdsIn(r.value) <==> k in t.reviews && t.reviews[k].userId == user.value.id)
              && (forall i, j | 0 <= i < j < |r.value| :: r.value[i].id > r.value[j].id)
              && ShowsReviews(t, r.value)
  {
    if user.None? then Err(Thrown(NotAuthenticated))
    else Ok(GetUserReviews(t, user.value.id))
  }

  // ------------------------------------------------------------- updateProfile

  /** The argument checks of `updateProfile`, in order: some field to change,
      then a non-blank e-mail, a non-blank name, a long enough new password,
      and finally a well-formed e-mail. Only truthy arguments are checked. */
  function ProfileInputError(name: Option<string>, email: Option<string>, newPassword: Option<string>)
    : (e: Option<Error>)
    ensures !Truthy(name) && !Truthy(email) && !Truthy(newPassword) ==> e == Some(Thrown(NoProfileField))
    ensures e.None? ==>
              && (Truthy(name) || Truthy(email) || Truthy(newPassword))
              && (Truthy(email) ==> EmailShape(email.value))
              && (Truthy(name) ==> !IsBlank(name.value))
              && (Truthy(newPassword) ==> LongEnough(newPassword.value))
    ensures Truthy(email) && IsBlank(email.value) ==> e == Some(Thrown(EmailEmpty))
    ensures !(Truthy(email) && IsBlank(email.value)) && Truthy(name) && IsBlank(name.value) ==>
              e == Some(Thrown(NameEmpty))
    ensures (!(Truthy(email) && IsBlank(email.value)) && !(Truthy(name) && IsBlank(name.value))
             && Truthy(newPassword) && !LongEnough(newPassword.value)) ==> e == Some(Thrown(NewPasswordTooShort))
    ensures ((Truthy(name) || Truthy(email) || Truthy(newPassword))
             && !(Truthy(email) && IsBlank(email.value)) && !(Truthy(name) && IsBlank(name.value))
             && !(Truthy(newPassword) && !LongEnough(newPassword.value))) ==>
              e == if Truthy(email) && !EmailShape(email.value) then Some(Thrown(InvalidEmail)) else None
  {
    if !Truthy(name) && !Truthy(email) && !Truthy(newPassword) then Some(Thrown(NoProfileField))
    else if Truthy(email) && IsBlank(email.value) then Some(Thrown(EmailEmpty))
    else if Truthy(name) && IsBlank(name.value) then Some(Thrown(NameEmpty))
    else if Truthy(newPassword) && |newPassword.value| < MinPasswordLength then Some(Thrown(NewPasswordTooShort))
    else
      EmailPatternShape(if Truthy(email) then email.value else "");
      if Truthy(email) && !MatchesEmailPattern(email.value) then Some(Thrown(InvalidEmail))
      else None
  }

  /** The `updateData` that `updateProfile` hands to the service. */
  function ProfileUpdateData(name: Option<string>, email: Option<string>,
                             currentPassword: Option<string>, newPassword: Option<string>): UpdateUserInput
  {
    UpdateUserInput(
      if Truthy(name) && !IsBlank(name.value) then Some(Trim(name.value)) else None,
      if Truthy(email) && !IsBlank(email.value) then Some(Trim(email.value)) else None,
      if Truthy(newPassword) then currentPassword else None,
      if Truthy(newPassword) then newPassword else None)
  }

  /** What reaches the service once the checks pass: the name trimmed and
      non-empty, the e-mail exactly as given (a well-formed address has
      nothing to trim), and the current password only alongside a new one. */
  lemma ProfileDataForwarded(name: Option<string>, email: Option<string>,
                             currentPassword: Option<string>, newPassword: Option<string>)
    requires ProfileInputError(name, email, newPassword).None?
    ensures var data := ProfileUpdateData(name, email, currentPassword, newPassword);
            && (data.name.Some? <==> Truthy(name))
            && (data.name.Some? ==> data.name.value == Trim(name.value) && data.name.value != "")
            && (data.email.Some? <==> Truthy(email))
            && (data.email.Some? ==> data.email.value == email.value && EmailShape(data.email.value))
            && (data.newPassword.Some? <==> Truthy(newPassword))
            && (data.currentPassword.Some? ==> Truthy(newPassword))
  {
    if Truthy(email) {
      EmailPatternShape(email.value);
      EmailPatternIsTrimmed(email.value);
    }
  }

  /** `updateProfile`: "Not authenticated" first, then the argument checks,
      then `updateData` assembled field by field and passed to the service. */
  method UpdateProfile(db: Store, user: Option<Identity>, name: Option<string>, email: Option<string>,
                       currentPassword: Option<string>, newPassword: Option<string>)
    returns (r: Result<UserView, Error>)
    requires db.Valid()
    modifies db
    ensures db.Valid()
    ensures user.None? ==> r == Err(Thrown(NotAuthenticated)) && db.Snapshot() == old(db.Snapshot())
    ensures user.Some? && ProfileInputError(name, email, newPassword).Some? ==>
              r == Err(ProfileInputError(name, email, newPassword).value) && db.Snapshot() == old(db.Snapshot())
    ensures user.Some? && ProfileInputError(name, email, newPassword).None? ==>
              var s := UpdatedUser(old(db.Snapshot()), user.value.id, ProfileUpdateData(name, email, currentPassword, newPassword));
              && (s.Err? ==> r == Err(s.error) && db.Snapshot() == old(db.Snapshot()))
              && (s.Ok? ==> db.Snapshot() == old(db.Snapshot()).(users := old(db.users)[user.value.id := s.value])
                            && r == Ok(UserViewOf(db.Snapshot(), user.value.id)))
  {
    if user.None? {
      return Err(Thrown(NotAuthenticated));
    }
    var invalid := ProfileInputError(name, email, newPassword);
    if invalid.Some? {
      return Err(invalid.value);
    }
    var data := UpdateUserInput(None, None, None, None);
    if Truthy(name) && !IsBlank(name.value) {
      data := data.(name := Some(Trim(name.value)));
    }
    if Truthy(email) && !IsBlank(email.value) {
      data := data.(email := Some(Trim(email.value)));
    }
    if Truthy(newPassword) {
      data := data.(newPassword := newPassword, currentPassword := currentPassword);
    }
    assert data == ProfileUpdateData(name, email, currentPassword, newPassword);
    r := UpdateUser(db, user.value.id, data);
  }

  // ------------------------------------------------------------- deleteAccount

  /** `deleteAccount(password)`: "Not authenticated", then a required password,
      then "User not found", then "Invalid password" unless the password
      matches; only then the user and its reviews are deleted. */
  method DeleteAccount(db: Store, user: Option<Identity>, password: string) returns (r: Result<bool, Error>)
    requires db.Valid()
    modifies db
    ensures db.Valid()
    ensures user.None? ==> r == Err(Thrown(NotAuthenticated))
    ensures user.Some? && password == "" ==> r == Err(Thrown(DeletePasswordRequired))
    ensures user.Some? && password != "" && user.value.id !in old(db.users) ==> r == Err(Thrown(UserNotFound))
    ensures user.Some? && password != "" && user.value.id in old(db.users) ==>
              && (!Verify(password, old(db.users)[user.value.id].password) ==> r == Err(Thrown(InvalidPassword)))
              && (Verify(password, old(db.users)[user.value.id].password) ==>
                    r == Ok(true) && db.Snapshot() == WithoutUser(old(db.Snapshot()), user.value.id))
    ensures r.Err? ==> db.Snapshot() == old(db.Snapshot())
    ensures r.Ok? ==>
              && r.value
              && user.Some? && user.value.id in old(db.users)
              && Verify(password, old(db.users)[user.value.id].password)
              && db.Snapshot() == WithoutUser(old(db.Snapshot()), user.value.id)
  {
    if user.None? {
      return Err(Thrown(NotAuthenticated));
    }
    if password == "" {
      return Err(Thrown(DeletePasswordRequired));
    }
    var id := user.value.id;
    if id !in db.users {
      return Err(Thrown(UserNotFound));
    }
    if !Verify(password, db.users[id].password) {
      return Err(Thrown(InvalidPassword));
    }
    r := DeleteUser(db, id);
  }

  // ------------------------------------------------------------ field resolvers

  /** `User.reviewCount`: the length of the included reviews, 0 when the
      parent carries none. */
  function UserReviewCount(reviews: Option<seq<ReviewWithBook>>): (n: int)
    ensures n == |reviews.GetOr([])|
    ensures reviews.None? ==> n == 0
  {
    if reviews.Some? then |reviews.value| else 0
  }

  /** `User.averageRating`: 0 without reviews, otherwise its own copy of the
      rounded mean, which agrees with the shared definition. */
  function UserAverageRating(reviews: Option<seq<ReviewWithBook>>): (a: int)
    ensures a == AverageTenths(Ratings(reviews.GetOr([])))
  {
    if reviews.None? || |reviews.value| == 0 then 0
    else
      var ratings := Ratings(reviews.value);
      ReduceIsSum(0, ratings);
      RoundTenths(Reduce(0, ratings), |reviews.value|)
  }
}
