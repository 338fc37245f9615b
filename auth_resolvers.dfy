/** The GraphQL entry points of authentication: the `me` query and the
    `register` and `login` mutations. They validate their arguments, in a
    fixed order, before the auth service is reached. The arguments are
    non-null strings, so "missing" means the empty string. */
module AuthResolvers {
  import opened Wrappers
  import opened Errors
  import opened Credentials
  import opened Validation
  import opened Database
  import opened AuthService
  import RequestContext

  /** The checks `register` makes before the service runs: all three fields
      present, then the password length, then the e-mail pattern. */
  function RegisterInputError(email: string, name: string, password: string): (e: Option<Error>)
    ensures (email == "" || name == "" || password == "") ==> e == Some(Thrown(RegisterFieldsRequired))
    ensures email != "" && name != "" && password != "" && !LongEnough(password) ==>
              e == Some(Thrown(PasswordTooShort))
    ensures email != "" && name != "" && LongEnough(password) ==>
              e == (if EmailShape(email) then None else Some(Thrown(InvalidEmail)))
    ensures e.None? ==> name != "" && LongEnough(password) && EmailShape(email)
  {
    EmailPatternShape(email);
    if email == "" || name == "" || password == "" then Some(Thrown(RegisterFieldsRequired))
    else if |password| < MinPasswordLength then Some(Thrown(PasswordTooShort))
    else if !MatchesEmailPattern(email) then Some(Thrown(InvalidEmail))
    else None
  }

  /** `register`: rejected arguments leave the store untouched; accepted ones
      go to the service. */
  method RegisterMutation(db: Store, email: string, name: string, password: string)
    returns (r: Result<AuthPayload, Error>)
    requires db.Valid()
    modifies db
    ensures db.Valid()
    ensures RegisterInputError(email, name, password).Some? ==>
              r == Err(RegisterInputError(email, name, password).value) && db.Snapshot() == old(db.Snapshot())
    ensures RegisterInputError(email, name, password).None? ==>
              RegisterOutcome(old(db.Snapshot()), email, name, password, r, db.Snapshot())
  {
    var invalid := RegisterInputError(email, name, password);
    if invalid.Some? {
      return Err(invalid.value);
    }
    r := Register(db, email, name, password);
  }

  /** Every user a successful `register` creates has a well-formed e-mail
      address, a password of at least six characters and a non-empty name. */
  lemma RegisteredUserIsWellFormed(t: Tables, email: string, name: string, password: string,
                                   r: Result<AuthPayload, Error>, t': Tables)
    requires RegisterInputError(email, name, password).None?
    requires RegisterOutcome(t, email, name, password, r, t')
    requires r.Ok?
    ensures r.value.user.id == t.nextUserId && t.nextUserId in t'.users
    ensures var u := t'.users[t.nextUserId];
            EmailShape(u.email) && u.name != "" && LongEnough(u.password.preimage)
  {
    assert !(EmailInUse(t.users, email) || NameInUse(t.users, name));
  }

  /** `login`: both fields must be non-empty; then every failure reads
      "Invalid email or password". */
  function LoginMutation(t: Tables, email: string, password: string): (r: Result<AuthPayload, Error>)
    requires Consistent(t)
    ensures (email == "" || password == "") ==> r == Err(Thrown(LoginFieldsRequired))
    ensures email != "" && password != "" && r.Err? ==> r.error == Thrown(InvalidCredentials)
    ensures r.Ok? <==>
              && email != "" && password != ""
              && exists k | k in t.users :: t.users[k].email == email && Verify(password, t.users[k].password)
  {
    if email == "" || password == "" then Err(Thrown(LoginFieldsRequired))
    else Login(t, email, password)
  }

  /** `me`: "Not authenticated" without an identity, "User not found" when the
      identity's user no longer exists, and otherwise that user's public row. */
  function Me(t: Tables, user: Option<RequestContext.Identity>): (r: Result<PublicUser, Error>)
    ensures user.None? ==> r == Err(Thrown(NotAuthenticated))
    ensures user.Some? && user.value.id !in t.users ==> r == Err(Thrown(UserNotFound))
    ensures r.Ok? <==> user.Some? && user.value.id in t.users
    ensures r.Ok? ==> r.value == Public(user.value.id, t.users[user.value.id])
  {
    if user.None? then Err(Thrown(NotAuthenticated))
    else ValidateUser(t, user.value.id)
  }
}
