/** Registration, login and the user lookups behind authentication
    (`AuthService`). Registration is the one operation here that writes the
    store; the others read it. */
module AuthService {
  import opened Wrappers
  import opened Errors
  import opened Credentials
  import opened Jwt
  import opened Database

  /** The user as the auth operations return it: `{ id, email, name, role }`,
      never the password hash. */
  datatype PublicUser = PublicUser(id: int, email: string, name: string, role: string)

  datatype AuthPayload = AuthPayload(token: Token, user: PublicUser)

  function Public(id: int, u: User): PublicUser {
    PublicUser(id, u.email, u.name, u.role)
  }

  /** The payload returned for user `id`: a token carrying `{ id, email, name }`
      and the public projection of the row. */
  function PayloadFor(id: int, u: User): AuthPayload {
    AuthPayload(GenerateToken(Claims(id, u.email, u.name)), Public(id, u))
  }

  /** The tables after `prisma.user.create`: the new row takes the next id,
      its password is stored hashed, and its role is the schema's default. */
  function WithNewUser(t: Tables, email: string, name: string, password: string): Tables {
    t.(users := t.users[t.nextUserId := User(email, name, Hash(password), t.defaultRole)],
       nextUserId := t.nextUserId + 1)
  }

  /** Which answers `register` may give. `findFirst` with `OR: [{ email }, { name }]`
      may return any user matching either condition, so when the email and the
      name belong to two different users either message may come back; a user
      matching both always yields the email message, an email-only match the
      email message and a name-only match the name message. Nothing is written
      when a conflict is reported. */
  ghost predicate RegisterOutcome(t: Tables, email: string, name: string, password: string,
                                  r: Result<AuthPayload, Error>, t': Tables)
  {
    if EmailInUse(t.users, email) || NameInUse(t.users, name) then
      && t' == t
      && (r == Err(Thrown(EmailExists)) || r == Err(Thrown(NameExists)))
      && (!NameInUse(t.users, name) ==> r == Err(Thrown(EmailExists)))
      && (!EmailInUse(t.users, email) ==> r == Err(Thrown(NameExists)))
      && ((exists k | k in t.users :: t.users[k].email == email && t.users[k].name == name) ==>
            r == Err(Thrown(EmailExists)))
    else
      && t' == WithNewUser(t, email, name, password)
      && r == Ok(PayloadFor(t.nextUserId, t'.users[t.nextUserId]))
  }

  /** Registering an unused email and name keeps the store consistent: the new
      id is fresh, and both uniqueness rules still hold. */
  lemma RegisterKeepsConsistent(t: Tables, email: string, name: string, password: string)
    requires Consistent(t)
    requires !EmailInUse(t.users, email) && !NameInUse(t.users, name)
    ensures Consistent(WithNewUser(t, email, name, password))
    ensures var t' := WithNewUser(t, email, name, password);
            && t'.users.Keys == t.users.Keys + {t.nextUserId}
            && t.nextUserId !in t.users
            && t'.users[t.nextUserId].password == Hash(password)
            && t'.books == t.books && t'.reviews == t.reviews
  {
    assert t.nextUserId !in t.users;
    assert forall k | k in t.users :: t.users[k].email != email && t.users[k].name != name;
  }

  /** `register`: the conflict lookup, then the insert. */
  method Register(db: Store, email: string, name: string, password: string)
    returns (r: Result<AuthPayload, Error>)
    requires db.Valid()
    modifies db
    ensures db.Valid()
    ensures RegisterOutcome(old(db.Snapshot()), email, name, password, r, db.Snapshot())
  {
    if k :| k in db.users && (db.users[k].email == email || db.users[k].name == name) {
      // the row found matches on the email or, failing that, on the name
      var existing := db.users[k];
      if existing.email == email {
        return Err(Thrown(EmailExists));
      }
      return Err(Thrown(NameExists));
    }
    RegisterKeepsConsistent(db.Snapshot(), email, name, password);
    var hashed := Hash(password);
    var id := db.nextUserId;
    db.users := db.users[id := User(email, name, hashed, db.defaultRole)];
    db.nextUserId := id + 1;
    var user := db.users[id];
    r := Ok(AuthPayload(GenerateToken(Claims(id, user.email, user.name)), PublicUser(id, user.email, user.name, user.role)));
  }

  /** `login`: an unknown email and a wrong password fail alike; a success
      answers for the one user holding that email. */
  function Login(t: Tables, email: string, password: string): (r: Result<AuthPayload, Error>)
    requires Consistent(t)
    ensures r.Err? ==> r.error == Thrown(InvalidCredentials)
    ensures r.Ok? <==> exists k | k in t.users :: t.users[k].email == email && Verify(password, t.users[k].password)
    ensures r.Ok? ==>
              var id := r.value.user.id;
              && id in t.users && t.users[id].email == email
              && r.value.token.claims == Claims(id, email, t.users[id].name)
              && r.value.user == PublicUser(id, email, t.users[id].name, t.users[id].role)
  {
    match FindUserByEmail(t, email)
    case None => Err(Thrown(InvalidCredentials))
    case Some(id) =>
      if !Verify(password, t.users[id].password) then Err(Thrown(InvalidCredentials))
      else Ok(PayloadFor(id, t.users[id]))
  }

  /** After a registration, logging in with the same email and password
      succeeds as the new user, and any other password is refused. */
  lemma LoginAfterRegister(t: Tables, email: string, name: string, password: string, other: string)
    requires Consistent(t)
    requires !EmailInUse(t.users, email) && !NameInUse(t.users, name)
    ensures var t' := WithNewUser(t, email, name, password);
            && Consistent(t')
            && Login(t', email, password).Ok?
            && Login(t', email, password).value.user == PublicUser(t.nextUserId, email, name, t.defaultRole)
            && (other != password ==> Login(t', email, other) == Err(Thrown(InvalidCredentials)))
  {
    var t' := WithNewUser(t, email, name, password);
    RegisterKeepsConsistent(t, email, name, password);
    assert t'.users[t.nextUserId].email == email && Verify(password, t'.users[t.nextUserId].password);
    var id := Login(t', email, password).value.user.id;
    assert t'.users[id].email == t'.users[t.nextUserId].email;
    forall k | k in t'.users && t'.users[k].email == email
      ensures k == t.nextUserId
      ensures other != password ==> !Verify(other, t'.users[k].password)
    {
      assert t'.users[k].email == t'.users[t.nextUserId].email;
    }
  }

  /** `getUserById`: the public projection of the row, or nothing. */
  function GetUserById(t: Tables, id: int): (r: Option<PublicUser>)
    ensures r.None? <==> id !in t.users
    ensures r.Some? ==> r.value.id == id && r.value == Public(id, t.users[id])
  {
    if id in t.users then Some(Public(id, t.users[id])) else None
  }

  /** `validateUser`: "User not found" exactly when the lookup finds nothing. */
  function ValidateUser(t: Tables, id: int): (r: Result<PublicUser, Error>)
    ensures r.Err? <==> GetUserById(t, id).None?
    ensures r.Err? ==> r.error == Thrown(UserNotFound)
    ensures r.Ok? ==> Some(r.value) == GetUserById(t, id)
  {
    match GetUserById(t, id)
    case None => Err(Thrown(UserNotFound))
    case Some(u) => Ok(u)
  }
}
