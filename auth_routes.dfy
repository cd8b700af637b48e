/**
 * Registration and login as hf-backend/app.py serves them (`register`, `login`), on the
 * user table of module Users and the vault of module Credentials.
 */
module AuthRoutes {
  import opened Wrappers
  import opened Text
  import opened Ids
  import opened Http
  import opened Credentials
  import opened Users

  const BadLoginDetail: string := "Incorrect email or password"

  /**
   * `register`: a body that breaks `UserCreate`'s length limits is refused with 422
   * before the handler runs; then 409 when the e-mail is taken; then 400 when the
   * confirmation differs; then `hash_password`, whose `ValueError` for an over-long
   * password this handler does not catch (500). Only when all four pass is exactly one
   * user appended, carrying the request's fields and the vault's hash.
   */
  method Register(users: UserTable, vault: Vault, req: UserCreate, now: Time)
    returns (r: Result<User, HttpError>)
    requires users.Valid()
    modifies users
    ensures users.Valid()
    ensures !ValidUserCreate(req) ==> r == Err(Unprocessable)
    ensures ValidUserCreate(req) && FindByEmail(old(users.rows), req.email).Some? ==>
              r == Err(Raised(409, DuplicateEmailDetail))
    ensures ValidUserCreate(req) && FindByEmail(old(users.rows), req.email).None? &&
            req.password != req.passwordConfirm ==>
              r == Err(Raised(400, MismatchDetail))
    ensures ValidUserCreate(req) && FindByEmail(old(users.rows), req.email).None? &&
            req.password == req.passwordConfirm && Utf8Length(req.password) > MaxPasswordBytes ==>
              r == Err(Unhandled(PasswordTooLong))
    ensures r.Ok? <==> ValidUserCreate(req) && FindByEmail(old(users.rows), req.email).None? &&
                       req.password == req.passwordConfirm && Utf8Length(req.password) <= MaxPasswordBytes
    ensures r.Err? ==> users.rows == old(users.rows) && users.nextId == old(users.nextId)
    ensures r.Ok? ==>
              && r.value == User(old(users.nextId), req.email, req.firstName, req.lastName,
                                 vault.hash(req.password), now, now)
              && users.rows == old(users.rows) + [r.value]
  {
    if !ValidUserCreate(req) {
      return Err(Unprocessable);
    }
    if FindByEmail(users.rows, req.email).Some? {
      return Err(Raised(409, DuplicateEmailDetail));
    }
    if req.password != req.passwordConfirm {
      return Err(Raised(400, MismatchDetail));
    }
    var hashed := HashPassword(vault, req.password);
    if hashed.Err? {
      return Err(Unhandled(PasswordTooLong));
    }
    var u := users.Insert(req.email, req.firstName, req.lastName, hashed.value, now);
    return Ok(u);
  }

  /** The body `login` returns: the token (as its claims), its type and the user. */
  datatype LoginGrant = LoginGrant(accessToken: Claims, tokenType: string, user: User)

  /**
   * `login`: one 400 "Incorrect email or password" for an unknown e-mail and for a
   * wrong password alike; on success a bearer token whose subject is the user's id.
   */
  function Login(rows: seq<User>, vault: Vault, email: string, password: string,
                 now: Time, ttlMinutes: int): (r: Result<LoginGrant, HttpError>)
    ensures r.Err? ==> r.error == Raised(400, BadLoginDetail)
    ensures r.Ok? <==> FindByEmail(rows, email).Some? &&
                       vault.verify(password, FindByEmail(rows, email).value.passwordHash)
    ensures r.Ok? ==>
              && r.value.user == FindByEmail(rows, email).value
              && r.value.accessToken.sub == Some(UuidText(r.value.user.id))
              && r.value.tokenType == "bearer"
  {
    match FindByEmail(rows, email)
    case None => Err(Raised(400, BadLoginDetail))
    case Some(u) =>
      if !vault.verify(password, u.passwordHash) then Err(Raised(400, BadLoginDetail))
      else Ok(LoginGrant(IssueClaims(u, now, ttlMinutes), "bearer", u))
  }

  /** An unknown e-mail and a known e-mail with a wrong password get the same answer. */
  lemma LoginDoesNotRevealEmails(rows: seq<User>, vault: Vault, unknown: string, p1: string,
                                 u: User, p2: string, now: Time, ttlMinutes: int)
    requires FindByEmail(rows, unknown).None?
    requires FindByEmail(rows, u.email) == Some(u) && !vault.verify(p2, u.passwordHash)
    ensures Login(rows, vault, unknown, p1, now, ttlMinutes) == Login(rows, vault, u.email, p2, now, ttlMinutes)
  {
  }

  /**
   * Whatever `Register` appends can log in with the password it was registered with,
   * given only `verify(p, hash(p))`; the token then resolves back to the new user.
   */
  lemma RegisteredUserCanLogIn(rows: seq<User>, vault: Vault, req: UserCreate, id: Uuid,
                               now: Time, later: Time, ttlMinutes: int)
    requires Sound(vault) && IdsUnique(rows)
    requires forall v :: v in rows ==> v.id != id
    requires FindByEmail(rows, req.email).None?
    ensures var u := User(id, req.email, req.firstName, req.lastName, vault.hash(req.password), now, now);
            var r := Login(rows + [u], vault, req.email, req.password, later, ttlMinutes);
            && r == Ok(LoginGrant(IssueClaims(u, later, ttlMinutes), "bearer", u))
            && CurrentUser(rows + [u], Some(r.value.accessToken)) == Ok(u)
  {
    var u := User(id, req.email, req.firstName, req.lastName, vault.hash(req.password), now, now);
    FindByEmailAfterAppend(rows, u, req.email);
    assert IdsUnique(rows + [u]);
    IssuedClaimsResolve(rows + [u], u, later, ttlMinutes);
  }
}
