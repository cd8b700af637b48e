/**
 * backend/src/services/auth_service.py: `AuthService.register_user` and
 * `AuthService.authenticate_user`. This backend hashes with backend/src/api/deps.py's
 * `hash_password`, which applies no byte limit, so the vault's hash is used directly.
 */
module AuthService {
  import opened Wrappers
  import opened Ids
  import opened Http
  import opened Credentials
  import opened Users

  /**
   * `register_user`: 409 for a taken e-mail before the confirmation is compared, 400 for
   * a mismatch, and in both cases the table is untouched; otherwise exactly one user is
   * appended with the request's e-mail and names and `hash_password(password)`. The
   * service does not check `UserCreate`'s length limits itself: the body reaches it
   * already validated, and the contract holds for any body.
   */
  method RegisterUser(users: UserTable, vault: Vault, req: UserCreate, now: Time)
    returns (r: Result<User, HttpError>)
    requires users.Valid()
    modifies users
    ensures users.Valid()
    ensures FindByEmail(old(users.rows), req.email).Some? ==>
              r == Err(Raised(409, DuplicateEmailDetail))
    ensures FindByEmail(old(users.rows), req.email).None? && req.password != req.passwordConfirm ==>
              r == Err(Raised(400, MismatchDetail))
    ensures r.Ok? <==> FindByEmail(old(users.rows), req.email).None? && req.password == req.passwordConfirm
    ensures r.Err? ==> users.rows == old(users.rows) && users.nextId == old(users.nextId)
    ensures r.Ok? ==>
              && r.value == User(old(users.nextId), req.email, req.firstName, req.lastName,
                                 vault.hash(req.password), now, now)
              && users.rows == old(users.rows) + [r.value]
  {
    if FindByEmail(users.rows, req.email).Some? {
      return Err(Raised(409, DuplicateEmailDetail));
    }
    if req.password != req.passwordConfirm {
      return Err(Raised(400, MismatchDetail));
    }
    var hashed := vault.hash(req.password);
    var u := users.Insert(req.email, req.firstName, req.lastName, hashed, now);
    return Ok(u);
  }

  /**
   * `authenticate_user`: the user with that e-mail when the password verifies against
   * its stored hash; `None` both for an unknown e-mail and for a wrong password.
   */
  function AuthenticateUser(rows: seq<User>, vault: Vault, email: string, password: string)
    : (r: Option<User>)
    ensures r.Some? <==> FindByEmail(rows, email).Some? &&
                         vault.verify(password, FindByEmail(rows, email).value.passwordHash)
    ensures r.Some? ==> r.value in rows && r.value.email == email
  {
    match FindByEmail(rows, email)
    case None => None
    case Some(u) => if vault.verify(password, u.passwordHash) then Some(u) else None
  }

  /**
   * Once a user is appended as `RegisterUser` appends it, authenticating with the
   * registered e-mail and password returns that user, given `verify(p, hash(p))`.
   */
  lemma AuthenticateAfterRegister(rows: seq<User>, vault: Vault, req: UserCreate, id: Uuid, now: Time)
    requires Sound(vault)
    requires FindByEmail(rows, req.email).None?
    ensures var u := User(id, req.email, req.firstName, req.lastName, vault.hash(req.password), now, now);
            AuthenticateUser(rows + [u], vault, req.email, req.password) == Some(u)
  {
    var u := User(id, req.email, req.firstName, req.lastName, vault.hash(req.password), now, now);
    FindByEmailAfterAppend(rows, u, req.email);
  }

  /** A second registration of an e-mail fails and leaves the first user's hash alone. */
  method RegisterTwice(users: UserTable, vault: Vault, first: UserCreate, second: UserCreate, now: Time)
    returns (r1: Result<User, HttpError>, r2: Result<User, HttpError>)
    requires users.Valid() && FindByEmail(users.rows, first.email).None?
    requires first.password == first.passwordConfirm && second.email == first.email
    modifies users
    ensures r1.Ok? && r2 == Err(Raised(409, DuplicateEmailDetail))
    ensures FindByEmail(users.rows, first.email) == Some(r1.value)
    ensures r1.value.passwordHash == vault.hash(first.password)
  {
    r1 := RegisterUser(users, vault, first, now);
    FindByEmailAfterAppend(old(users.rows), r1.value, first.email);
    r2 := RegisterUser(users, vault, second, now);
  }
}
