/**
 * The user table and the identity resolution of hf-backend/app.py
 * (`decode_access_token`, `get_current_user`). The table is the ordered sequence of
 * its rows; a query's `.first()` is the first matching row in that order. Token
 * signing and decoding are not modelled: a bearer token reaches the model as the
 * claims it decodes to, or as `None` when `jwt.decode` raises (bad signature,
 * malformed token, expired).
 */
module Users {
  import opened Wrappers
  import opened Ids
  import opened Http

  datatype User = User(
    id: Uuid,
    email: string,
    firstName: Option<string>,
    lastName: Option<string>,
    passwordHash: string,
    createdAt: Time,
    updatedAt: Time)

  /** The unique constraint on `user.email`. */
  predicate EmailsUnique(rows: seq<User>) {
    forall i, j :: 0 <= i < j < |rows| ==> rows[i].email != rows[j].email
  }

  /** The primary key on `user.id`. */
  predicate IdsUnique(rows: seq<User>) {
    forall i, j :: 0 <= i < j < |rows| ==> rows[i].id != rows[j].id
  }

  /** The first user row whose e-mail equals `email`. */
  function FindByEmail(rows: seq<User>, email: string): (r: Option<User>)
    ensures r.Some? ==> r.value in rows && r.value.email == email
    ensures r.None? <==> forall u :: u in rows ==> u.email != email
  {
    if rows == [] then None
    else if rows[0].email == email then Some(rows[0])
    else FindByEmail(rows[1..], email)
  }

  /** Lookup by primary key: the row whose primary key is `id`. */
  function FindById(rows: seq<User>, id: Uuid): (r: Option<User>)
    ensures r.Some? ==> r.value in rows && r.value.id == id
    ensures r.None? <==> forall u :: u in rows ==> u.id != id
  {
    if rows == [] then None
    else if rows[0].id == id then Some(rows[0])
    else FindById(rows[1..], id)
  }

  /** Under the unique constraint the row found by e-mail is the only row with it. */
  lemma {:induction false} FindByEmailUnique(rows: seq<User>, u: User)
    requires EmailsUnique(rows) && u in rows
    ensures FindByEmail(rows, u.email) == Some(u)
  {
    if rows[0] != u {
      assert u in rows[1..];
      FindByEmailUnique(rows[1..], u);
    }
  }

  /** Under the primary key the row found by id is the only row with it. */
  lemma {:induction false} FindByIdUnique(rows: seq<User>, u: User)
    requires IdsUnique(rows) && u in rows
    ensures FindById(rows, u.id) == Some(u)
  {
    if rows[0] != u {
      assert u in rows[1..];
      FindByIdUnique(rows[1..], u);
    }
  }

  /** Adding a row with a new e-mail leaves every other e-mail lookup as it was. */
  lemma {:induction false} FindByEmailAfterAppend(rows: seq<User>, u: User, email: string)
    requires FindByEmail(rows, u.email).None?
    ensures FindByEmail(rows + [u], email) ==
              if email == u.email then Some(u) else FindByEmail(rows, email)
  {
    if rows == [] {
      assert rows + [u] == [u];
    } else {
      assert (rows + [u])[1..] == rows[1..] + [u];
      FindByEmailAfterAppend(rows[1..], u, email);
    }
  }

  /** The `UserCreate` body of a registration request (both backends). */
  datatype UserCreate = UserCreate(
    email: string,
    password: string,
    passwordConfirm: string,
    firstName: Option<string>,
    lastName: Option<string>)

  const MaxEmailLength: nat := 255
  const MaxNameLength: nat := 50

  /**
   * The `max_length` constraints `UserBase` puts on a registration body: at most 255
   * characters of e-mail and at most 50 of each name that is given.
   */
  predicate ValidUserCreate(req: UserCreate) {
    && |req.email| <= MaxEmailLength
    && (req.firstName.Some? ==> |req.firstName.value| <= MaxNameLength)
    && (req.lastName.Some? ==> |req.lastName.value| <= MaxNameLength)
  }

  const DuplicateEmailDetail: string := "Email already registered"
  const MismatchDetail: string := "Passwords do not match"

  /** The users table behind the session. */
  class UserTable {
    var rows: seq<User>
    /** The next identifier `uuid.uuid4()` hands out: never one already in use. */
    var nextId: Uuid

    ghost predicate Valid()
      reads this
    {
      EmailsUnique(rows) && IdsUnique(rows) &&
      forall i :: 0 <= i < |rows| ==> rows[i].id < nextId
    }

    constructor ()
      ensures Valid() && rows == []
    {
      rows := [];
      nextId := 0;
    }

    /**
     * Adding a new user row and committing: the new row gets a fresh id and both
     * timestamps `now`, and is appended; no existing row changes.
     */
    method Insert(email: string, firstName: Option<string>, lastName: Option<string>,
                  passwordHash: string, now: Time) returns (u: User)
      requires Valid()
      requires FindByEmail(rows, email).None?
      modifies this
      ensures Valid()
      ensures u == User(old(nextId), email, firstName, lastName, passwordHash, now, now)
      ensures rows == old(rows) + [u] && nextId == old(nextId) + 1
    {
      u := User(nextId, email, firstName, lastName, passwordHash, now, now);
      rows := rows + [u];
      nextId := nextId + 1;
    }
  }

  /** The claims a session token decodes to: the "sub" claim and the expiry. */
  datatype Claims = Claims(sub: Option<string>, exp: int)

  /** The lifetime `create_access_token` falls back to when the one it is given is zero. */
  const DefaultTokenMinutes: nat := 15

  /**
   * The token `login` issues through `create_access_token`, given the configured
   * lifetime `ttlMinutes` (any integer the setting parses to). It names the user by
   * the text of its id and expires that many minutes after `now`. A zero lifetime is
   * falsy, so it falls back to 15 minutes. Instants are counted in seconds.
   */
  function IssueClaims(u: User, now: Time, ttlMinutes: int): (c: Claims)
    ensures c.sub == Some(UuidText(u.id))
    ensures ttlMinutes != 0 ==> c.exp - now == ttlMinutes * 60
    ensures ttlMinutes == 0 ==> c.exp - now == DefaultTokenMinutes * 60
    ensures c.exp > now <==> ttlMinutes >= 0
    ensures c.exp != now
  {
    var minutes := if ttlMinutes != 0 then ttlMinutes else DefaultTokenMinutes;
    Claims(Some(UuidText(u.id)), now + minutes * 60)
  }

  const CredentialsDetail: string := "Could not validate credentials"
  const UserNotFoundDetail: string := "User not found"

  /**
   * `get_current_user` after `decode_access_token`: 401 when the token does not decode
   * or carries no "sub" claim, 401 "User not found" when the claimed user is not in the
   * table, and an unhandled `ValueError` (500) when "sub" is not a UUID, since that
   * escapes `except jwt.JWTError`.
   */
  function CurrentUser(rows: seq<User>, decoded: Option<Claims>): (r: Result<User, HttpError>)
    ensures (decoded.None? || decoded.value.sub.None?) ==> r == Err(Raised(401, CredentialsDetail))
    ensures decoded.Some? && decoded.value.sub.Some? && ParseUuid(decoded.value.sub.value).None? ==>
              r == Err(Unhandled(MalformedUuid))
    ensures decoded.Some? && decoded.value.sub.Some? && ParseUuid(decoded.value.sub.value).Some? ==>
              var id := ParseUuid(decoded.value.sub.value).value;
              (FindById(rows, id).None? ==> r == Err(Raised(401, UserNotFoundDetail))) &&
              (FindById(rows, id).Some? ==> r == Ok(FindById(rows, id).value))
    ensures r.Ok? ==> r.value in rows
  {
    match decoded
    case None => Err(Raised(401, CredentialsDetail))
    case Some(claims) =>
      match claims.sub
      case None => Err(Raised(401, CredentialsDetail))
      case Some(sub) =>
        match ParseUuid(sub)
        case None => Err(Unhandled(MalformedUuid))
        case Some(id) =>
          match FindById(rows, id)
          case None => Err(Raised(401, UserNotFoundDetail))
          case Some(u) => Ok(u)
  }

  /**
   * Identity resolution never tells a missing claim from a vanished user by status:
   * every rejection it raises itself is a 401.
   */
  lemma CurrentUserRejectsWith401(rows: seq<User>, decoded: Option<Claims>)
    requires CurrentUser(rows, decoded).Err?
    requires CurrentUser(rows, decoded).error.Raised?
    ensures Status(CurrentUser(rows, decoded).error) == 401
  {
  }

  /** A token issued for a user in the table resolves back to exactly that user. */
  lemma IssuedClaimsResolve(rows: seq<User>, u: User, now: Time, ttlMinutes: int)
    requires IdsUnique(rows) && u in rows
    ensures CurrentUser(rows, Some(IssueClaims(u, now, ttlMinutes))) == Ok(u)
  {
    UuidRoundTrip(u.id);
    FindByIdUnique(rows, u);
  }
}
