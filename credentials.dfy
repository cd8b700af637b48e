/**
 * Password hashing (hf-backend/app.py `hash_password`, `verify_password`). The hashing
 * algorithm itself (passlib's bcrypt context) is not modelled: a `Vault` is a pair of
 * arbitrary functions, and the single fact assumed of them, that a password verifies
 * against its own hash, is the predicate `Sound`, taken as a hypothesis by the lemmas
 * that need it.
 */
module Credentials {
  import opened Wrappers
  import opened Text

  datatype Vault = Vault(hash: string -> string, verify: (string, string) -> bool)

  /** `verify(p, hash(p))` for every password `p`. */
  ghost predicate Sound(v: Vault) {
    forall p :: v.verify(p, v.hash(p))
  }

  /** bcrypt's input limit, in bytes of UTF-8. */
  const MaxPasswordBytes: nat := 72

  /** The text of the `ValueError` raised for an over-long password. */
  const TooLongMessage: string := "Password must be 72 bytes or less"

  /**
   * `hash_password`: refuses, with `ValueError(TooLongMessage)`, exactly the passwords
   * whose UTF-8 encoding is longer than 72 bytes; otherwise returns the vault's hash.
   */
  function HashPassword(v: Vault, password: string): (r: Result<string, string>)
    ensures r.Err? <==> Utf8Length(password) > MaxPasswordBytes
    ensures r.Ok? ==> r.value == v.hash(password)
    ensures r.Err? ==> r.error == TooLongMessage
  {
    if Utf8Length(password) > MaxPasswordBytes then Err(TooLongMessage) else Ok(v.hash(password))
  }

  /** A hash produced by `HashPassword` verifies against the password it came from. */
  lemma HashedPasswordVerifies(v: Vault, password: string)
    requires Sound(v)
    requires HashPassword(v, password).Ok?
    ensures v.verify(password, HashPassword(v, password).value)
  {
  }

  /**
   * The limit counts bytes, not characters: n copies of one character are refused
   * exactly when n times that character's UTF-8 width exceeds 72.
   */
  lemma {:induction false} RepeatedCharacterLimit(v: Vault, c: char, n: nat)
    ensures HashPassword(v, seq(n, _ => c)).Err? <==> n * Utf8Width(c) > 72
  {
    Utf8LengthRepeat(c, n);
  }

  /** 72 ASCII characters are 72 bytes: accepted. */
  lemma SeventyTwoAsciiAccepted(v: Vault)
    ensures HashPassword(v, seq(72, _ => 'a')).Ok?
  {
    RepeatedCharacterLimit(v, 'a', 72);
  }

  /** 73 ASCII characters are 73 bytes: refused. */
  lemma SeventyThreeAsciiRejected(v: Vault)
    ensures HashPassword(v, seq(73, _ => 'a')) == Err(TooLongMessage)
  {
    RepeatedCharacterLimit(v, 'a', 73);
  }

  /** 19 four-byte characters (76 bytes) are refused although 19 is far below 72. */
  lemma ShortMultiByteRejected(v: Vault)
    ensures HashPassword(v, seq(19, _ => '\U{1F511}')).Err?
  {
    RepeatedCharacterLimit(v, '\U{1F511}', 19);
  }

  /** 10 four-byte characters are 40 bytes: accepted. */
  lemma TenFourByteAccepted(v: Vault)
    ensures HashPassword(v, seq(10, _ => '\U{1F511}')).Ok?
  {
    RepeatedCharacterLimit(v, '\U{1F511}', 10);
  }
}
