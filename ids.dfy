/**
 * Identifiers and instants. A UUID is modelled as a natural number and its text form
 * (`str(uuid)`) as its decimal digits, so that `uuid.UUID(s)` becomes a decimal parse
 * that fails, like the original's `ValueError`, on anything else. The clock
 * (`datetime.utcnow()`) is a natural number passed in by the caller.
 */
module Ids {
  import opened Wrappers
  import opened Text

  type Uuid = nat
  type Time = nat

  /** `str(u)`. */
  function UuidText(u: Uuid): string {
    ToDecimal(u)
  }

  /** `uuid.UUID(s)`; `None` is the `ValueError` raised for a malformed string. */
  function ParseUuid(s: string): (r: Option<Uuid>)
    ensures r.Some? <==> s != [] && AllDigits(s)
  {
    ParseDecimal(s)
  }

  /** `uuid.UUID(str(u)) == u`. */
  lemma UuidRoundTrip(u: Uuid)
    ensures ParseUuid(UuidText(u)) == Some(u)
  {
    DecimalRoundTrip(u);
  }
}
