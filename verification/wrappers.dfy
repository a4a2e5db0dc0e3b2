/** Optional values, upstream outcomes and JavaScript truthiness helpers shared by every module. */
module Wrappers {

  /** A JSON member that may be absent (`undefined` or `null`) or present. */
  datatype Option<+T> = None | Some(value: T) {
    function GetOr(default: T): T {
      match this
      case Some(v) => v
      case None => default
    }
  }

  /** The settled result of one upstream call: a parsed body, or a failure
      (non-ok status, thrown network error or unparsable body). */
  datatype Outcome<+T> = Ok(payload: T) | Fail

  /** The settled result of an operation of the system itself: a value, or the
      message of the error it throws. */
  datatype Result<+T> = Success(value: T) | Failure(error: string)

  /** JavaScript truthiness of an optional string: absent and `""` are falsy. */
  predicate TruthyString(o: Option<string>) {
    o.Some? && o.value != ""
  }

  /** JavaScript truthiness of an optional number: absent and `0` are falsy. */
  predicate TruthyNumber(o: Option<real>) {
    o.Some? && o.value != 0.0
  }

  /** `o || d` for an optional string. */
  function StringOr(o: Option<string>, d: string): string {
    if TruthyString(o) then o.value else d
  }

  /** `o || d` for an optional number. */
  function NumberOr(o: Option<real>, d: real): real {
    if TruthyNumber(o) then o.value else d
  }

  /** `o || null` for an optional string: an empty string is stored as null. */
  function NullIfEmpty(o: Option<string>): Option<string> {
    if TruthyString(o) then o else None
  }
}
