/** Shared vocabulary of the controllers: optional request values, the error
    statuses a handler answers with, JavaScript truthiness of request values,
    SQL COALESCE and array-slice pagination. */
module Common {

  datatype Option<T> = None | Some(value: T)

  /** The failing HTTP statuses the handlers answer with (400, 401, 403, 404).
      A 500 from a failing database call is not part of the model. */
  datatype Error = BadRequest | Unauthorized | Forbidden | NotFound

  /** A handler's answer: success with a payload, or one error status. */
  datatype Result<T> = Ok(value: T) | Fail(error: Error)

  /** `if (x)` on a string field of a request body: absent and "" are falsy. */
  predicate Truthy(x: Option<string>) {
    x.Some? && x.value != ""
  }

  /** `if (x)` on an id field of a request body: absent and 0 are falsy. */
  predicate TruthyId(x: Option<nat>) {
    x.Some? && x.value != 0
  }

  /** `if (x)` on a numeric field (a body value or a stored column): absent, null and 0 are falsy. */
  predicate TruthyNumber(x: Option<real>) {
    x.Some? && x.value != 0.0
  }

  /** `x || null` on a number: a falsy number is stored as NULL. */
  function OrNull(x: Option<real>): (r: Option<real>)
    ensures r.Some? <==> TruthyNumber(x)
    ensures r.Some? ==> r == x
  {
    if TruthyNumber(x) then x else None
  }

  /** `COALESCE(?, column)` on a NOT NULL column. */
  function Coalesce<T>(supplied: Option<T>, current: T): T {
    match supplied
    case Some(v) => v
    case None => current
  }

  /** `COALESCE(?, column)` on a nullable column. */
  function CoalesceNullable<T>(supplied: Option<T>, current: Option<T>): Option<T> {
    if supplied.Some? then supplied else current
  }

  function Min(a: int, b: int): int {
    if a <= b then a else b
  }

  /** `list.slice(offset, offset + limit)` (and SQL `LIMIT limit OFFSET offset`):
      the window of at most `limit` entries starting at `offset`, clamped to
      the end of the list. */
  function Page<T>(s: seq<T>, offset: nat, limit: nat): (p: seq<T>)
    ensures |p| == if offset >= |s| then 0 else Min(limit, |s| - offset)
    ensures forall i :: 0 <= i < |p| ==> p[i] == s[offset + i]
  {
    if offset >= |s| then [] else s[offset .. Min(offset + limit, |s|)]
  }

  /** `endIndex < list.length`, the `hasMore` flag of a listing. */
  predicate HasMore(total: nat, offset: nat, limit: nat) {
    offset + limit < total
  }

  /** The entries of a full list are exactly the union of its consecutive
      pages: with `hasMore` false the page ends the list, and with it true
      the next page starts where this one stops. */
  lemma PagesTile<T>(s: seq<T>, offset: nat, limit: nat)
    requires offset <= |s|
    ensures Page(s, offset, limit) + (if HasMore(|s|, offset, limit) then Page(s, offset + limit, |s|) else []) == s[offset..]
  {
    if HasMore(|s|, offset, limit) {
      assert Page(s, offset, limit) == s[offset .. offset + limit];
      assert Page(s, offset + limit, |s|) == s[offset + limit ..];
    } else {
      assert Page(s, offset, limit) == s[offset..];
    }
  }

  /** True when `prefix` is a prefix of `s` (String.prototype.startsWith). */
  predicate StartsWith(s: string, prefix: string) {
    |prefix| <= |s| && s[..|prefix|] == prefix
  }

  /** True when `needle` occurs in `s` (the `%needle%` pattern of SQL LIKE). */
  predicate Contains(s: string, needle: string) {
    StartsWith(s, needle) || (s != [] && Contains(s[1..], needle))
  }
}
