/**
 * What the route handlers share: the status codes they answer with, the
 * JavaScript truthiness test they apply to request fields, and JavaScript's
 * string length.
 */
module Http {
  import opened Schema

  const OK: nat := 200
  const CREATED: nat := 201
  const BAD_REQUEST: nat := 400
  const UNAUTHORIZED: nat := 401
  const NOT_FOUND: nat := 404
  const SERVER_ERROR: nat := 500

  /**
   * A request field as the handlers test it with `!field`: a missing field
   * (`None`) and the empty string are both falsy.
   */
  predicate Filled(field: Option<string>) {
    field.Some? && field.value != ""
  }

  /**
   * `s.length` in JavaScript counts UTF-16 code units: a code point above
   * U+FFFF takes two, so the length is the number of code points plus the
   * number of those above U+FFFF.
   */
  function Utf16Length(s: string): (n: nat)
    ensures n == |s| + multiset(seq(|s|, i requires 0 <= i < |s| => s[i] >= '\U{10000}'))[true]
    ensures |s| <= n <= 2 * |s|
    ensures n == |s| <==> forall i :: 0 <= i < |s| ==> s[i] < '\U{10000}'
  {
    if s == [] then 0
    else
      var astral := seq(|s|, i requires 0 <= i < |s| => s[i] >= '\U{10000}');
      var rest := seq(|s[1..]|, i requires 0 <= i < |s[1..]| => s[1..][i] >= '\U{10000}');
      assert astral == [s[0] >= '\U{10000}'] + rest;
      (if s[0] < '\U{10000}' then 1 else 2) + Utf16Length(s[1..])
  }
}
