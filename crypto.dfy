/**
 * The two cryptographic libraries the routes call, bcrypt and jsonwebtoken,
 * taken as capabilities the caller supplies. Their algorithms are not part
 * of this model: a capability is any pair of functions, and the handful of
 * facts the routes rely on are stated as predicates over it.
 */
module Crypto {
  import opened Schema

  /** bcrypt at cost 10: `hash(password, 10)` and `compare(password, digest)`. */
  datatype Bcrypt = Bcrypt(hash: string -> string, compare: (string, string) -> bool)

  /** The one fact the routes need: a password matches its own digest. */
  ghost predicate AcceptsOwnHash(b: Bcrypt) {
    forall pw :: b.compare(pw, b.hash(pw))
  }

  /** The payload of a session token: `{ id }`, plus `iat` and `exp` that jsonwebtoken adds, in seconds. */
  datatype Claims = Claims(id: int, iat: nat, exp: nat)

  /**
   * jsonwebtoken with the server's secret: `sign` produces the token text,
   * `decode` checks the signature and parses the payload, failing on a
   * malformed or forged token.
   */
  datatype Jwt = Jwt(sign: Claims -> string, decode: string -> Option<Claims>)

  /**
   * A token the server signed is a non-empty string that decodes to the
   * claims it was signed with.
   */
  ghost predicate RoundTrips(j: Jwt) {
    forall c :: j.sign(c) != "" && j.decode(j.sign(c)) == Some(c)
  }

  /** `expiresIn: '7d'`, and the cookie's `maxAge: 7 * 24 * 60 * 60`. */
  const SevenDays: nat := 7 * 24 * 60 * 60

  /** `jwt.sign({ id }, secret, { expiresIn: '7d' })` at time `now`. */
  function Issue(j: Jwt, id: int, now: nat): string {
    j.sign(Claims(id, now, now + SevenDays))
  }

  /**
   * `jwt.verify(token, secret)`: the signature must check and the token must
   * not have expired; jsonwebtoken treats a token as expired once the clock
   * reaches `exp`. `None` stands for the exception verify throws.
   */
  function Verify(j: Jwt, token: string, now: nat): (r: Option<Claims>)
    ensures r.Some? <==> j.decode(token).Some? && now < j.decode(token).value.exp
    ensures r.Some? ==> r == j.decode(token)
  {
    match j.decode(token)
    case None => None
    case Some(c) => if now < c.exp then Some(c) else None
  }

  /**
   * Expiry is for good: a well-signed token that `jwt.verify` rejects at
   * some time is rejected at every later time, and one it accepts at some
   * time it accepted, with the same claims, at every earlier time.
   */
  lemma ExpiryIsPermanent(j: Jwt, token: string, earlier: nat, later: nat)
    requires earlier <= later
    ensures j.decode(token).Some? && Verify(j, token, earlier).None? ==> Verify(j, token, later).None?
    ensures Verify(j, token, later).Some? ==> Verify(j, token, earlier) == Verify(j, token, later)
  {
  }

  /**
   * A token issued at `now` verifies, to the id it was issued for, exactly
   * until seven days have passed.
   */
  lemma IssuedTokenLifetime(j: Jwt, id: int, now: nat, later: nat)
    requires RoundTrips(j)
    ensures Verify(j, Issue(j, id, now), later).Some? <==> later < now + SevenDays
    ensures Verify(j, Issue(j, id, now), later).Some? ==>
              Verify(j, Issue(j, id, now), later).value == Claims(id, now, now + SevenDays)
  {
    assert j.decode(j.sign(Claims(id, now, now + SevenDays))) == Some(Claims(id, now, now + SevenDays));
  }
}
