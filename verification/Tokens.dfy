/**
 Token objects and their claims: taiga/auth/tokens.py and taiga/auth/utils.py.

 Times are whole microseconds, as Python's datetimes are; the "exp" claim holds whole seconds.
 Signing is an invertible encoding: a token string is either the encoding of the claims this
 server signed or something its key does not verify.
 */
module Tokens {

  datatype Claim = Number(n: int) | Text(s: string)

  type Claims = map<string, Claim>

  datatype Jwt = Signed(claims: Claims) | Unverifiable(text: string)

  datatype Kind = Kind(name: string, lifetime: int)

  const SECOND: int := 1_000_000

  const NO_COPY_CLAIMS: set<string> := {"token_type", "exp", "jti"}

  /** `timegm` of the time tuple drops the microseconds. */
  function DatetimeToEpoch(t: int): int {
    t / SECOND
  }

  function DatetimeFromEpoch(seconds: int): int {
    seconds * SECOND
  }

  function FreshClaims(kind: Kind, now: int, jti: string): Claims {
    map["token_type" := Text(kind.name), "exp" := Number(DatetimeToEpoch(now + kind.lifetime)), "jti" := Text(jti)]
  }

  /** The claims of an access token made from a refresh token: the copied ones, and its own type, exp and jti. */
  function AccessClaims(refresh: Claims, access: Kind, now: int, jti: string): Claims {
    (map claim | claim in refresh && claim !in NO_COPY_CLAIMS :: refresh[claim]) + FreshClaims(access, now, jti)
  }

  /**
   An access token has exactly the copied claims and its own three, whatever the refresh token had under those
   names.
   */
  lemma AccessClaimsAre(refresh: Claims, access: Kind, now: int, jti: string, claim: string)
    ensures
      var claims := AccessClaims(refresh, access, now, jti);
      claims.Keys == refresh.Keys + {"token_type", "exp", "jti"} &&
      (claim in refresh && claim !in {"token_type", "exp", "jti"} ==> claims[claim] == refresh[claim]) &&
      claims["token_type"] == Text(access.name) && claims["jti"] == Text(jti) && claims["exp"].Number? &&
      claims["exp"].n * 1_000_000 <= now + access.lifetime < (claims["exp"].n + 1) * 1_000_000
  {
  }

  class Token {
    const kind: Kind
    const currentTime: int
    var payload: Claims

    /** A new token of the given kind. */
    constructor (kind: Kind, now: int, jti: string)
      ensures this.kind == kind && currentTime == now
      ensures payload == FreshClaims(kind, now, jti)
    {
      this.kind, currentTime := kind, now;
      payload := map["token_type" := Text(kind.name)];
      new;
      SetExp(now);
      SetJti(jti);
    }

    /** A token wrapping claims that were already decoded and verified. */
    constructor Decoded(kind: Kind, now: int, claims: Claims)
      ensures this.kind == kind && currentTime == now && payload == claims
    {
      this.kind, currentTime, payload := kind, now, claims;
    }

    method SetExp(from: int)
      modifies this
      ensures payload == old(payload)["exp" := Number(DatetimeToEpoch(from + kind.lifetime))]
    {
      payload := payload["exp" := Number(DatetimeToEpoch(from + kind.lifetime))];
    }

    method SetJti(jti: string)
      modifies this
      ensures payload == old(payload)["jti" := Text(jti)]
    {
      payload := payload["jti" := Text(jti)];
    }

    /** `created` is the moment `AccessToken()` is built; its exp is then set again from this token's own time. */
    method AccessToken(access: Kind, created: int, jti: string) returns (token: Token)
      ensures fresh(token) && token.payload == AccessClaims(payload, access, currentTime, jti)
    {
      token := new Token(access, created, jti);
      token.SetExp(currentTime);
      ghost var base := token.payload;
      assert base == FreshClaims(access, currentTime, jti);
      hide FreshClaims;
      var claims := payload.Keys;
      while claims != {}
        invariant claims <= payload.Keys
        invariant token.payload ==
          (map claim | claim in payload && claim !in claims && claim !in NO_COPY_CLAIMS :: payload[claim]) + base
        decreases claims
      {
        var claim :| claim in claims;
        if claim !in NO_COPY_CLAIMS {
          token.payload := token.payload[claim := payload[claim]];
        }
        claims := claims - {claim};
      }
    }
  }

  // -------------------------------------------------------------------------
  // Expiry arithmetic
  // -------------------------------------------------------------------------

  predicate Unexpired(issuedAt: int, lifetime: int, now: int) {
    DatetimeFromEpoch(DatetimeToEpoch(issuedAt + lifetime)) > now
  }

  /** A token is good for more than its lifetime less one second, and for at most its lifetime. */
  lemma UsableForAlmostItsLifetime(issuedAt: int, lifetime: int, now: int)
    ensures now <= issuedAt + lifetime - 1_000_000 ==> Unexpired(issuedAt, lifetime, now)
    ensures Unexpired(issuedAt, lifetime, now) ==> now < issuedAt + lifetime
  {
    var t := issuedAt + lifetime;
    assert t == SECOND * (t / SECOND) + t % SECOND;
  }

  /**
   A refresh and an access token of the same moment expire exactly the difference of their lifetimes
   apart, although both exps are truncated, iff that difference is a whole number of seconds.
   */
  lemma PairExpiryDifference(issuedAt: int, refreshLifetime: int, accessLifetime: int)
    ensures
      DatetimeFromEpoch(DatetimeToEpoch(issuedAt + refreshLifetime) - DatetimeToEpoch(issuedAt + accessLifetime)) ==
        refreshLifetime - accessLifetime <==>
      (refreshLifetime - accessLifetime) % SECOND == 0
  {
    var r, a := issuedAt + refreshLifetime, issuedAt + accessLifetime;
    var difference := r - a;
    assert r == SECOND * (r / SECOND) + r % SECOND;
    assert a == SECOND * (a / SECOND) + a % SECOND;
    assert difference == SECOND * (difference / SECOND) + difference % SECOND;
  }
}
