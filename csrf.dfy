/**
 * The double-submit CSRF token of `app/lib/csrf.ts`.
 *
 * A random secret is kept, with the time it was issued, in the `csrf_token`
 * cookie; the page receives a digest of the secret and must send it back in
 * the `X-CSRF-Token` header of every request that is not a GET or a HEAD.
 *
 * The SHA-256 hex digest is the uninterpreted function `digest`, fixed when a
 * guard is made. The cookie's JSON text is modelled by what parsing it yields:
 * a token record, or a failure to parse. `randomBytes` is the parameter
 * `random` and `Date.now()` the parameter `now` (milliseconds).
 */
module Csrf {
  import opened Wrappers

  const CSRF_SECRET_LENGTH: nat := 32
  /** 24 hours, in milliseconds. */
  const TOKEN_TIMEOUT: int := 24 * 60 * 60 * 1000
  /** The cookie's `maxAge`: the timeout in seconds. */
  const COOKIE_MAX_AGE: int := TOKEN_TIMEOUT / 1000

  const INVALID_TOKEN_BODY: string := "Invalid CSRF token"
  const FORBIDDEN: int := 403

  newtype byte = x: int | 0 <= x < 256

  // ---------------------------------------------------------------------------
  // randomBytes(...).toString('hex')
  // ---------------------------------------------------------------------------

  predicate IsLowerHex(c: char)
  {
    '0' <= c <= '9' || 'a' <= c <= 'f'
  }

  function HexDigit(n: int): (c: char)
    requires 0 <= n < 16
    ensures IsLowerHex(c)
  {
    if n < 10 then ('0' as int + n) as char else ('a' as int + n - 10) as char
  }

  lemma HexDigitInjective(m: int, n: int)
    requires 0 <= m < 16 && 0 <= n < 16 && HexDigit(m) == HexDigit(n)
    ensures m == n
  {
    assert HexDigit(m) as int == HexDigit(n) as int;
  }

  /** Two lower-case hex digits per byte, high nibble first. */
  function HexEncode(bytes: seq<byte>): (s: string)
    ensures |s| == 2 * |bytes|
    ensures forall i :: 0 <= i < |s| ==> IsLowerHex(s[i])
  {
    if bytes == [] then []
    else
      var b := bytes[0] as int;
      [HexDigit(b / 16), HexDigit(b % 16)] + HexEncode(bytes[1..])
  }

  /** Different random bytes give different secrets. */
  lemma {:induction false} HexEncodeInjective(a: seq<byte>, b: seq<byte>)
    requires HexEncode(a) == HexEncode(b)
    ensures a == b
  {
    if a != [] {
      assert b != [];
      var x, y := a[0] as int, b[0] as int;
      assert HexDigit(x / 16) == HexEncode(a)[0] == HexEncode(b)[0] == HexDigit(y / 16);
      assert HexDigit(x % 16) == HexEncode(a)[1] == HexEncode(b)[1] == HexDigit(y % 16);
      HexDigitInjective(x / 16, y / 16);
      HexDigitInjective(x % 16, y % 16);
      assert x == 16 * (x / 16) + x % 16 && y == 16 * (y / 16) + y % 16;
      assert HexEncode(a[1..]) == HexEncode(a)[2..] == HexEncode(b)[2..] == HexEncode(b[1..]);
      HexEncodeInjective(a[1..], b[1..]);
      assert a == [a[0]] + a[1..] && b == [b[0]] + b[1..];
    }
  }

  /** A secret drawn from `CSRF_SECRET_LENGTH` bytes is 64 hex digits long. */
  lemma SecretLength(random: seq<byte>)
    requires |random| == CSRF_SECRET_LENGTH
    ensures |HexEncode(random)| == 64
  {
  }

  // ---------------------------------------------------------------------------
  // The cookie and the checks
  // ---------------------------------------------------------------------------

  /** `TokenData`: the secret (field `token`) and when it was issued. */
  datatype TokenData = TokenData(token: string, timestamp: int)

  /** What `JSON.parse` makes of the cookie's text. */
  datatype CookieValue = Parsed(data: TokenData) | Unparsable(raw: string)

  /** The `csrf_token` cookie: its value and the `maxAge` it was set with. */
  datatype Cookie = Cookie(value: CookieValue, maxAge: int)

  /** The `Response` with which the middleware turns a request away. */
  datatype Response = Response(status: int, body: string)

  /** Strictly more than 24 hours after issue. */
  predicate Expired(data: TokenData, now: int)
  {
    now - data.timestamp > TOKEN_TIMEOUT
  }

  /** The length of a SHA-256 digest written out in hex. */
  const DIGEST_LENGTH: nat := 64

  /** The token manager of one caller: the digest function and the caller's cookie. */
  class CsrfGuard {
    const digest: string -> string
    var cookie: Option<Cookie>

    /** `createHash('sha256').update(s).digest('hex')` is 64 characters for every `s`. */
    ghost predicate Valid()
      reads this
    {
      forall s :: |digest(s)| == DIGEST_LENGTH
    }

    /** A guard for a caller whose request carries `cookie` (perhaps none, perhaps stale or forged). */
    constructor (digest: string -> string, cookie: Option<Cookie>)
      requires forall s :: |digest(s)| == DIGEST_LENGTH
      ensures Valid() && this.digest == digest && this.cookie == cookie
    {
      this.digest := digest;
      this.cookie := cookie;
    }

    /**
     * `generateToken`: overwrite the cookie with a fresh secret and the issue
     * time, and return the secret's digest. From then on exactly that digest
     * validates, and only for 24 hours (the 24th hour included).
     */
    method GenerateToken(random: seq<byte>, now: int) returns (token: string)
      requires Valid() && |random| == CSRF_SECRET_LENGTH
      modifies this
      ensures Valid()
      ensures |token| == DIGEST_LENGTH
      ensures cookie == Some(Cookie(Parsed(TokenData(HexEncode(random), now)), 86400))
      ensures token == digest(HexEncode(random))
      ensures forall formToken, later :: ValidateToken(formToken, later) <==>
                later - now <= TOKEN_TIMEOUT && formToken == token
    {
      var secret := HexEncode(random);
      cookie := Some(Cookie(Parsed(TokenData(secret, now)), COOKIE_MAX_AGE));
      token := digest(secret);
    }

    /**
     * `validateToken`: fails closed. It is true only when the cookie is there,
     * parses, is not expired, and `formToken` is the digest of its secret.
     */
    function ValidateToken(formToken: string, now: int): (ok: bool)
      reads this
      ensures cookie.None? ==> !ok
      ensures cookie.Some? && cookie.value.value.Unparsable? ==> !ok
      ensures cookie.Some? && cookie.value.value.Parsed? && Expired(cookie.value.value.data, now) ==> !ok
      ensures ok ==> cookie.Some? && cookie.value.value.Parsed?
                     && formToken == digest(cookie.value.value.data.token)
      ensures (cookie.Some? && cookie.value.value.Parsed? && !Expired(cookie.value.value.data, now)
               && formToken == digest(cookie.value.value.data.token)) ==> ok
    {
      match cookie
      case None => false
      case Some(stored) =>
        match stored.value
        case Unparsable(_) => false
        case Parsed(data) =>
          if now - data.timestamp > TOKEN_TIMEOUT then false
          else formToken == digest(data.token)
    }

    /**
     * `csrfProtection`: GET and HEAD always pass; any other method passes only
     * with a non-empty `X-CSRF-Token` header that validates, and is otherwise
     * answered 403 "Invalid CSRF token". `None` means the request goes on.
     */
    function CsrfProtection(httpMethod: string, csrfHeader: Option<string>, now: int): (rejection: Option<Response>)
      reads this
      ensures httpMethod == "GET" || httpMethod == "HEAD" ==> rejection == None
      ensures httpMethod != "GET" && httpMethod != "HEAD" ==>
                (rejection == None <==>
                   csrfHeader.Some? && csrfHeader.value != "" && ValidateToken(csrfHeader.value, now))
      ensures rejection.Some? ==> rejection.value == Response(FORBIDDEN, INVALID_TOKEN_BODY)
    {
      if httpMethod != "GET" && httpMethod != "HEAD" then
        match csrfHeader
        case None => Some(Response(FORBIDDEN, INVALID_TOKEN_BODY))
        case Some(formToken) =>
          if formToken == "" || !ValidateToken(formToken, now) then Some(Response(FORBIDDEN, INVALID_TOKEN_BODY))
          else None
      else None
    }
  }

  /**
   * A caller gets a token, then posts: with the token the request passes
   * within a day of issue; with any other header, or none, it is answered 403;
   * a GET passes with no header at all.
   */
  method IssueThenPost(digest: string -> string, stale: Option<Cookie>, random: seq<byte>,
                       issuedAt: int, later: int, forged: string)
    returns (genuine: Option<Response>, tampered: Option<Response>, bare: Option<Response>, read: Option<Response>)
    requires forall s :: |digest(s)| == DIGEST_LENGTH
    requires |random| == CSRF_SECRET_LENGTH
    requires forged != digest(HexEncode(random))
    requires later - issuedAt <= TOKEN_TIMEOUT
    ensures genuine == None
    ensures tampered == Some(Response(403, "Invalid CSRF token"))
    ensures bare == Some(Response(403, "Invalid CSRF token"))
    ensures read == None
  {
    var guard := new CsrfGuard(digest, stale);
    var token := guard.GenerateToken(random, issuedAt);
    genuine := guard.CsrfProtection("POST", Some(token), later);
    tampered := guard.CsrfProtection("POST", Some(forged), later);
    bare := guard.CsrfProtection("DELETE", None, later);
    read := guard.CsrfProtection("GET", None, later);
  }

  /** A day and a millisecond after issue, even the genuine token is refused. */
  method ExpiredTokenRefused(digest: string -> string, random: seq<byte>, issuedAt: int)
    returns (atDeadline: bool, pastDeadline: bool)
    requires forall s :: |digest(s)| == DIGEST_LENGTH
    requires |random| == CSRF_SECRET_LENGTH
    ensures atDeadline && !pastDeadline
  {
    var guard := new CsrfGuard(digest, None);
    var token := guard.GenerateToken(random, issuedAt);
    atDeadline := guard.ValidateToken(token, issuedAt + 86_400_000);
    pastDeadline := guard.ValidateToken(token, issuedAt + 86_400_001);
  }
}
