/** Tokens: app/core/security.py.  Signing is an injective encoding of the claims. */
module Tokens {
  import opened Prelude

  datatype Role = ADMIN | CHARGER | WORKER | CAREGIVER

  datatype TokenType = ACCESS | REFRESH

  /** `iat` and `exp` count seconds (RFC 7519, section 4.1); the clock counts microseconds.
      `sub` is None when the claim is not the decimal form of an integer. */
  datatype Claims = Claims(sub: Option<int>, iat: int, exp: int, usn: string, roles: seq<Role>, typ: TokenType)

  /** What a client presents: claims under this server's signature and issuer, or anything else. */
  datatype Token = Signed(claims: Claims) | Unverifiable(text: string)

  datatype Settings = Settings(accessTtlMinutes: nat, refreshTtlDays: nat, readOnly: bool)

  datatype AuthError =
    | TokenExpired | TokenInvalid
    | InvalidCredentials | AccountDisabled
    | RefreshNotFound | UserNotFound
    | UsernameDuplicated | EmailDuplicated
    | ReadOnlyMode

  function AccessTtlSeconds(cfg: Settings): nat {
    cfg.accessTtlMinutes * 60
  }

  function RefreshTtlSeconds(cfg: Settings): nat {
    cfg.refreshTtlDays * 86400
  }

  function TtlSeconds(cfg: Settings, typ: TokenType): nat {
    if typ == ACCESS then AccessTtlSeconds(cfg) else RefreshTtlSeconds(cfg)
  }

  /** `int(datetime.timestamp())`: the second the instant `now` falls in. */
  function Epoch(now: nat): (s: nat)
    ensures s * SECOND <= now < (s + 1) * SECOND
  {
    now / SECOND
  }

  function CreateToken(cfg: Settings, userId: int, username: string, roles: seq<Role>, typ: TokenType, now: nat): Token {
    Signed(Claims(Some(userId), Epoch(now), Epoch(now) + TtlSeconds(cfg, typ), username, roles, typ))
  }

  /** Checks in the order PyJWT and `parse_token` make them. */
  function ParseToken(token: Token, expected: TokenType, now: nat): Result<Claims, AuthError> {
    match token
    case Unverifiable(_) => Err(TokenInvalid)
    case Signed(c) =>
      if c.iat * SECOND > now then Err(TokenInvalid)
      else if c.exp * SECOND <= now then Err(TokenExpired)
      else if c.typ != expected then Err(TokenInvalid)
      else if c.sub.None? then Err(TokenInvalid)
      else Ok(c)
  }

  /** A token is readable from its second of issue until its lifetime has run out, as its own type only. */
  lemma CreatedTokenParses(cfg: Settings, userId: int, username: string, roles: seq<Role>, typ: TokenType, issued: nat,
                           expected: TokenType, now: nat)
    ensures var r := ParseToken(CreateToken(cfg, userId, username, roles, typ, issued), expected, now);
            && (r.Ok? <==> expected == typ && Epoch(issued) <= Epoch(now) < Epoch(issued) + TtlSeconds(cfg, typ))
            && (r.Ok? ==> r.value.sub == Some(userId) && r.value.usn == username && r.value.roles == roles)
            && (r == Err(TokenExpired) ==> Epoch(issued) + TtlSeconds(cfg, typ) <= Epoch(now))
  {
    var iat, exp := Epoch(issued), Epoch(issued) + TtlSeconds(cfg, typ);
    assert iat * SECOND > now <==> iat > Epoch(now);
    assert exp * SECOND <= now <==> exp <= Epoch(now);
  }

  /** There is no nonce: two refresh tokens of one user are the same string exactly when issued in the same second. */
  lemma SameTokenIffSameSecond(cfg: Settings, userId: int, username: string, roles: seq<Role>, a: nat, b: nat)
    ensures CreateToken(cfg, userId, username, roles, REFRESH, a) == CreateToken(cfg, userId, username, roles, REFRESH, b)
            <==> Epoch(a) == Epoch(b)
  {
  }

  /** A key stored with the refresh lifetime at or after the issue outlives the token. */
  lemma KeyOutlivesToken(cfg: Settings, userId: int, username: string, roles: seq<Role>, issued: nat, saved: nat)
    requires issued <= saved
    ensures CreateToken(cfg, userId, username, roles, REFRESH, issued).claims.exp * SECOND
            <= saved + RefreshTtlSeconds(cfg) * SECOND
  {
  }
}
