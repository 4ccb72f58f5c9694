/** The JWT codec (security/token.go): RFC 7519 tokens carrying sub, jti,
    exp and iat plus a custom sid claim, signed with HMAC-SHA256 (section
    3.2 of RFC 7518).

    The compact serialisation and the MAC are symbolic: a token is its header
    algorithm, its claims and a signature, and a signature is valid for a
    key exactly when it is the MAC value Mac(alg, key, claims). Distinct
    constructor arguments give distinct MACs, which is the unforgeability
    the library relies on. */
module Token {
  import opened Errors
  import opened Strconv

  /** 15 minutes and 30 days, in seconds. */
  const DefaultAccessTTL: int := 15 * 60
  const DefaultRefreshTTL: int := 30 * 24 * 60 * 60

  /** security.JWTConfig: durations in seconds. */
  datatype JwtConfig = JwtConfig(secret: string, accessTTL: int, refreshTTL: int)

  /** security.JWTTokenManager; its fields never change after construction. */
  datatype Manager = Manager(secret: string, accessTTL: int, refreshTTL: int)

  /** The "alg" header values a presented token may carry. */
  datatype Alg = HS256 | HS384 | HS512 | RS256 | ES256 | EdDSA | NoneAlg

  /** The algorithms implemented by jwt.SigningMethodHMAC. */
  predicate IsHmac(a: Alg) {
    a == HS256 || a == HS384 || a == HS512
  }

  /** CustomClaims: sid, then the registered sub, jti, exp and iat. */
  datatype Claims = Claims(sid: string, sub: string, jti: string, exp: int, iat: int)

  datatype Signature =
    | Mac(alg: Alg, key: string, claims: Claims)
    | Other(bytes: string)

  datatype Token =
    | Signed(alg: Alg, claims: Claims, sig: Signature)
    /** Anything that does not parse as a JWT. */
    | Malformed(text: string)

  /** What GenerateTokens returns: both tokens and the access expiry. */
  datatype TokenPair = TokenPair(access: Token, refresh: Token, accessExp: int)

  /** NewJWTTokenManager. An empty secret ends the process in the service;
      here it is the error that leaves no manager. A zero TTL takes its
      default, any other TTL is kept. */
  function NewJwtTokenManager(cfg: JwtConfig): (r: Result<Manager>)
    ensures r.Err? <==> cfg.secret == ""
    ensures r.Err? ==> r.error == SecretRequired
    ensures r.Ok? ==> r.value.secret == cfg.secret && r.value.accessTTL != 0 && r.value.refreshTTL != 0
    ensures r.Ok? && cfg.accessTTL != 0 ==> r.value.accessTTL == cfg.accessTTL
    ensures r.Ok? && cfg.accessTTL == 0 ==> r.value.accessTTL == DefaultAccessTTL
    ensures r.Ok? && cfg.refreshTTL != 0 ==> r.value.refreshTTL == cfg.refreshTTL
    ensures r.Ok? && cfg.refreshTTL == 0 ==> r.value.refreshTTL == DefaultRefreshTTL
  {
    if cfg.secret == "" then
      Err(SecretRequired)
    else
      var accessTTL := if cfg.accessTTL == 0 then DefaultAccessTTL else cfg.accessTTL;
      var refreshTTL := if cfg.refreshTTL == 0 then DefaultRefreshTTL else cfg.refreshTTL;
      Ok(Manager(cfg.secret, accessTTL, refreshTTL))
  }

  /** A manager's own settings, read back as a configuration, build the same
      manager: the defaults are applied once and for all. */
  lemma ManagerIsFixpoint(cfg: JwtConfig)
    requires NewJwtTokenManager(cfg).Ok?
    ensures var m := NewJwtTokenManager(cfg).value;
      NewJwtTokenManager(JwtConfig(m.secret, m.accessTTL, m.refreshTTL)) == Ok(m)
  {
  }

  /** signToken: claims sid, sub (subject id in base 10), jti, exp and
      iat = now, signed with HS256 under the manager's secret. */
  function SignToken(m: Manager, subjectID: nat, sessionID: string, tokenID: string, exp: int, now: int): (t: Token)
    ensures t.Signed? && t.alg == HS256
    ensures t.claims.sid == sessionID && t.claims.jti == tokenID && t.claims.exp == exp && t.claims.iat == now
    ensures Canonical(t.claims.sub) && DecimalValue(t.claims.sub) == subjectID
    ensures t.sig == Mac(HS256, m.secret, t.claims)
  {
    var claims := Claims(sessionID, FormatUint(subjectID), tokenID, exp, now);
    Signed(HS256, claims, Mac(HS256, m.secret, claims))
  }

  /** VerifyToken, following jwt.ParseWithClaims: a token that does not
      parse is malformed; the key function refuses any algorithm outside the
      HMAC family; the signature must be the MAC of the claims under the
      secret; and the claims are valid while now < exp (iat and nbf are not
      checked by default). */
  function VerifyToken(m: Manager, tok: Token, now: int): (r: Result<Claims>)
    ensures r.Ok? <==> tok.Signed? && IsHmac(tok.alg) && tok.sig == Mac(tok.alg, m.secret, tok.claims) && now < tok.claims.exp
    ensures r.Ok? ==> r.value == tok.claims
    ensures tok.Malformed? ==> r == Err(TokenMalformed)
    ensures tok.Signed? && !IsHmac(tok.alg) ==> r == Err(UnexpectedSigningMethod)
  {
    match tok
    case Malformed(_) => Err(TokenMalformed)
    case Signed(alg, claims, sig) =>
      if !IsHmac(alg) then Err(UnexpectedSigningMethod)
      else if sig != Mac(alg, m.secret, claims) then Err(TokenSignatureInvalid)
      else if now >= claims.exp then Err(TokenExpired)
      else Ok(claims)
  }

  /** GenerateTokens at time now, with accessJti the fresh uuid drawn for the
      access token. Both tokens carry the subject and the session; the
      refresh token carries the caller's jti. Each verifies, giving back
      exactly its claims, until its own expiry and not from then on. */
  function GenerateTokens(m: Manager, subjectID: nat, sessionID: string, refreshJTI: string, now: int, accessJti: string): (r: TokenPair)
    ensures r.accessExp == now + m.accessTTL
    ensures forall t ::
      VerifyToken(m, r.access, t) ==
        if t < now + m.accessTTL then Ok(Claims(sessionID, FormatUint(subjectID), accessJti, now + m.accessTTL, now))
        else Err(TokenExpired)
    ensures forall t ::
      VerifyToken(m, r.refresh, t) ==
        if t < now + m.refreshTTL then Ok(Claims(sessionID, FormatUint(subjectID), refreshJTI, now + m.refreshTTL, now))
        else Err(TokenExpired)
  {
    var accessExp := now + m.accessTTL;
    var refreshExp := now + m.refreshTTL;
    TokenPair(
      SignToken(m, subjectID, sessionID, accessJti, accessExp, now),
      SignToken(m, subjectID, sessionID, refreshJTI, refreshExp, now),
      accessExp)
  }

  /** A token signed by the manager verifies, giving back its claims, exactly
      while it has not expired. */
  lemma SignThenVerify(m: Manager, subjectID: nat, sessionID: string, tokenID: string, exp: int, now: int, t: int)
    ensures VerifyToken(m, SignToken(m, subjectID, sessionID, tokenID, exp, now), t).Ok? <==> t < exp
    ensures t < exp ==>
      VerifyToken(m, SignToken(m, subjectID, sessionID, tokenID, exp, now), t) == Ok(Claims(sessionID, FormatUint(subjectID), tokenID, exp, now))
  {
  }

  /** Changing any claim of a signed token, keeping its signature, makes it
      fail verification; so does a token signed under another secret. */
  lemma TamperedTokenFails(m: Manager, tok: Token, claims: Claims, key: string, now: int)
    requires tok.Signed? && VerifyToken(m, tok, now).Ok?
    ensures claims != tok.claims ==> VerifyToken(m, Signed(tok.alg, claims, tok.sig), now).Err?
    ensures key != m.secret ==> VerifyToken(m, Signed(tok.alg, tok.claims, Mac(tok.alg, key, tok.claims)), now).Err?
  {
  }

  /** The subject of every issued token is the canonical decimal rendering of
      the subject id, so the id can be read back from it. */
  lemma SubjectIsDecimal(m: Manager, subjectID: nat, sessionID: string, refreshJTI: string, now: int, accessJti: string)
    ensures var p := GenerateTokens(m, subjectID, sessionID, refreshJTI, now, accessJti);
      && p.access.claims.sub == p.refresh.claims.sub == FormatUint(subjectID)
      && Canonical(p.access.claims.sub) && DecimalValue(p.access.claims.sub) == subjectID
      && p.access.claims.sid == p.refresh.claims.sid == sessionID
  {
  }

  /** The access token's jti is the fresh one, not the refresh jti; the two
      tokens differ whenever those jtis do. */
  lemma AccessAndRefreshJtiDiffer(m: Manager, subjectID: nat, sessionID: string, refreshJTI: string, now: int, accessJti: string)
    requires accessJti != refreshJTI
    ensures var p := GenerateTokens(m, subjectID, sessionID, refreshJTI, now, accessJti);
      p.access.claims.jti == accessJti && p.refresh.claims.jti == refreshJTI && p.access != p.refresh
  {
  }
}
