/** Refresh-token rotation (query/refresh_token_qry.go): verify the refresh
    token, load its session, check it against the claims, issue a new pair
    under a fresh jti, and swap the stored jti from the presented one to the
    fresh one. */
module RefreshTokenQuery {
  import opened Errors
  import opened Strconv
  import opened Models
  import opened Token
  import opened SessionRepo

  /** userdto.RefreshTokenRes, with the access expiry in place of the
      clock-derived ExpiresIn. */
  datatype RefreshRes = RefreshRes(access: Token, refresh: Token, accessExp: int)

  /** The session checks of lines 51-52: active, the id the token names, a
      subject, and the stored refresh jti equal to the token's. */
  predicate SessionMatches(s: Session, c: Claims) {
    s.isActive && s.id == c.sid && c.sub != "" && s.refreshJti == c.jti
  }

  /** The flow at time now, with newJti the uuid drawn for the new refresh
      token and accessJti the one the token manager draws.

      A token that fails verification is ErrInvalidToken before any store
      access. A missing session is ErrInvalidToken, other store errors
      propagate. A session that fails the checks is ErrInvalidToken and is
      not rotated. The rotation is a compare-and-swap against the table row:
      success requires that row to hold the presented jti, and leaves it
      holding the fresh one; a lost swap is ErrInvalidToken and the new
      tokens are dropped. */
  function RefreshStep(st: StoreState, m: Manager, tok: Token, now: int, newJti: string, accessJti: string): (out: Step<RefreshRes>)
    ensures VerifyToken(m, tok, now).Err? ==> out == Step(Err(InvalidToken), st)
    ensures out.result.Ok? ==>
      var c := VerifyToken(m, tok, now).value;
      && VerifyToken(m, tok, now).Ok? && c.sub != ""
      && c.sid in st.table && st.table[c.sid].refreshJti == c.jti
      && out.state.table == st.table[c.sid := Rotated(st.table[c.sid], newJti, now)]
    ensures out.result.Err? ==> out.result.error in {InvalidToken, DbUnavailable, DuplicateKey, CacheUnavailable}
    ensures out.result.Err? && out.result.error != CacheUnavailable ==> out.state.table == st.table
    ensures out.state.table == st.table ||
      (VerifyToken(m, tok, now).Ok? && VerifyToken(m, tok, now).value.sid in st.table &&
       out.state.table == st.table[VerifyToken(m, tok, now).value.sid := Rotated(st.table[VerifyToken(m, tok, now).value.sid], newJti, now)])
    ensures Invariant(st) ==> Invariant(out.state)
    ensures Invariant(st) && Coherent(st) && out.result.Ok? ==> Coherent(out.state)
  {
    var verified := VerifyToken(m, tok, now);
    if verified.Err? then Step(Err(InvalidToken), st)
    else
      var c := verified.value;
      var found := FindStep(st, c.sid);
      if found.result.Err? then Step(Err(NotFoundAsInvalid(found.result.error)), found.state)
      else
        var s := found.result.value;
        if !SessionMatches(s, c) then Step(Err(InvalidToken), found.state)
        else
          var pair := GenerateTokens(m, s.userId, s.id, newJti, now, accessJti);
          var rotated := RotateStep(found.state, s.id, s.refreshJti, newJti, now);
          if rotated.result.Err? then Step(Err(NotFoundAsInvalid(rotated.result.error)), rotated.state)
          else Step(Ok(RefreshRes(pair.access, pair.refresh, pair.accessExp)), rotated.state)
  }

  /** What a successful refresh hands out, when the cache agrees with the
      table: the session was active, and the new pair names it and its user,
      the refresh token carrying the fresh jti; each token verifies until its
      own expiry. */
  lemma RefreshIssuesTokens(st: StoreState, m: Manager, tok: Token, now: int, newJti: string, accessJti: string)
    requires Invariant(st) && Coherent(st)
    requires RefreshStep(st, m, tok, now, newJti, accessJti).result.Ok?
    ensures var out := RefreshStep(st, m, tok, now, newJti, accessJti);
      var c := VerifyToken(m, tok, now).value;
      var s := st.table[c.sid];
      && s.isActive
      && out.result.value.accessExp == now + m.accessTTL
      && (forall t :: t < now + m.refreshTTL ==>
            VerifyToken(m, out.result.value.refresh, t) == Ok(Claims(c.sid, FormatUint(s.userId), newJti, now + m.refreshTTL, now)))
      && (forall t :: t < now + m.accessTTL ==>
            VerifyToken(m, out.result.value.access, t) == Ok(Claims(c.sid, FormatUint(s.userId), accessJti, now + m.accessTTL, now)))
  {
    var c := VerifyToken(m, tok, now).value;
    var found := FindStep(st, c.sid);
    assert found.result == Ok(st.table[c.sid]);
  }

  /** refreshTokenQuery.Handle. */
  method Handle(sessions: SessionStore, m: Manager, tok: Token, now: int, newJti: string, accessJti: string)
    returns (r: Result<RefreshRes>)
    modifies sessions
    ensures Step(r, sessions.State()) == RefreshStep(old(sessions.State()), m, tok, now, newJti, accessJti)
  {
    var verified := VerifyToken(m, tok, now);
    if verified.Err? {
      return Err(InvalidToken);
    }
    var c := verified.value;
    var found := sessions.FindBySessionID(c.sid);
    if found.Err? {
      return Err(NotFoundAsInvalid(found.error));
    }
    var s := found.value;
    if !s.isActive || s.id != c.sid || c.sub == "" || s.refreshJti != c.jti {
      return Err(InvalidToken);
    }
    var pair := GenerateTokens(m, s.userId, s.id, newJti, now, accessJti);
    var rotated := sessions.RotateRefreshJTI(s.id, s.refreshJti, newJti, now);
    if rotated.Err? {
      return Err(NotFoundAsInvalid(rotated.error));
    }
    return Ok(RefreshRes(pair.access, pair.refresh, pair.accessExp));
  }
}
