/** The tail both login flows share: insert an active session for the
    account, then issue an access and a refresh token bound to it. */
module LoginCommon {
  import opened Errors
  import opened Strconv
  import opened Models
  import opened Token
  import opened SessionRepo

  /** What a login draws from its environment: the clock, the nanoid
      generated for the session id, the uuid used as the session's refresh
      jti, and the uuid the token manager draws for the access token. */
  datatype Fresh = Fresh(now: int, nanoid: string, jti: string, accessJti: string)

  /** userdto.LoginRes. Instead of ExpiresIn, which is read off the wall
      clock, the access token's expiry itself is returned. */
  datatype LoginRes = LoginRes(access: Token, refresh: Token, accessExp: int, user: Profile)

  /** The session row a login inserts, before Create assigns its id. */
  function NewSession(presetId: string, account: User, f: Fresh, userAgent: string, ipAddress: string): Session {
    Session(presetId, account.id, f.jti, userAgent, ipAddress, true, f.now)
  }

  /** The id the session ends up with: the preset one, or else the
      generated nanoid. */
  function SessionIdOf(presetId: string, f: Fresh): string {
    if presetId == "" then f.nanoid else presetId
  }

  /** Create the session, then GenerateTokens(account id, session id, jti).
      On success exactly one row is added, active, owned by the account,
      holding the jti the refresh token carries; both tokens name the
      session and the account in decimal, and each verifies until its own
      expiry. A Create failure is returned as is and issues no token. */
  function StartSessionStep(st: StoreState, m: Manager, account: User, presetId: string, f: Fresh, userAgent: string, ipAddress: string): (out: Step<LoginRes>)
    ensures var sid := SessionIdOf(presetId, f);
      out.result.Ok? ==>
        && sid !in st.table
        && out.state.table == st.table[sid := Session(sid, account.id, f.jti, userAgent, ipAddress, true, f.now)]
        && out.result.value.user == ProfileOf(account)
        && out.result.value.accessExp == f.now + m.accessTTL
        && (forall t :: t < f.now + m.accessTTL ==>
              VerifyToken(m, out.result.value.access, t) == Ok(Claims(sid, FormatUint(account.id), f.accessJti, f.now + m.accessTTL, f.now)))
        && (forall t :: t < f.now + m.refreshTTL ==>
              VerifyToken(m, out.result.value.refresh, t) == Ok(Claims(sid, FormatUint(account.id), f.jti, f.now + m.refreshTTL, f.now)))
    ensures var created := CreateStep(st, NewSession(presetId, account, f, userAgent, ipAddress), f.nanoid);
      && (out.result.Err? <==> created.result.Err?)
      && (created.result.Err? ==> out.result == Err(created.result.error))
    ensures out.result.Err? && out.result.error != CacheUnavailable ==> out.state == st
    ensures Invariant(st) ==> Invariant(out.state)
    ensures Coherent(st) ==> Coherent(out.state)
  {
    var created := CreateStep(st, NewSession(presetId, account, f, userAgent, ipAddress), f.nanoid);
    if created.result.Err? then
      Step(Err(created.result.error), created.state)
    else
      var s := created.result.value;
      var pair := GenerateTokens(m, account.id, s.id, f.jti, f.now, f.accessJti);
      Step(Ok(LoginRes(pair.access, pair.refresh, pair.accessExp, ProfileOf(account))), created.state)
  }

  method StartSession(sessions: SessionStore, m: Manager, account: User, presetId: string, f: Fresh, userAgent: string, ipAddress: string)
    returns (r: Result<LoginRes>)
    modifies sessions
    ensures Step(r, sessions.State()) == StartSessionStep(old(sessions.State()), m, account, presetId, f, userAgent, ipAddress)
  {
    var created := sessions.Create(NewSession(presetId, account, f, userAgent, ipAddress), f.nanoid);
    if created.Err? {
      return Err(created.error);
    }
    var pair := GenerateTokens(m, account.id, created.value.id, f.jti, f.now, f.accessJti);
    return Ok(LoginRes(pair.access, pair.refresh, pair.accessExp, ProfileOf(account)));
  }
}
