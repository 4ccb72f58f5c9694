/** What the flows guarantee together about a session's life: a login
    creates a live session whose tokens verify; a refresh token is good for
    exactly one rotation; and once a session is retired by logout, no token
    naming it is accepted again by any flow. */
module SessionLifecycle {
  import opened Errors
  import opened Strconv
  import opened Models
  import opened Token
  import opened SessionRepo
  import opened LoginCommon
  import opened RefreshTokenQuery
  import opened VerifyTokenQuery
  import opened LogoutCommand
  import UserRepo
  import LoginByUserPass

  /** The session's row is stored and inactive. */
  predicate RetiredIn(st: StoreState, sid: string) {
    sid in st.table && !st.table[sid].isActive
  }

  /** A verified refresh token whose jti is no longer the one stored on its
      session's row (or whose row is gone) is refused, and the table is left
      as it was. The swap is decided on the table row, so this holds even
      when the cache is stale or absent. */
  lemma StaleRefreshTokenFails(st: StoreState, m: Manager, tok: Token, now: int, newJti: string, accessJti: string)
    requires VerifyToken(m, tok, now).Ok?
    requires var c := VerifyToken(m, tok, now).value;
      c.sid !in st.table || st.table[c.sid].refreshJti != c.jti
    ensures var out := RefreshStep(st, m, tok, now, newJti, accessJti);
      out.result.Err? && out.state.table == st.table
  {
    var c := VerifyToken(m, tok, now).value;
    var found := FindStep(st, c.sid);
    assert found.state.table == st.table;
    if found.result.Ok? && SessionMatches(found.result.value, c) {
      var s := found.result.value;
      var rotated := RotateStep(found.state, s.id, s.refreshJti, newJti, now);
      assert s.id == c.sid && s.refreshJti == c.jti;
      assert rotated.result.Err? && rotated.state == found.state;
    }
  }

  /** With the stores answering and the new jti free, a verified refresh
      token whose jti is the one stored on its live session's row is
      rotated. Together with StaleRefreshTokenFails: a refresh succeeds
      exactly for the current token. */
  lemma CurrentRefreshTokenRotates(st: StoreState, m: Manager, tok: Token, now: int, newJti: string, accessJti: string)
    requires Invariant(st) && Coherent(st)
    requires st.dbUp && (!st.hasCache || st.cacheUp)
    requires VerifyToken(m, tok, now).Ok?
    requires var c := VerifyToken(m, tok, now).value;
      && c.sub != "" && c.sid in st.table
      && st.table[c.sid].isActive && st.table[c.sid].refreshJti == c.jti
      && !JtiTaken(st.table, newJti, c.sid)
    ensures RefreshStep(st, m, tok, now, newJti, accessJti).result.Ok?
  {
    var c := VerifyToken(m, tok, now).value;
    var found := FindStep(st, c.sid);
    assert found.result == Ok(st.table[c.sid]);
    assert found.state.table == st.table;
    assert found.state.dbUp == st.dbUp && found.state.hasCache == st.hasCache && found.state.cacheUp == st.cacheUp;
    var s := found.result.value;
    assert SessionMatches(s, c);
    assert RotateStep(found.state, s.id, s.refreshJti, newJti, now).result.Ok?;
  }

  /** After a successful refresh under a fresh jti, presenting the same
      refresh token again, at any later time, fails and changes nothing. */
  lemma ReplayedRefreshTokenFails(st: StoreState, m: Manager, tok: Token, now: int, newJti: string, accessJti: string,
                                  later: int, newJti2: string, accessJti2: string)
    requires VerifyToken(m, tok, now).Ok? && newJti != VerifyToken(m, tok, now).value.jti
    requires RefreshStep(st, m, tok, now, newJti, accessJti).result.Ok?
    ensures var mid := RefreshStep(st, m, tok, now, newJti, accessJti).state;
      var out := RefreshStep(mid, m, tok, later, newJti2, accessJti2);
      out.result.Err? && out.state.table == mid.table
  {
    var mid := RefreshStep(st, m, tok, now, newJti, accessJti).state;
    var c := VerifyToken(m, tok, now).value;
    assert mid.table[c.sid].refreshJti == newJti;
    if VerifyToken(m, tok, later).Ok? {
      StaleRefreshTokenFails(mid, m, tok, later, newJti2, accessJti2);
    }
  }

  /** The refresh token a successful refresh hands out is the current one
      for its session, so it can be rotated in turn. */
  lemma RotatedTokenIsCurrent(st: StoreState, m: Manager, tok: Token, now: int, newJti: string, accessJti: string)
    requires Invariant(st) && Coherent(st)
    requires m.refreshTTL > 0
    requires RefreshStep(st, m, tok, now, newJti, accessJti).result.Ok?
    ensures var out := RefreshStep(st, m, tok, now, newJti, accessJti);
      var issued := out.result.value.refresh;
      && VerifyToken(m, issued, now).Ok?
      && var c := VerifyToken(m, issued, now).value;
      && c.sub != "" && c.sid in out.state.table
      && out.state.table[c.sid].isActive && out.state.table[c.sid].refreshJti == c.jti
  {
    var out := RefreshStep(st, m, tok, now, newJti, accessJti);
    var c0 := VerifyToken(m, tok, now).value;
    RefreshIssuesTokens(st, m, tok, now, newJti, accessJti);
    var c := VerifyToken(m, out.result.value.refresh, now).value;
    assert c == Claims(c0.sid, FormatUint(st.table[c0.sid].userId), newJti, now + m.refreshTTL, now);
    assert out.state.table[c0.sid] == Rotated(st.table[c0.sid], newJti, now);
  }

  /** A token naming a retired session is refused by every flow: verify
      fails, and refresh and logout fail leaving the table as it was. */
  lemma RetiredSessionRejected(st: StoreState, m: Manager, tok: Token, now: int, newJti: string, accessJti: string)
    requires Invariant(st) && Coherent(st)
    requires VerifyToken(m, tok, now).Ok? && RetiredIn(st, VerifyToken(m, tok, now).value.sid)
    ensures VerifyStep(st, m, tok, now).result.Err?
    ensures var out := RefreshStep(st, m, tok, now, newJti, accessJti);
      out.result.Err? && out.state.table == st.table
    ensures var out := LogoutStep(st, m, tok, now);
      out.result.Err? && out.state.table == st.table
  {
    var c := VerifyToken(m, tok, now).value;
    var found := FindStep(st, c.sid);
    assert found.state.table == st.table;
    assert found.result.Ok? ==> !found.result.value.isActive;
  }

  /** A successful logout retires the session its access token names. */
  lemma LogoutRetires(st: StoreState, m: Manager, tok: Token, now: int)
    requires LogoutStep(st, m, tok, now).result.Ok?
    ensures VerifyToken(m, tok, now).Ok?
    ensures RetiredIn(LogoutStep(st, m, tok, now).state, VerifyToken(m, tok, now).value.sid)
  {
    var c := VerifyToken(m, tok, now).value;
    assert LogoutStep(st, m, tok, now).state.table[c.sid] == Retired(st.table[c.sid], now);
  }

  /** In the state a logout leaves, every token of that session (the access
      token that logged out, and the refresh token) is refused, at any time.
      RetiredStaysRetired keeps the session retired through every later
      flow, so RetiredSessionRejected refuses them in each later state whose
      cache is still coherent with the table. */
  lemma NoTokenWorksAfterLogout(st: StoreState, m: Manager, tok: Token, now: int,
                                other: Token, later: int, newJti: string, accessJti: string)
    requires Invariant(st) && Coherent(st)
    requires LogoutStep(st, m, tok, now).result.Ok?
    requires VerifyToken(m, other, later).Ok?
    requires VerifyToken(m, tok, now).Ok? && VerifyToken(m, other, later).value.sid == VerifyToken(m, tok, now).value.sid
    ensures var after := LogoutStep(st, m, tok, now).state;
      && VerifyStep(after, m, other, later).result.Err?
      && RefreshStep(after, m, other, later, newJti, accessJti).result.Err?
      && LogoutStep(after, m, other, later).result.Err?
  {
    var after := LogoutStep(st, m, tok, now).state;
    LogoutRetires(st, m, tok, now);
    RetiredSessionRejected(after, m, other, later, newJti, accessJti);
  }

  /** No flow brings a retired session back: a row that is stored and
      inactive stays stored and inactive through verify, refresh, logout and
      a login's session insert. */
  lemma RetiredStaysRetired(st: StoreState, sid: string, m: Manager, tok: Token, now: int, newJti: string, accessJti: string,
                            account: User, presetId: string, f: Fresh, userAgent: string, ipAddress: string)
    requires RetiredIn(st, sid)
    ensures RetiredIn(VerifyStep(st, m, tok, now).state, sid)
    ensures RetiredIn(RefreshStep(st, m, tok, now, newJti, accessJti).state, sid)
    ensures RetiredIn(LogoutStep(st, m, tok, now).state, sid)
    ensures RetiredIn(StartSessionStep(st, m, account, presetId, f, userAgent, ipAddress).state, sid)
  {
    var started := StartSessionStep(st, m, account, presetId, f, userAgent, ipAddress);
    var created := CreateStep(st, NewSession(presetId, account, f, userAgent, ipAddress), f.nanoid);
    var s := NewSession(presetId, account, f, userAgent, ipAddress).(id := SessionIdOf(presetId, f));
    assert started.state == created.state;
    assert created.state.table == st.table || (s.id !in st.table && created.state.table == st.table[s.id := s]);
  }

  /** A login's access token is accepted by verify until it expires, and
      the answer names the new session and the account in decimal. */
  lemma LoginThenVerify(st: StoreState, m: Manager, account: User, presetId: string, f: Fresh,
                        userAgent: string, ipAddress: string, t: int)
    requires Invariant(st) && Coherent(st)
    requires StartSessionStep(st, m, account, presetId, f, userAgent, ipAddress).result.Ok?
    requires t < f.now + m.accessTTL
    ensures var out := StartSessionStep(st, m, account, presetId, f, userAgent, ipAddress);
      VerifyStep(out.state, m, out.result.value.access, t).result
        == Ok(VerifyRes(FormatUint(account.id), SessionIdOf(presetId, f), f.accessJti, f.now + m.accessTTL))
  {
    var out := StartSessionStep(st, m, account, presetId, f, userAgent, ipAddress);
    var sid := SessionIdOf(presetId, f);
    var item := NewSession(presetId, account, f, userAgent, ipAddress);
    var created := CreateStep(st, item, f.nanoid);
    assert out.state == created.state;
    var inserted := st.(table := st.table[sid := item.(id := sid)]);
    assert created.state == SetCache(inserted, item.(id := sid)).state;
    assert out.state.dbUp;
    var found := FindStep(out.state, sid);
    assert found.result == Ok(out.state.table[sid]);
  }

  /** A login's refresh token, presented before it expires while the stores
      answer and the new jti is free, is rotated. */
  lemma LoginThenRefresh(st: StoreState, m: Manager, account: User, presetId: string, f: Fresh,
                         userAgent: string, ipAddress: string, t: int, newJti: string, accessJti: string)
    requires Invariant(st) && Coherent(st)
    requires StartSessionStep(st, m, account, presetId, f, userAgent, ipAddress).result.Ok?
    requires t < f.now + m.refreshTTL
    requires var after := StartSessionStep(st, m, account, presetId, f, userAgent, ipAddress).state;
      && after.dbUp && (!after.hasCache || after.cacheUp)
      && !JtiTaken(after.table, newJti, SessionIdOf(presetId, f))
    ensures var out := StartSessionStep(st, m, account, presetId, f, userAgent, ipAddress);
      RefreshStep(out.state, m, out.result.value.refresh, t, newJti, accessJti).result.Ok?
  {
    var out := StartSessionStep(st, m, account, presetId, f, userAgent, ipAddress);
    CurrentRefreshTokenRotates(out.state, m, out.result.value.refresh, t, newJti, accessJti);
  }

  /** The username/password login, end to end: its access token is accepted
      by verify until it expires, naming the account that was found. */
  lemma PasswordLoginThenVerify(ut: UserRepo.UserTable, st: StoreState, m: Manager,
                                req: LoginByUserPass.LoginByUserPassReq, f: Fresh, t: int)
    requires Invariant(st) && Coherent(st)
    requires LoginByUserPass.LoginStep(ut, st, m, req, f).result.Ok?
    requires t < f.now + m.accessTTL
    ensures UserRepo.Find(ut, UserRepo.ByUsername(req.username)).Ok?
    ensures var out := LoginByUserPass.LoginStep(ut, st, m, req, f);
      var account := UserRepo.Find(ut, UserRepo.ByUsername(req.username)).value;
      VerifyStep(out.state, m, out.result.value.access, t).result
        == Ok(VerifyRes(FormatUint(account.id), f.nanoid, f.accessJti, f.now + m.accessTTL))
  {
    var account := UserRepo.Find(ut, UserRepo.ByUsername(req.username)).value;
    assert LoginByUserPass.LoginStep(ut, st, m, req, f)
      == StartSessionStep(st, m, account, f.nanoid, f, req.userAgent, req.ipAddress);
    LoginThenVerify(st, m, account, f.nanoid, f, req.userAgent, req.ipAddress, t);
  }
}
