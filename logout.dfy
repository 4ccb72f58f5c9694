/** Logout (command/logout_cmd.go): verify the access token, load its
    session, check it, and deactivate it. */
module LogoutCommand {
  import opened Errors
  import opened Models
  import opened Token
  import opened SessionRepo

  /** The flow at time now. A token that fails verification is
      ErrInvalidToken; a missing session is ErrInvalidToken and other store
      errors propagate; a session whose id differs from the token's, an
      empty subject, or an already inactive session is ErrInvalidToken, and
      nothing is deactivated. Otherwise exactly the session the token names
      is deactivated, and Deactivate's own error is returned unchanged. */
  function LogoutStep(st: StoreState, m: Manager, tok: Token, now: int): (out: Step<()>)
    ensures VerifyToken(m, tok, now).Err? ==> out == Step(Err(InvalidToken), st)
    ensures out.result.Ok? ==>
      var c := VerifyToken(m, tok, now).value;
      && VerifyToken(m, tok, now).Ok? && c.sub != ""
      && c.sid in st.table
      && out.state.table == st.table[c.sid := Retired(st.table[c.sid], now)]
    ensures out.state.table == st.table ||
      (VerifyToken(m, tok, now).Ok? && VerifyToken(m, tok, now).value.sid in st.table &&
       out.state.table == st.table[VerifyToken(m, tok, now).value.sid := Retired(st.table[VerifyToken(m, tok, now).value.sid], now)])
    ensures out.result.Err? ==> out.result.error in {InvalidToken, DbUnavailable, RecordNotFound, CacheUnavailable}
    ensures out.result.Err? && out.result.error !in {DbUnavailable, RecordNotFound, CacheUnavailable} ==> out.state.table == st.table
    ensures Invariant(st) ==> Invariant(out.state)
    ensures Invariant(st) && Coherent(st) && out.result.Ok? ==> Coherent(out.state)
  {
    var verified := VerifyToken(m, tok, now);
    if verified.Err? then Step(Err(InvalidToken), st)
    else
      var c := verified.value;
      var found := FindStep(st, c.sid);
      if found.result.Err? then Step(Err(NotFoundAsInvalid(found.result.error)), found.state)
      else
        var s := found.result.value;
        if s.id != c.sid || c.sub == "" || !s.isActive then Step(Err(InvalidToken), found.state)
        else DeactivateStep(found.state, s.id, now)
  }

  /** logoutCommand.Handle. */
  method Handle(sessions: SessionStore, m: Manager, tok: Token, now: int) returns (r: Result<()>)
    modifies sessions
    ensures Step(r, sessions.State()) == LogoutStep(old(sessions.State()), m, tok, now)
  {
    var verified := VerifyToken(m, tok, now);
    if verified.Err? {
      return Err(InvalidToken);
    }
    var c := verified.value;
    var found := sessions.FindBySessionID(c.sid);
    if found.Err? {
      return Err(NotFoundAsInvalid(found.error));
    }
    var s := found.value;
    if s.id != c.sid || c.sub == "" || !s.isActive {
      return Err(InvalidToken);
    }
    r := sessions.Deactivate(s.id, now);
  }
}
