/** Access-token introspection (query/verify_token_qry.go): verify the
    token, load its session, and echo the claims when the session is live. */
module VerifyTokenQuery {
  import opened Errors
  import opened Models
  import opened Token
  import opened SessionRepo

  /** userdto.VerifyTokenRes; the session id is a string, as the code fills
      it (the DTO declares uint64). */
  datatype VerifyRes = VerifyRes(sub: string, sessionID: string, jti: string, expiresAt: int)

  /** The flow at time now. A token that fails verification is
      ErrInvalidToken; a missing session is ErrInvalidToken and other store
      errors propagate; an inactive session or an empty subject is
      ErrInvalidToken. On success the result repeats the claims unchanged.
      The table is never written: the only write is FindByID's cache
      refill. */
  function VerifyStep(st: StoreState, m: Manager, tok: Token, now: int): (out: Step<VerifyRes>)
    ensures VerifyToken(m, tok, now).Err? ==> out == Step(Err(InvalidToken), st)
    ensures VerifyToken(m, tok, now).Ok? ==>
      var c := VerifyToken(m, tok, now).value;
      && out.state == FindStep(st, c.sid).state
      && (out.result.Ok? <==> FindStep(st, c.sid).result.Ok? && FindStep(st, c.sid).result.value.isActive && c.sub != "")
      && (out.result.Ok? ==> out.result.value == VerifyRes(c.sub, c.sid, c.jti, c.exp))
    ensures out.state.table == st.table
    ensures out.result.Err? ==> out.result.error in {InvalidToken, DbUnavailable}
    ensures out.result.Ok? && Invariant(st) && Coherent(st) ==>
      out.result.value.sessionID in st.table && st.table[out.result.value.sessionID].isActive
    ensures Invariant(st) ==> Invariant(out.state)
    ensures Invariant(st) && Coherent(st) ==> Coherent(out.state)
  {
    var verified := VerifyToken(m, tok, now);
    if verified.Err? then Step(Err(InvalidToken), st)
    else
      var c := verified.value;
      var found := FindStep(st, c.sid);
      if found.result.Err? then Step(Err(NotFoundAsInvalid(found.result.error)), found.state)
      else if !found.result.value.isActive || c.sub == "" then Step(Err(InvalidToken), found.state)
      else Step(Ok(VerifyRes(c.sub, c.sid, c.jti, c.exp)), found.state)
  }

  /** verifyTokenQuery.Handle. */
  method Handle(sessions: SessionStore, m: Manager, tok: Token, now: int) returns (r: Result<VerifyRes>)
    modifies sessions
    ensures Step(r, sessions.State()) == VerifyStep(old(sessions.State()), m, tok, now)
  {
    var verified := VerifyToken(m, tok, now);
    if verified.Err? {
      return Err(InvalidToken);
    }
    var c := verified.value;
    var found := sessions.FindByID(c.sid);
    if found.Err? {
      return Err(NotFoundAsInvalid(found.error));
    }
    if !found.value.isActive || c.sub == "" {
      return Err(InvalidToken);
    }
    return Ok(VerifyRes(c.sub, c.sid, c.jti, c.exp));
  }
}
