/** Password login (query/login_by_user_pass_qry.go): look the account up by
    username, check the password, then start a session under a generated
    nanoid. */
module LoginByUserPass {
  import opened Errors
  import opened Password
  import opened Models
  import opened Token
  import opened SessionRepo
  import UserRepo
  import opened LoginCommon

  datatype LoginByUserPassReq = LoginByUserPassReq(username: string, password: string, userAgent: string, ipAddress: string)

  /** The whole flow as a step of the session store (the users table is only
      read). An unknown username is ErrUserNotFound and any other lookup
      error propagates; a wrong password is ErrInvalidUserOrPwd; neither
      touches the sessions. Success means the account exists, the password
      matches its hash, and a session was started for exactly that account
      under the nanoid. */
  function LoginStep(ut: UserRepo.UserTable, st: StoreState, m: Manager, req: LoginByUserPassReq, f: Fresh): (out: Step<LoginRes>)
    ensures var found := UserRepo.Find(ut, UserRepo.ByUsername(req.username));
      && (found == Err(RecordNotFound) ==> out == Step(Err(UserNotFound), st))
      && (found.Err? && found.error != RecordNotFound ==> out == Step(Err(found.error), st))
      && (found.Ok? && !ComparePassword(found.value.passwordHash, req.password) ==> out == Step(Err(InvalidUserOrPwd), st))
      && (out.result.Ok? ==>
            && found.Ok? && found.value.username == req.username
            && ComparePassword(found.value.passwordHash, req.password)
            && out.result.value.user == ProfileOf(found.value)
            && out.state.table == st.table[f.nanoid := Session(f.nanoid, found.value.id, f.jti, req.userAgent, req.ipAddress, true, f.now)])
    ensures out.result.Err? ==> out.result.error in {UserNotFound, InvalidUserOrPwd, DbUnavailable, DuplicateKey, CacheUnavailable}
    ensures Invariant(st) ==> Invariant(out.state)
    ensures Coherent(st) ==> Coherent(out.state)
  {
    var found := UserRepo.Find(ut, UserRepo.ByUsername(req.username));
    if found.Err? then
      Step(Err(if found.error == RecordNotFound then UserNotFound else found.error), st)
    else if !ComparePassword(found.value.passwordHash, req.password) then
      Step(Err(InvalidUserOrPwd), st)
    else
      StartSessionStep(st, m, found.value, f.nanoid, f, req.userAgent, req.ipAddress)
  }

  /** loginByUsrnameAndPwdQuery.Handle. */
  method Handle(users: UserRepo.UserStore, sessions: SessionStore, m: Manager, req: LoginByUserPassReq, f: Fresh)
    returns (r: Result<LoginRes>)
    modifies sessions
    ensures Step(r, sessions.State()) == LoginStep(users.State(), old(sessions.State()), m, req, f)
  {
    var found := users.FindByUsername(req.username);
    if found.Err? {
      if found.error == RecordNotFound {
        return Err(UserNotFound);
      }
      return Err(found.error);
    }
    var account := found.value;
    if !ComparePassword(account.passwordHash, req.password) {
      return Err(InvalidUserOrPwd);
    }
    r := StartSession(sessions, m, account, f.nanoid, f, req.userAgent, req.ipAddress);
  }
}
