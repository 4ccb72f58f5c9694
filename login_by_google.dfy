/** Google login (query/login_by_google_qry.go): check the ID token with
    Google's tokeninfo endpoint, resolve the account by (provider, subject),
    then by email, creating it when neither exists, link an unlinked account
    to Google, and start a session. */
module LoginByGoogle {
  import opened Errors
  import opened Strings
  import opened Password
  import opened Models
  import opened Token
  import opened SessionRepo
  import UserRepo
  import opened LoginCommon

  /** oidc.GoogleIDTokenInfo. */
  datatype GoogleInfo = GoogleInfo(
    email: string,
    emailVerified: string,
    subject: string,
    audience: string,
    givenName: string,
    familyName: string,
    name: string)

  /** What the tokeninfo call comes back with: a decoded answer, a transport
      failure, or an HTTP error status (Google answers 400 for a token it
      rejects). */
  datatype TokenInfoReply =
    | Answer(info: GoogleInfo)
    | TransportFailure
    | ErrorStatus(code: int)

  /** What VerifyIDToken hands back, as Go's (pointer, error) pair. */
  datatype VerifierReturn = VerifierReturn(info: Option<GoogleInfo>, failed: bool)

  /** VerifyIDToken as written (httpclient/oidc/google.go): on an error
      status it returns the transport error, which is nil there, beside a nil
      pointer. */
  function VerifyIdTokenAsWritten(reply: TokenInfoReply): (r: VerifierReturn)
    ensures r.failed <==> reply.TransportFailure?
    ensures r.info.Some? <==> reply.Answer?
  {
    match reply
    case Answer(info) => VerifierReturn(Some(info), false)
    case TransportFailure => VerifierReturn(None, true)
    case ErrorStatus(_) => VerifierReturn(None, false)
  }

  /** The first two checks of Handle as written: a returned error is
      ErrInvalidToken, and then info.Email is read through the pointer, which
      panics (None) when it is nil. */
  function CheckIdTokenAsWritten(ret: VerifierReturn, clientId: string): (r: Option<Result<GoogleInfo>>)
    ensures r.None? <==> !ret.failed && ret.info.None?
  {
    if ret.failed then Some(Err(InvalidToken))
    else if ret.info.None? then None
    else Some(CheckClaims(ret.info.value, clientId))
  }

  /** A token Google rejects with an error status crashes the request
      instead of being answered with ErrInvalidToken. */
  lemma RejectedTokenPanics(code: int, clientId: string)
    ensures CheckIdTokenAsWritten(VerifyIdTokenAsWritten(ErrorStatus(code)), clientId).None?
    ensures CheckIdToken(VerifyIdToken(ErrorStatus(code)), clientId) == Err(InvalidToken)
  {
  }

  /** VerifyIDToken as evidently intended: any reply other than a decoded
      answer is an error. */
  function VerifyIdToken(reply: TokenInfoReply): (r: Result<GoogleInfo>)
    ensures r.Ok? <==> reply.Answer?
    ensures r.Ok? ==> r.value == reply.info
  {
    if reply.Answer? then Ok(reply.info) else Err(VerifierFailed)
  }

  /** The claim checks: a non-empty email, email_verified exactly "true", and
      the configured client id as audience. */
  function CheckClaims(info: GoogleInfo, clientId: string): (r: Result<GoogleInfo>)
    ensures r.Ok? <==> info.email != "" && info.emailVerified == "true" && info.audience == clientId
    ensures r.Ok? ==> r.value == info
    ensures r.Err? ==> r.error == InvalidToken
  {
    if info.email == "" || info.emailVerified != "true" || info.audience != clientId then Err(InvalidToken)
    else Ok(info)
  }

  /** Lines 50-58 of Handle with the intended verifier: any verifier
      failure and any failed claim check is ErrInvalidToken. */
  function CheckIdToken(verified: Result<GoogleInfo>, clientId: string): (r: Result<GoogleInfo>)
    ensures r.Ok? <==> verified.Ok? && CheckClaims(verified.value, clientId).Ok?
    ensures r.Ok? ==> r == verified
    ensures r.Err? ==> r.error == InvalidToken
  {
    if verified.Err? then Err(InvalidToken) else CheckClaims(verified.value, clientId)
  }

  /** createUserFromGoogle's first name: the trimmed given name, else the
      trimmed full name, else "Google". */
  function FirstNameOf(info: GoogleInfo): (r: string)
    ensures r != [] && NoEdgeSpace(r)
    ensures TrimSpace(info.givenName) != [] ==> r == TrimSpace(info.givenName)
    ensures TrimSpace(info.givenName) == [] && TrimSpace(info.name) != [] ==> r == TrimSpace(info.name)
    ensures AllSpace(info.givenName) && AllSpace(info.name) ==> r == "Google"
  {
    if TrimSpace(info.givenName) != "" then TrimSpace(info.givenName)
    else if TrimSpace(info.name) != "" then TrimSpace(info.name)
    else "Google"
  }

  /** createUserFromGoogle's last name: the trimmed family name, else
      "User". */
  function LastNameOf(info: GoogleInfo): (r: string)
    ensures r != [] && NoEdgeSpace(r)
    ensures TrimSpace(info.familyName) != [] ==> r == TrimSpace(info.familyName)
    ensures AllSpace(info.familyName) ==> r == "User"
  {
    if TrimSpace(info.familyName) != "" then TrimSpace(info.familyName) else "User"
  }

  /** The row createUserFromGoogle inserts: username and email are the
      Google email, the account is linked to ("google", subject), active,
      and its password hash is that of a random password. */
  function NewGoogleUser(info: GoogleInfo, passwordHash: Digest): User {
    User(0, FirstNameOf(info), LastNameOf(info), info.email, info.email, passwordHash, Text(""), "google", info.subject, true)
  }

  /** createUserFromGoogle, with randomPassword the uuid it draws and salt
      bcrypt's random salt. */
  function CreateUserStep(ut: UserRepo.UserTable, info: GoogleInfo, randomPassword: string, salt: string): (out: UserRepo.Step<User>)
    ensures out.result.Ok? ==>
      && out.result.value.id == ut.nextId
      && out.result.value.username == info.email && out.result.value.email == info.email
      && out.result.value.oidcProvider == "google" && out.result.value.oidcSubject == info.subject
      && out.result.value.isActive
      && out.result.value.firstName == FirstNameOf(info) && out.result.value.lastName == LastNameOf(info)
      && ComparePassword(out.result.value.passwordHash, randomPassword)
      && out.table.rows == ut.rows[ut.nextId := out.result.value]
    ensures out.result.Err? ==> out.table == ut
    ensures Utf8Length(randomPassword) <= MaxPasswordBytes ==> out == UserRepo.CreateStep(ut, NewGoogleUser(info, HashPassword(randomPassword, DefaultCost, salt).value))
    ensures UserRepo.Invariant(ut) && ut.nextId >= 1 ==> UserRepo.Invariant(out.table)
  {
    var hash := HashPassword(randomPassword, DefaultCost, salt);
    if hash.Err? then UserRepo.Step(Err(hash.error), ut)
    else UserRepo.CreateStep(ut, NewGoogleUser(info, hash.value))
  }

  /** Account resolution: by ("google", subject) first, then by email, and
      a new account only when both lookups are record-not-found. Any other
      lookup error propagates unchanged. */
  function ResolveStep(ut: UserRepo.UserTable, info: GoogleInfo, randomPassword: string, salt: string): (out: UserRepo.Step<User>)
    ensures var byOidc := UserRepo.Find(ut, UserRepo.ByOidc("google", info.subject));
      var byEmail := UserRepo.Find(ut, UserRepo.ByEmail(info.email));
      && (byOidc.Ok? ==> out == UserRepo.Step(byOidc, ut))
      && (byOidc.Err? && byOidc.error != RecordNotFound ==> out == UserRepo.Step(byOidc, ut))
      && (byOidc == Err(RecordNotFound) && byEmail.Ok? ==> out == UserRepo.Step(byEmail, ut))
      && (byOidc == Err(RecordNotFound) && byEmail.Err? && byEmail.error != RecordNotFound ==> out == UserRepo.Step(byEmail, ut))
      && (out.table != ut ==> byOidc == Err(RecordNotFound) && byEmail == Err(RecordNotFound))
      && (byOidc == Err(RecordNotFound) && byEmail == Err(RecordNotFound) ==> out == CreateUserStep(ut, info, randomPassword, salt))
    ensures UserRepo.Invariant(ut) && ut.nextId >= 1 ==> UserRepo.Invariant(out.table) && out.table.nextId >= 1
    ensures UserRepo.Invariant(ut) && out.result.Ok? ==>
      out.result.value.id in out.table.rows && out.table.rows[out.result.value.id] == out.result.value
  {
    var byOidc := UserRepo.Find(ut, UserRepo.ByOidc("google", info.subject));
    if byOidc.Ok? || byOidc.error != RecordNotFound then UserRepo.Step(byOidc, ut)
    else
      var byEmail := UserRepo.Find(ut, UserRepo.ByEmail(info.email));
      if byEmail.Ok? || byEmail.error != RecordNotFound then UserRepo.Step(byEmail, ut)
      else CreateUserStep(ut, info, randomPassword, salt)
  }

  /** Linking: an account with an empty provider or subject is set to
      ("google", subject) and saved; an account already linked, to Google or
      to anything else, is left as it is. */
  function LinkStep(ut: UserRepo.UserTable, account: User, subject: string): (out: UserRepo.Step<User>)
    ensures account.oidcProvider != "" && account.oidcSubject != "" ==> out == UserRepo.Step(Ok(account), ut)
    ensures (account.oidcProvider == "" || account.oidcSubject == "") ==>
      out == UserRepo.UpdateStep(ut, account.(oidcProvider := "google", oidcSubject := subject))
    ensures out.result.Ok? ==> out.result.value.oidcProvider != ""
    ensures UserRepo.Invariant(ut) && ut.nextId >= 1 ==> UserRepo.Invariant(out.table) && out.table.nextId >= 1
  {
    if account.oidcProvider == "" || account.oidcSubject == "" then
      UserRepo.UpdateStep(ut, account.(oidcProvider := "google", oidcSubject := subject))
    else
      UserRepo.Step(Ok(account), ut)
  }

  datatype LoginByGoogleReq = LoginByGoogleReq(idToken: string, userAgent: string, ipAddress: string)

  /** The result and both stores after a Google login. */
  datatype Outcome<+T> = Outcome(result: Result<T>, users: UserRepo.UserTable, sessions: StoreState)

  /** The whole flow. A failed verification or claim check is
      ErrInvalidToken and touches no store. Success means the claims passed,
      the returned profile is that of an account stored in the users table
      and linked to a provider, and exactly one active session for it was
      added under the nanoid. */
  function LoginStep(ut: UserRepo.UserTable, st: StoreState, m: Manager, clientId: string, reply: TokenInfoReply,
                     req: LoginByGoogleReq, randomPassword: string, salt: string, f: Fresh): (out: Outcome<LoginRes>)
    ensures CheckIdToken(VerifyIdToken(reply), clientId).Err? ==> out == Outcome(Err(InvalidToken), ut, st)
    ensures out.result.Ok? ==>
      && reply.Answer? && CheckClaims(reply.info, clientId).Ok?
      && out.sessions.table == st.table[f.nanoid := Session(f.nanoid, out.result.value.user.id, f.jti, req.userAgent, req.ipAddress, true, f.now)]
    ensures UserRepo.Invariant(ut) && ut.nextId >= 1 && out.result.Ok? ==>
      && out.result.value.user.id in out.users.rows
      && ProfileOf(out.users.rows[out.result.value.user.id]) == out.result.value.user
      && out.users.rows[out.result.value.user.id].oidcProvider != ""
    ensures out.users != ut ==> CheckIdToken(VerifyIdToken(reply), clientId).Ok?
    ensures UserRepo.Invariant(ut) && ut.nextId >= 1 ==> UserRepo.Invariant(out.users)
    ensures Invariant(st) ==> Invariant(out.sessions)
    ensures Coherent(st) ==> Coherent(out.sessions)
  {
    var checked := CheckIdToken(VerifyIdToken(reply), clientId);
    if checked.Err? then Outcome(Err(InvalidToken), ut, st)
    else
      var info := checked.value;
      var resolved := ResolveStep(ut, info, randomPassword, salt);
      if resolved.result.Err? then Outcome(Err(resolved.result.error), resolved.table, st)
      else
        var linked := LinkStep(resolved.table, resolved.result.value, info.subject);
        if linked.result.Err? then Outcome(Err(linked.result.error), linked.table, st)
        else
          var started := StartSessionStep(st, m, linked.result.value, "", f, req.userAgent, req.ipAddress);
          Outcome(started.result, linked.table, started.state)
  }

  /** createUserFromGoogle. */
  method CreateUserFromGoogle(users: UserRepo.UserStore, info: GoogleInfo, randomPassword: string, salt: string)
    returns (r: Result<User>)
    modifies users
    ensures UserRepo.Step(r, users.State()) == CreateUserStep(old(users.State()), info, randomPassword, salt)
  {
    var hash := HashPassword(randomPassword, DefaultCost, salt);
    if hash.Err? {
      return Err(hash.error);
    }
    r := users.Create(NewGoogleUser(info, hash.value));
  }

  /** Lines 60-85 of Handle: the account resolution. */
  method ResolveAccount(users: UserRepo.UserStore, info: GoogleInfo, randomPassword: string, salt: string)
    returns (r: Result<User>)
    modifies users
    ensures UserRepo.Step(r, users.State()) == ResolveStep(old(users.State()), info, randomPassword, salt)
  {
    r := users.FindByOIDC("google", info.subject);
    if r.Ok? || r.error != RecordNotFound {
      return;
    }
    r := users.FindByEmail(info.email);
    if r.Ok? || r.error != RecordNotFound {
      return;
    }
    r := CreateUserFromGoogle(users, info, randomPassword, salt);
  }

  /** Lines 87-97 of Handle: linking an unlinked account to Google. */
  method LinkAccount(users: UserRepo.UserStore, account: User, subject: string) returns (r: Result<User>)
    modifies users
    ensures UserRepo.Step(r, users.State()) == LinkStep(old(users.State()), account, subject)
  {
    if account.oidcProvider == "" || account.oidcSubject == "" {
      r := users.Update(account.(oidcProvider := "google", oidcSubject := subject));
    } else {
      r := Ok(account);
    }
  }

  /** loginByGoogleQuery.Handle, with the tokeninfo reply in place of the
      network call. */
  method Handle(users: UserRepo.UserStore, sessions: SessionStore, m: Manager, clientId: string, reply: TokenInfoReply,
                req: LoginByGoogleReq, randomPassword: string, salt: string, f: Fresh)
    returns (r: Result<LoginRes>)
    modifies users, sessions
    ensures Outcome(r, users.State(), sessions.State()) ==
      LoginStep(old(users.State()), old(sessions.State()), m, clientId, reply, req, randomPassword, salt, f)
  {
    var checked := CheckIdToken(VerifyIdToken(reply), clientId);
    if checked.Err? {
      return Err(InvalidToken);
    }
    var info := checked.value;
    var account := ResolveAccount(users, info, randomPassword, salt);
    if account.Err? {
      return Err(account.error);
    }
    var linked := LinkAccount(users, account.value, info.subject);
    if linked.Err? {
      return Err(linked.error);
    }
    r := StartSession(sessions, m, linked.value, "", f, req.userAgent, req.ipAddress);
  }
}
