/** Registration (command/register_cmd.go). This command belongs to an
    older design that keeps a hash of the refresh token on the user row and
    calls a one-argument GenerateTokens(userID); the token generation is
    therefore a parameter here, any function from the new user's id to a
    token pair or an error. */
module RegisterCommand {
  import opened Errors
  import opened Strings
  import opened Password
  import opened Models
  import UserRepo

  datatype RegisterReq = RegisterReq(username: string, password: string, firstName: string, lastName: string)

  /** What the one-argument GenerateTokens hands back. */
  datatype IssuedTokens = IssuedTokens(access: string, refresh: string, accessExp: int)

  /** userdto.LoginRes as this command fills it, with the access expiry in
      place of ExpiresIn. */
  datatype RegisterRes = RegisterRes(access: string, refresh: string, accessExp: int, user: Profile)

  /** Username, password and first name must be non-blank. */
  predicate RequiredPresent(req: RegisterReq) {
    !AllSpace(req.username) && !AllSpace(req.password) && !AllSpace(req.firstName)
  }

  /** The row registration inserts: first name and username trimmed, email
      the trimmed username, last name trimmed or "User", active, with the
      hash of the password. */
  function NewUser(req: RegisterReq, passwordHash: Digest): User
  {
    var lastName := if TrimSpace(req.lastName) == "" then "User" else TrimSpace(req.lastName);
    User(0, TrimSpace(req.firstName), lastName, TrimSpace(req.username), TrimSpace(req.username), passwordHash, Text(""), "", "", true)
  }

  /** Lines 70-98 of Handle, for the freshly created row u: issue tokens
      for its id, save the hash of the refresh token on the row, and return
      the tokens with the row's profile. */
  function IssueStep(ut: UserRepo.UserTable, u: User, refreshSalt: string, issue: nat -> Result<IssuedTokens>): (out: UserRepo.Step<RegisterRes>)
    ensures u.id != 0 && out.result.Ok? ==>
      u.id in out.table.rows &&
      var saved := u.(refreshTokenHash := out.table.rows[u.id].refreshTokenHash);
      && issue(u.id).Ok?
      && out.result.value.access == issue(u.id).value.access && out.result.value.refresh == issue(u.id).value.refresh
      && out.table.rows == ut.rows[u.id := saved]
      && ComparePassword(saved.refreshTokenHash, out.result.value.refresh)
      && out.result.value.user == ProfileOf(saved)
    ensures u.id != 0 && out.result.Err? ==> out.table == ut
    ensures out.table.dbUp == ut.dbUp
    ensures u.id != 0 && out.result.Ok? ==> out.table.nextId == if u.id < ut.nextId then ut.nextId else u.id + 1
    ensures UserRepo.Invariant(ut) && ut.nextId >= 1 ==> UserRepo.Invariant(out.table) && out.table.nextId >= 1
  {
    var tokens := issue(u.id);
    if tokens.Err? then UserRepo.Step(Err(tokens.error), ut)
    else
      var refreshHash := HashPassword(tokens.value.refresh, DefaultCost, refreshSalt);
      if refreshHash.Err? then UserRepo.Step(Err(refreshHash.error), ut)
      else
        var withHash := u.(refreshTokenHash := refreshHash.value);
        var updated := UserRepo.UpdateStep(ut, withHash);
        if updated.result.Err? then UserRepo.Step(Err(updated.result.error), updated.table)
        else
          UserRepo.Step(Ok(RegisterRes(tokens.value.access, tokens.value.refresh, tokens.value.accessExp, ProfileOf(withHash))), updated.table)
  }

  /** Lines 47-68 of Handle: hash the password and insert the new row. On
      success the row sits under the next id and is made from the request. */
  function CreateStep(ut: UserRepo.UserTable, r: RegisterReq, salt: string): (out: UserRepo.Step<User>)
    ensures out.result.Ok? ==>
      && out.result.value.id == ut.nextId
      && out.table == ut.(rows := ut.rows[ut.nextId := out.result.value], nextId := ut.nextId + 1)
      && RegisteredFrom(out.result.value, r)
      && out.result.value.refreshTokenHash == Text("")
    ensures out.result.Err? ==> out.table == ut
    ensures UserRepo.Invariant(ut) && ut.nextId >= 1 ==> UserRepo.Invariant(out.table) && out.table.nextId >= 1
  {
    var hash := HashPassword(r.password, DefaultCost, salt);
    if hash.Err? then UserRepo.Step(Err(hash.error), ut)
    else UserRepo.CreateStep(ut, NewUser(r, hash.value))
  }

  /** Lines 47-98 of Handle, once the request is valid and the username
      free: create the user, then issue tokens and save the refresh hash. On
      success exactly one row is added, under the next id, made from the
      request and holding a hash of the returned refresh token. Any failure
      returns its error; one after the insert leaves the row created. */
  function CreateAndIssueStep(ut: UserRepo.UserTable, r: RegisterReq, salt: string, refreshSalt: string,
                              issue: nat -> Result<IssuedTokens>): (out: UserRepo.Step<RegisterRes>)
    ensures ut.nextId != 0 && out.result.Ok? ==>
      && ut.nextId in out.table.rows
      && out.result.value.user.id == ut.nextId
      && out.table.nextId == ut.nextId + 1
      && out.table.rows == ut.rows[ut.nextId := out.table.rows[ut.nextId]]
      && RegisteredFrom(out.table.rows[ut.nextId], r)
      && issue(ut.nextId).Ok? && out.result.value.refresh == issue(ut.nextId).value.refresh
      && out.result.value.access == issue(ut.nextId).value.access
      && ComparePassword(out.table.rows[ut.nextId].refreshTokenHash, out.result.value.refresh)
      && out.result.value.user == ProfileOf(out.table.rows[ut.nextId])
    ensures UserRepo.Invariant(ut) && ut.nextId >= 1 ==> UserRepo.Invariant(out.table)
  {
    var created := CreateStep(ut, r, salt);
    if created.result.Err? then UserRepo.Step(Err(created.result.error), created.table)
    else
      if ut.nextId == 0 then IssueStep(created.table, created.result.value, refreshSalt, issue)
      else
        IssueAfterInsert(ut, created.table, created.result.value, r, refreshSalt, issue);
        IssueStep(created.table, created.result.value, refreshSalt, issue)
  }

  /** Issuing for a row u just inserted under the next id overwrites that
      row only: the rest of the table is the one before the insert. */
  lemma IssueAfterInsert(ut: UserRepo.UserTable, created: UserRepo.UserTable, u: User, r: RegisterReq,
                         refreshSalt: string, issue: nat -> Result<IssuedTokens>)
    requires u.id == ut.nextId && u.id != 0 && RegisteredFrom(u, r)
    requires created.rows == ut.rows[ut.nextId := u] && created.nextId == ut.nextId + 1
    ensures var out := IssueStep(created, u, refreshSalt, issue);
      out.result.Ok? ==>
        && ut.nextId in out.table.rows
        && out.result.value.user.id == ut.nextId
        && out.table.nextId == ut.nextId + 1
        && out.table.rows == ut.rows[ut.nextId := out.table.rows[ut.nextId]]
        && RegisteredFrom(out.table.rows[ut.nextId], r)
        && issue(ut.nextId).Ok? && out.result.value.refresh == issue(ut.nextId).value.refresh
        && out.result.value.access == issue(ut.nextId).value.access
        && ComparePassword(out.table.rows[ut.nextId].refreshTokenHash, out.result.value.refresh)
        && out.result.value.user == ProfileOf(out.table.rows[ut.nextId])
  {
    var out := IssueStep(created, u, refreshSalt, issue);
    if out.result.Ok? {
      var row := out.table.rows[ut.nextId];
      assert row == u.(refreshTokenHash := row.refreshTokenHash);
      OverwriteTwice(ut.rows, ut.nextId, u, row);
    }
  }

  lemma OverwriteTwice<K, V>(m: map<K, V>, k: K, a: V, b: V)
    ensures m[k := a][k := b] == m[k := b]
  {
  }

  /** A stored row made by registration from the request: the trimmed
      username as username and email, the trimmed first name, the last name
      or "User", active, unlinked, with a hash of the password. */
  predicate RegisteredFrom(u: User, r: RegisterReq) {
    && u.username == TrimSpace(r.username) && u.email == TrimSpace(r.username)
    && u.firstName == TrimSpace(r.firstName)
    && u.lastName == (if AllSpace(r.lastName) then "User" else TrimSpace(r.lastName))
    && u.isActive && u.oidcProvider == "" && u.oidcSubject == ""
    && ComparePassword(u.passwordHash, r.password)
  }


  /** What a successful registration leaves behind: exactly one row added,
      under the next id, made from the request, holding a hash of the
      returned refresh token, whose profile is returned with the tokens
      issued for that id. */
  lemma CreateAndIssueOk(ut: UserRepo.UserTable, r: RegisterReq, salt: string, refreshSalt: string,
                         issue: nat -> Result<IssuedTokens>)
    requires ut.nextId != 0
    requires CreateAndIssueStep(ut, r, salt, refreshSalt, issue).result.Ok?
    ensures var out := CreateAndIssueStep(ut, r, salt, refreshSalt, issue);
      && ut.nextId in out.table.rows
      && out.table.nextId == ut.nextId + 1
      && out.table.rows == ut.rows[ut.nextId := out.table.rows[ut.nextId]]
      && RegisteredFrom(out.table.rows[ut.nextId], r)
      && issue(ut.nextId).Ok?
      && out.result.value.access == issue(ut.nextId).value.access
      && out.result.value.refresh == issue(ut.nextId).value.refresh
      && ComparePassword(out.table.rows[ut.nextId].refreshTokenHash, out.result.value.refresh)
      && out.result.value.user == ProfileOf(out.table.rows[ut.nextId])
      && out.result.value.user.id == ut.nextId
      && ut.dbUp && out.table.dbUp
  {
    var hash := HashPassword(r.password, DefaultCost, salt);
    var created := UserRepo.CreateStep(ut, NewUser(r, hash.value));
    assert created.result.Ok?;
    var u := created.result.value;
    assert u == NewUser(r, hash.value).(id := ut.nextId);
    var out := IssueStep(created.table, u, refreshSalt, issue);
    assert out == CreateAndIssueStep(ut, r, salt, refreshSalt, issue);
    var row := out.table.rows[ut.nextId];
    assert row == u.(refreshTokenHash := row.refreshTokenHash);
    assert RegisteredFrom(row, r);
  }

  /** The command, with salt and refreshSalt the random bcrypt salts and
      issue the token generation. A missing request and a blank required
      field are errors before any store access. An existing username (looked
      up as given, untrimmed) is ErrUserAlreadyExists and creates nothing;
      another lookup error propagates. */
  function RegisterStep(ut: UserRepo.UserTable, req: Option<RegisterReq>, salt: string, refreshSalt: string,
                        issue: nat -> Result<IssuedTokens>): (out: UserRepo.Step<RegisterRes>)
    ensures req.None? ==> out == UserRepo.Step(Err(RequestRequired), ut)
    ensures req.Some? && !RequiredPresent(req.value) ==> out == UserRepo.Step(Err(RequiredFieldsMissing), ut)
    ensures req.Some? && RequiredPresent(req.value) ==>
      var found := UserRepo.Find(ut, UserRepo.ByUsername(req.value.username));
      && (found.Ok? ==> out == UserRepo.Step(Err(UserAlreadyExists), ut))
      && (found.Err? && found.error != RecordNotFound ==> out == UserRepo.Step(Err(found.error), ut))
      && (found == Err(RecordNotFound) ==> out == CreateAndIssueStep(ut, req.value, salt, refreshSalt, issue))
    ensures out.table != ut || out.result.Ok? ==>
      req.Some? && RequiredPresent(req.value) && UserRepo.Find(ut, UserRepo.ByUsername(req.value.username)) == Err(RecordNotFound)
    ensures UserRepo.Invariant(ut) && ut.nextId >= 1 ==> UserRepo.Invariant(out.table)
  {
    if req.None? then UserRepo.Step(Err(RequestRequired), ut)
    else
      var r := req.value;
      if TrimSpace(r.username) == "" || TrimSpace(r.password) == "" || TrimSpace(r.firstName) == "" then
        UserRepo.Step(Err(RequiredFieldsMissing), ut)
      else
        var found := UserRepo.Find(ut, UserRepo.ByUsername(r.username));
        if found.Ok? then UserRepo.Step(Err(UserAlreadyExists), ut)
        else if found.error != RecordNotFound then UserRepo.Step(Err(found.error), ut)
        else CreateAndIssueStep(ut, r, salt, refreshSalt, issue)
  }

  /** bcrypt refuses more than 72 bytes, and a refresh token is hashed with
      it: a refresh token longer than that makes registration fail after
      the user row has been created. Every HS256 JWT is longer (its header
      segment alone has 36 characters and its signature 43). */
  lemma LongRefreshTokenFailsAfterCreate(ut: UserRepo.UserTable, r: RegisterReq, salt: string, refreshSalt: string,
                                         issue: nat -> Result<IssuedTokens>)
    requires HashPassword(r.password, DefaultCost, salt).Ok?
    requires UserRepo.CreateStep(ut, NewUser(r, HashPassword(r.password, DefaultCost, salt).value)).result.Ok?
    requires issue(ut.nextId).Ok? && |issue(ut.nextId).value.refresh| > MaxPasswordBytes
    ensures var out := CreateAndIssueStep(ut, r, salt, refreshSalt, issue);
      out.result == Err(PasswordTooLong) && out.table.rows == UserRepo.CreateStep(ut, NewUser(r, HashPassword(r.password, DefaultCost, salt).value)).table.rows
  {
  }

  /** A SHA-256 digest in lower-case hex: 64 ASCII characters, within the
      72 bytes bcrypt takes. */
  type Fingerprint = s: string | |s| == 64 && forall i :: 0 <= i < |s| ==> s[i] in "0123456789abcdef"
    witness seq(64, _ => '0')

  /** IssueStep as evidently intended: bcrypt is given a fixed-length
      fingerprint of the refresh token, here any function to 64 hex digits,
      instead of the token itself. */
  function FingerprintIssueStep(ut: UserRepo.UserTable, u: User, refreshSalt: string, issue: nat -> Result<IssuedTokens>,
                                fingerprint: string -> Fingerprint): (out: UserRepo.Step<RegisterRes>)
    ensures u.id != 0 && out.result.Ok? ==>
      u.id in out.table.rows &&
      var saved := u.(refreshTokenHash := out.table.rows[u.id].refreshTokenHash);
      && issue(u.id).Ok?
      && out.result.value.access == issue(u.id).value.access && out.result.value.refresh == issue(u.id).value.refresh
      && out.table.rows == ut.rows[u.id := saved]
      && ComparePassword(saved.refreshTokenHash, fingerprint(out.result.value.refresh))
      && out.result.value.user == ProfileOf(saved)
    ensures u.id != 0 && out.result.Err? ==> out.table == ut
    ensures u.id != 0 && issue(u.id).Ok? ==>
      (out.result.Ok? <==> ut.dbUp && !UserRepo.UsernameInUse(ut.rows, u.username, u.id) && !UserRepo.EmailInUse(ut.rows, u.email, u.id))
    ensures UserRepo.Invariant(ut) && ut.nextId >= 1 ==> UserRepo.Invariant(out.table) && out.table.nextId >= 1
  {
    var tokens := issue(u.id);
    if tokens.Err? then UserRepo.Step(Err(tokens.error), ut)
    else
      var fp := fingerprint(tokens.value.refresh);
      // 64 bytes, so bcrypt takes it and the error branch of line 76 is dead.
      AsciiUtf8Length(fp);
      var withHash := u.(refreshTokenHash := HashPassword(fp, DefaultCost, refreshSalt).value);
      var updated := UserRepo.UpdateStep(ut, withHash);
      if updated.result.Err? then UserRepo.Step(Err(updated.result.error), updated.table)
      else
        UserRepo.Step(Ok(RegisterRes(tokens.value.access, tokens.value.refresh, tokens.value.accessExp, ProfileOf(withHash))), updated.table)
  }

  /** Lines 47-98 of Handle with the refresh token fingerprinted before
      hashing. */
  function FingerprintCreateAndIssueStep(ut: UserRepo.UserTable, r: RegisterReq, salt: string, refreshSalt: string,
                                         issue: nat -> Result<IssuedTokens>, fingerprint: string -> Fingerprint): (out: UserRepo.Step<RegisterRes>)
    ensures CreateStep(ut, r, salt).result.Err? ==> out == UserRepo.Step(Err(CreateStep(ut, r, salt).result.error), ut)
  {
    var created := CreateStep(ut, r, salt);
    if created.result.Err? then UserRepo.Step(Err(created.result.error), created.table)
    else FingerprintIssueStep(created.table, created.result.value, refreshSalt, issue, fingerprint)
  }

  /** With the fingerprint, a registration whose insert succeeds fails only
      when token generation does: whatever the length of the refresh token,
      the row then holds a hash of its fingerprint. */
  lemma FingerprintRegistrationSucceeds(ut: UserRepo.UserTable, r: RegisterReq, salt: string, refreshSalt: string,
                                        issue: nat -> Result<IssuedTokens>, fingerprint: string -> Fingerprint)
    requires UserRepo.Invariant(ut) && ut.nextId >= 1
    ensures var out := FingerprintCreateAndIssueStep(ut, r, salt, refreshSalt, issue, fingerprint);
      && (out.result.Ok? <==> CreateStep(ut, r, salt).result.Ok? && issue(ut.nextId).Ok?)
      && (out.result.Ok? ==>
            && ut.nextId in out.table.rows
            && out.result.value.refresh == issue(ut.nextId).value.refresh
            && ComparePassword(out.table.rows[ut.nextId].refreshTokenHash, fingerprint(out.result.value.refresh)))
  {
    var created := CreateStep(ut, r, salt);
    if created.result.Ok? && issue(ut.nextId).Ok? {
      var u := created.result.value;
      var t := created.table;
      assert UserRepo.Invariant(t) && t.rows[u.id] == u;
      assert !UserRepo.UsernameInUse(t.rows, u.username, u.id);
      assert !UserRepo.EmailInUse(t.rows, u.email, u.id);
    }
  }

  /** Registering the same request a second time fails and changes
      nothing: the lookup finds the first registration's row when the
      username has no surrounding white space, and otherwise the unique
      index on the trimmed username refuses the insert. */
  lemma RegisterTwiceFails(ut: UserRepo.UserTable, r: RegisterReq, salt: string, refreshSalt: string,
                           issue: nat -> Result<IssuedTokens>, salt2: string, refreshSalt2: string,
                           issue2: nat -> Result<IssuedTokens>)
    requires UserRepo.Invariant(ut) && ut.nextId >= 1
    requires RegisterStep(ut, Some(r), salt, refreshSalt, issue).result.Ok?
    ensures var after := RegisterStep(ut, Some(r), salt, refreshSalt, issue).table;
      var again := RegisterStep(after, Some(r), salt2, refreshSalt2, issue2);
      && again.table == after
      && again.result.Err? && again.result.error in {UserAlreadyExists, DuplicateKey}
      && (NoEdgeSpace(r.username) ==> again.result == Err(UserAlreadyExists))
  {
    var first := RegisterStep(ut, Some(r), salt, refreshSalt, issue);
    assert first == CreateAndIssueStep(ut, r, salt, refreshSalt, issue);
    CreateAndIssueOk(ut, r, salt, refreshSalt, issue);
    var after := first.table;
    var row := after.rows[ut.nextId];
    assert UserRepo.Invariant(after) && after.dbUp;
    assert row.username == TrimSpace(r.username);
    var found := UserRepo.Find(after, UserRepo.ByUsername(r.username));
    if NoEdgeSpace(r.username) {
      assert UserRepo.Matches(after.rows[ut.nextId], UserRepo.ByUsername(r.username));
      assert found.Ok?;
    } else if found.Err? {
      assert found.error == RecordNotFound;
      assert HashPassword(r.password, DefaultCost, salt2).Ok?;
      var hash := HashPassword(r.password, DefaultCost, salt2).value;
      assert UserRepo.UsernameInUse(after.rows, NewUser(r, hash).username, 0);
      var created := CreateStep(after, r, salt2);
      assert created == UserRepo.Step(Err(DuplicateKey), after);
    }
  }

  /** registerCommand.Handle. */
  method Handle(users: UserRepo.UserStore, req: Option<RegisterReq>, salt: string, refreshSalt: string,
                issue: nat -> Result<IssuedTokens>) returns (r: Result<RegisterRes>)
    modifies users
    ensures UserRepo.Step(r, users.State()) == RegisterStep(old(users.State()), req, salt, refreshSalt, issue)
  {
    if req.None? {
      return Err(RequestRequired);
    }
    var q := req.value;
    if TrimSpace(q.username) == "" || TrimSpace(q.password) == "" || TrimSpace(q.firstName) == "" {
      return Err(RequiredFieldsMissing);
    }
    var found := users.FindByUsername(q.username);
    if found.Ok? {
      return Err(UserAlreadyExists);
    } else if found.error != RecordNotFound {
      return Err(found.error);
    }
    r := CreateAndIssue(users, q, salt, refreshSalt, issue);
  }

  /** Lines 47-98 of registerCommand.Handle. */
  method CreateAndIssue(users: UserRepo.UserStore, q: RegisterReq, salt: string, refreshSalt: string,
                        issue: nat -> Result<IssuedTokens>) returns (r: Result<RegisterRes>)
    modifies users
    ensures UserRepo.Step(r, users.State()) == CreateAndIssueStep(old(users.State()), q, salt, refreshSalt, issue)
  {
    var created := CreateUser(users, q, salt);
    if created.Err? {
      return Err(created.error);
    }
    r := IssueFor(users, created.value, refreshSalt, issue);
  }

  /** Lines 47-68 of registerCommand.Handle. */
  method CreateUser(users: UserRepo.UserStore, q: RegisterReq, salt: string) returns (r: Result<User>)
    modifies users
    ensures UserRepo.Step(r, users.State()) == CreateStep(old(users.State()), q, salt)
  {
    var hash := HashPassword(q.password, DefaultCost, salt);
    if hash.Err? {
      return Err(hash.error);
    }
    r := users.Create(NewUser(q, hash.value));
  }

  /** Lines 70-98 of registerCommand.Handle. */
  method IssueFor(users: UserRepo.UserStore, item: User, refreshSalt: string, issue: nat -> Result<IssuedTokens>)
    returns (r: Result<RegisterRes>)
    modifies users
    ensures UserRepo.Step(r, users.State()) == IssueStep(old(users.State()), item, refreshSalt, issue)
  {
    var tokens := issue(item.id);
    if tokens.Err? {
      return Err(tokens.error);
    }
    var refreshHash := HashPassword(tokens.value.refresh, DefaultCost, refreshSalt);
    if refreshHash.Err? {
      return Err(refreshHash.error);
    }
    var withHash := item.(refreshTokenHash := refreshHash.value);
    var updated := users.Update(withHash);
    if updated.Err? {
      return Err(updated.error);
    }
    return Ok(RegisterRes(tokens.value.access, tokens.value.refresh, tokens.value.accessExp, ProfileOf(withHash)));
  }
}
