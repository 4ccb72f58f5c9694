/** The user repository (repository/user/repos_impl.go), a thin wrapper over
    the users table: lookups by username, email and (provider, subject), an
    insert that takes the next value of the id sequence, and gorm's Save. */
module UserRepo {
  import opened Errors
  import opened Models

  /** The users table: rows by id, the next value of the id sequence, and
      whether the database answers. */
  datatype UserTable = UserTable(rows: map<nat, User>, nextId: nat, dbUp: bool)

  /** The outcome of one call: its result and the table it leaves. */
  datatype Step<+T> = Step(result: Result<T>, table: UserTable)

  /** The three WHERE clauses the repository offers. */
  datatype Lookup =
    | ByUsername(username: string)
    | ByEmail(email: string)
    | ByOidc(provider: string, subject: string)

  predicate Matches(u: User, q: Lookup) {
    match q
    case ByUsername(n) => u.username == n
    case ByEmail(e) => u.email == e
    case ByOidc(p, s) => u.oidcProvider == p && u.oidcSubject == s
  }

  predicate UsernameInUse(rows: map<nat, User>, username: string, except: nat) {
    exists id :: id in rows && id != except && rows[id].username == username
  }

  predicate EmailInUse(rows: map<nat, User>, email: string, except: nat) {
    exists id :: id in rows && id != except && rows[id].email == email
  }

  /** Rows sit under their own id, ids come from the sequence (which starts
      at 1), and usernames and emails are unique (their unique indexes). */
  predicate Invariant(ut: UserTable) {
    && (forall id :: id in ut.rows ==> ut.rows[id].id == id && 1 <= id < ut.nextId)
    && (forall a, b :: a in ut.rows && b in ut.rows && ut.rows[a].username == ut.rows[b].username ==> a == b)
    && (forall a, b :: a in ut.rows && b in ut.rows && ut.rows[a].email == ut.rows[b].email ==> a == b)
  }

  /** The least id in [from, bound) whose row matches the lookup: the row
      First picks, since it orders by primary key. */
  function FirstMatch(rows: map<nat, User>, q: Lookup, from: nat, bound: nat): (r: Option<nat>)
    decreases bound - from
    ensures r.Some? ==>
      && from <= r.value < bound && r.value in rows && Matches(rows[r.value], q)
      && (forall j :: from <= j < r.value && j in rows ==> !Matches(rows[j], q))
    ensures r.None? ==> forall j :: from <= j < bound && j in rows ==> !Matches(rows[j], q)
  {
    if from >= bound then None
    else if from in rows && Matches(rows[from], q) then Some(from)
    else FirstMatch(rows, q, from + 1, bound)
  }

  /** FindByUsername, FindByEmail, FindByOIDC: the matching row with the
      least id, record-not-found when none matches. */
  function Find(ut: UserTable, q: Lookup): (r: Result<User>)
    ensures !ut.dbUp ==> r == Err(DbUnavailable)
    ensures r.Ok? ==> Matches(r.value, q) && r.value in ut.rows.Values
    ensures Invariant(ut) && ut.dbUp ==>
      && (r.Ok? <==> exists id :: id in ut.rows && Matches(ut.rows[id], q))
      && (r.Err? ==> r.error == RecordNotFound)
      && (r.Ok? ==> forall id :: id in ut.rows && Matches(ut.rows[id], q) ==> r.value.id <= id)
  {
    if !ut.dbUp then Err(DbUnavailable)
    else
      var first := FirstMatch(ut.rows, q, 0, ut.nextId);
      if first.None? then Err(RecordNotFound) else Ok(ut.rows[first.value])
  }

  /** With unique usernames and emails, a lookup by either finds exactly the
      row holding it. */
  lemma FindUnique(ut: UserTable, id: nat, q: Lookup)
    requires Invariant(ut) && ut.dbUp && id in ut.rows
    requires q == ByUsername(ut.rows[id].username) || q == ByEmail(ut.rows[id].email)
    ensures Find(ut, q) == Ok(ut.rows[id])
  {
  }

  /** Create: the row gets the next id of the sequence; an insert that would
      repeat a username or an email is refused. */
  function CreateStep(ut: UserTable, item: User): (out: Step<User>)
    ensures out.result.Ok? <==>
      ut.dbUp && !UsernameInUse(ut.rows, item.username, 0) && !EmailInUse(ut.rows, item.email, 0)
    ensures out.result.Ok? ==>
      && out.result.value == item.(id := ut.nextId)
      && out.table == ut.(rows := ut.rows[ut.nextId := out.result.value], nextId := ut.nextId + 1)
    ensures out.result.Err? ==> out.table == ut && out.result.error == (if ut.dbUp then DuplicateKey else DbUnavailable)
    ensures Invariant(ut) && ut.nextId >= 1 ==> Invariant(out.table)
  {
    if !ut.dbUp then Step(Err(DbUnavailable), ut)
    else if UsernameInUse(ut.rows, item.username, 0) || EmailInUse(ut.rows, item.email, 0) then Step(Err(DuplicateKey), ut)
    else
      var u := item.(id := ut.nextId);
      Step(Ok(u), ut.(rows := ut.rows[ut.nextId := u], nextId := ut.nextId + 1))
  }

  /** Update: gorm Save. A zero id is an insert; any other id is written in
      place (or inserted under that id), refused when the username or the
      email belongs to another row. */
  function UpdateStep(ut: UserTable, item: User): (out: Step<User>)
    ensures item.id == 0 ==> out == CreateStep(ut, item)
    ensures out.table.dbUp == ut.dbUp
    ensures item.id != 0 ==>
      && (out.result.Ok? <==> ut.dbUp && !UsernameInUse(ut.rows, item.username, item.id) && !EmailInUse(ut.rows, item.email, item.id))
      && (out.result.Ok? ==> out.result.value == item && out.table.rows == ut.rows[item.id := item])
      && (out.result.Err? ==> out.table == ut)
    ensures Invariant(ut) && ut.nextId >= 1 ==> Invariant(out.table)
  {
    if item.id == 0 then CreateStep(ut, item)
    else if !ut.dbUp then Step(Err(DbUnavailable), ut)
    else if UsernameInUse(ut.rows, item.username, item.id) || EmailInUse(ut.rows, item.email, item.id) then Step(Err(DuplicateKey), ut)
    else
      var next := if item.id < ut.nextId then ut.nextId else item.id + 1;
      Step(Ok(item), ut.(rows := ut.rows[item.id := item], nextId := next))
  }

  /** The users table as an object whose methods update it in place. */
  class UserStore {
    var rows: map<nat, User>
    var nextId: nat
    var dbUp: bool

    function State(): UserTable
      reads this
    {
      UserTable(rows, nextId, dbUp)
    }

    ghost predicate Valid()
      reads this
    {
      Invariant(State()) && nextId >= 1
    }

    constructor ()
      ensures State() == UserTable(map[], 1, true) && Valid()
    {
      rows := map[];
      nextId := 1;
      dbUp := true;
    }

    method FindByUsername(username: string) returns (r: Result<User>)
      ensures r == Find(State(), ByUsername(username))
    {
      r := Find(State(), ByUsername(username));
    }

    method FindByEmail(email: string) returns (r: Result<User>)
      ensures r == Find(State(), ByEmail(email))
    {
      r := Find(State(), ByEmail(email));
    }

    method FindByOIDC(provider: string, subject: string) returns (r: Result<User>)
      ensures r == Find(State(), ByOidc(provider, subject))
    {
      r := Find(State(), ByOidc(provider, subject));
    }

    method Create(item: User) returns (r: Result<User>)
      modifies this
      ensures Step(r, State()) == CreateStep(old(State()), item)
    {
      if !dbUp {
        return Err(DbUnavailable);
      }
      if UsernameInUse(rows, item.username, 0) || EmailInUse(rows, item.email, 0) {
        return Err(DuplicateKey);
      }
      var u := item.(id := nextId);
      rows := rows[nextId := u];
      nextId := nextId + 1;
      return Ok(u);
    }

    method Update(item: User) returns (r: Result<User>)
      modifies this
      ensures Step(r, State()) == UpdateStep(old(State()), item)
    {
      if item.id == 0 {
        r := Create(item);
        return;
      }
      if !dbUp {
        return Err(DbUnavailable);
      }
      if UsernameInUse(rows, item.username, item.id) || EmailInUse(rows, item.email, item.id) {
        return Err(DuplicateKey);
      }
      rows := rows[item.id := item];
      if item.id >= nextId {
        nextId := item.id + 1;
      }
      return Ok(item);
    }
  }
}
