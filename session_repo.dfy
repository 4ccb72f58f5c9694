/** The session repository (repository/session/repos_impl.go): a database
    table of sessions keyed by id, fronted by a write-through cache keyed by
    "session:id:" + id.

    The store's state is a value (StoreState); each repository operation is
    first a function from a state to a Step (the result and the next state),
    and then a method of the class SessionStore, which holds the same state
    in fields and updates them in place, proved to take exactly that step.
    Whether the database and the cache answer is part of the state (dbUp,
    cacheUp), and so is whether a cache client was configured at all
    (hasCache). */
module SessionRepo {
  import opened Errors
  import opened Models

  const CacheKeyPrefix: string := "session:id:"

  /** cacheKeyByID. */
  function CacheKey(id: string): (k: string)
    ensures |k| == |CacheKeyPrefix| + |id|
    ensures k[..|CacheKeyPrefix|] == CacheKeyPrefix && k[|CacheKeyPrefix|..] == id
  {
    CacheKeyPrefix + id
  }

  /** Distinct sessions never share a cache entry. */
  lemma CacheKeyInjective(a: string, b: string)
    ensures CacheKey(a) == CacheKey(b) <==> a == b
  {
    if CacheKey(a) == CacheKey(b) {
      assert a == CacheKey(a)[|CacheKeyPrefix|..];
    }
  }

  datatype StoreState = StoreState(
    table: map<string, Session>,
    cache: map<string, Session>,
    hasCache: bool,
    dbUp: bool,
    cacheUp: bool)

  /** The outcome of one repository call: what it returns, and the state it
      leaves behind. */
  datatype Step<+T> = Step(result: Result<T>, state: StoreState)

  /** Some row holds this refresh jti. */
  predicate JtiInUse(table: map<string, Session>, jti: string) {
    exists id :: id in table && table[id].refreshJti == jti
  }

  /** Some row other than the one with id `except` holds this refresh jti. */
  predicate JtiTaken(table: map<string, Session>, jti: string, except: string) {
    exists id :: id in table && id != except && table[id].refreshJti == jti
  }

  /** What the database and the key scheme guarantee: rows are stored under
      their own id, refresh jtis are unique (the unique index on
      refresh_jti), and each cache entry sits under its session's key. */
  predicate Invariant(st: StoreState) {
    && (forall id :: id in st.table ==> st.table[id].id == id)
    && (forall a, b :: a in st.table && b in st.table && st.table[a].refreshJti == st.table[b].refreshJti ==> a == b)
    && (forall k :: k in st.cache ==> k == CacheKey(st.cache[k].id))
  }

  /** When a cache is configured, every cache entry is a copy of its table
      row. */
  predicate Coherent(st: StoreState) {
    st.hasCache ==>
      forall k :: k in st.cache ==> st.cache[k].id in st.table && st.table[st.cache[k].id] == st.cache[k]
  }

  /** getCache: fails when no cache is configured, when the cache does not
      answer, and on a miss. */
  function GetCache(st: StoreState, key: string): (r: Result<Session>)
    ensures r.Ok? <==> st.hasCache && st.cacheUp && key in st.cache
    ensures r.Ok? ==> r.value == st.cache[key]
    ensures !st.hasCache ==> r == Err(CacheDisabled)
  {
    if !st.hasCache then Err(CacheDisabled)
    else if !st.cacheUp then Err(CacheUnavailable)
    else if key !in st.cache then Err(CacheMiss)
    else Ok(st.cache[key])
  }

  /** setCache as written: with no cache configured it calls Set on a nil
      interface, which panics (None). */
  function SetCacheAsWritten(st: StoreState, s: Session): (r: Option<Step<()>>)
    ensures r.None? <==> !st.hasCache
  {
    if !st.hasCache then None
    else if !st.cacheUp then Some(Step(Err(CacheUnavailable), st))
    else Some(Step(Ok(()), st.(cache := st.cache[CacheKey(s.id) := s])))
  }

  /** setCache with the nil guard getCache has: no configured cache means
      nothing to write. Otherwise the entry under the session's key is
      overwritten, or the cache's error is returned. */
  function SetCache(st: StoreState, s: Session): (out: Step<()>)
    ensures out.result.Ok? <==> !st.hasCache || st.cacheUp
    ensures out.state.table == st.table
    ensures out.state == st || out.state == st.(cache := st.cache[CacheKey(s.id) := s])
    ensures st.hasCache && st.cacheUp ==> out.state.cache == st.cache[CacheKey(s.id) := s]
    ensures out.state.cache == st.cache <==> !st.hasCache || !st.cacheUp || (CacheKey(s.id) in st.cache && st.cache[CacheKey(s.id)] == s)
    ensures st.hasCache ==> Some(out) == SetCacheAsWritten(st, s)
  {
    if !st.hasCache then Step(Ok(()), st)
    else if !st.cacheUp then Step(Err(CacheUnavailable), st)
    else Step(Ok(()), st.(cache := st.cache[CacheKey(s.id) := s]))
  }

  /** Writing a session's own row to the cache keeps the invariant. */
  lemma SetCacheKeeps(st: StoreState, s: Session)
    ensures Invariant(st) ==> Invariant(SetCache(st, s).state)
  {
  }

  /** Saving a row and then writing it through to the cache keeps a coherent
      cache coherent: the only entry that could hold the old row is the one
      under the row's own key, and that entry is overwritten. */
  lemma WriteThroughKeepsCoherent(st: StoreState, s: Session)
    ensures Invariant(st) && Coherent(st) && (!st.hasCache || st.cacheUp) ==>
      Coherent(SetCache(st.(table := st.table[s.id := s]), s).state)
  {
    var saved := st.(table := st.table[s.id := s]);
    var after := SetCache(saved, s).state;
    if Invariant(st) && Coherent(st) && st.hasCache && st.cacheUp {
      forall k | k in after.cache
        ensures after.cache[k].id in after.table && after.table[after.cache[k].id] == after.cache[k]
      {
        if k != CacheKey(s.id) {
          CacheKeyInjective(st.cache[k].id, s.id);
        }
      }
    }
  }

  /** Inserting a row under a new id leaves every existing cache entry
      coherent, whether or not the new row reaches the cache. */
  lemma CreateKeepsCoherent(st: StoreState, s: Session)
    requires s.id !in st.table
    ensures Coherent(st) ==> Coherent(SetCache(st.(table := st.table[s.id := s]), s).state)
  {
  }

  /** The id Create stores a session under. */
  function AssignedId(item: Session, freshId: string): string {
    if item.id == "" then freshId else item.id
  }

  /** Create: keep a supplied id or take the generated one, insert the row
      in a transaction (refused when the id or the refresh jti is already
      present), then write the cache, returning the cache's error even
      though the row is already stored. */
  function CreateStep(st: StoreState, item: Session, freshId: string): (out: Step<Session>)
    ensures var s := item.(id := AssignedId(item, freshId));
      && (out.result.Ok? <==> st.dbUp && s.id !in st.table && !JtiInUse(st.table, s.refreshJti) && (!st.hasCache || st.cacheUp))
      && (out.result.Ok? ==> out.result.value == s)
      && (!st.dbUp ==> out == Step(Err(DbUnavailable), st))
      && (st.dbUp && (s.id in st.table || JtiInUse(st.table, s.refreshJti)) ==> out == Step(Err(DuplicateKey), st))
      && (out.state.table == st.table || out.state.table == st.table[s.id := s])
      && (out.result == Err(CacheUnavailable) ==> out.state.table == st.table[s.id := s])
      && (st.dbUp && s.id !in st.table && !JtiInUse(st.table, s.refreshJti) ==>
            out.state == SetCache(st.(table := st.table[s.id := s]), s).state)
      && (out.result.Ok? ==>
            && out.state.table == st.table[s.id := s]
            && (st.hasCache ==> out.state.cache == st.cache[CacheKey(s.id) := s]))
    ensures out.state == st.(table := out.state.table, cache := out.state.cache)
    ensures Invariant(st) ==> Invariant(out.state)
    ensures Coherent(st) ==> Coherent(out.state)
  {
    var s := item.(id := AssignedId(item, freshId));
    if !st.dbUp then Step(Err(DbUnavailable), st)
    else if s.id in st.table || JtiInUse(st.table, s.refreshJti) then Step(Err(DuplicateKey), st)
    else
      var inserted := st.(table := st.table[s.id := s]);
      var written := SetCache(inserted, s);
      SetCacheKeeps(inserted, s);
      CreateKeepsCoherent(st, s);
      Step(if written.result.Ok? then Ok(s) else Err(written.result.error), written.state)
  }

  /** FindByID and FindBySessionID: a cache hit is returned without touching
      the table; on a miss the row is read, a not-found propagates, and a
      found row is written back to the cache, ignoring a cache error. */
  function FindStep(st: StoreState, id: string): (out: Step<Session>)
    ensures GetCache(st, CacheKey(id)).Ok? ==> out == Step(Ok(st.cache[CacheKey(id)]), st)
    ensures GetCache(st, CacheKey(id)).Err? ==>
      && (out.result.Ok? <==> st.dbUp && id in st.table)
      && (out.result.Ok? ==> out.result.value == st.table[id])
      && (!st.dbUp ==> out == Step(Err(DbUnavailable), st))
      && (st.dbUp && id !in st.table ==> out == Step(Err(RecordNotFound), st))
      && (st.dbUp && id in st.table ==> out.state == SetCache(st, st.table[id]).state)
    ensures out.state.table == st.table
    ensures out.state == st.(cache := out.state.cache)
    ensures Invariant(st) ==> Invariant(out.state) && (out.result.Ok? ==> out.result.value.id == id)
    ensures Invariant(st) && Coherent(st) ==>
      && Coherent(out.state)
      && (out.result.Ok? ==> id in st.table && out.result.value == st.table[id])
  {
    var cached := GetCache(st, CacheKey(id));
    if cached.Ok? then
      if Invariant(st) then
        CacheKeyInjective(id, cached.value.id);
        Step(cached, st)
      else
        Step(cached, st)
    else if !st.dbUp then Step(Err(DbUnavailable), st)
    else if id !in st.table then Step(Err(RecordNotFound), st)
    else
      var s := st.table[id];
      SetCacheKeeps(st, s);
      Step(Ok(s), SetCache(st, s).state)
  }

  /** FindByRefreshJTI: a table query on the refresh jti (the cache is not
      read), and a found row is written back to the cache. */
  ghost function FindByRefreshJtiStep(st: StoreState, jti: string): (out: Step<Session>)
    ensures out.result.Ok? <==> st.dbUp && JtiInUse(st.table, jti)
    ensures out.result.Ok? ==> out.result.value in st.table.Values && out.result.value.refreshJti == jti
    ensures Invariant(st) && out.result.Ok? ==>
      forall id :: id in st.table && st.table[id].refreshJti == jti ==> out.result.value == st.table[id]
    ensures out.result.Err? ==> out.state == st && out.result.error == (if st.dbUp then RecordNotFound else DbUnavailable)
    ensures out.state.table == st.table
    ensures Invariant(st) ==> Invariant(out.state)
    ensures Invariant(st) && Coherent(st) ==> Coherent(out.state)
  {
    if !st.dbUp then Step(Err(DbUnavailable), st)
    else if !JtiInUse(st.table, jti) then Step(Err(RecordNotFound), st)
    else
      var id :| id in st.table && st.table[id].refreshJti == jti;
      var s := st.table[id];
      SetCacheKeeps(st, s);
      Step(Ok(s), SetCache(st, s).state)
  }

  /** Update: gorm Save, which writes the row under its id whether or not it
      existed (refused when another row holds its refresh jti), then the
      cache. */
  function UpdateStep(st: StoreState, item: Session): (out: Step<()>)
    ensures out.result.Ok? <==> st.dbUp && !JtiTaken(st.table, item.refreshJti, item.id) && (!st.hasCache || st.cacheUp)
    ensures !st.dbUp || JtiTaken(st.table, item.refreshJti, item.id) ==> out.state == st
    ensures st.dbUp && !JtiTaken(st.table, item.refreshJti, item.id) ==>
      && out.state.table == st.table[item.id := item]
      && out.state == SetCache(st.(table := st.table[item.id := item]), item).state
    ensures out.result.Ok? && st.hasCache ==> out.state.cache == st.cache[CacheKey(item.id) := item]
    ensures out.state == st.(table := out.state.table, cache := out.state.cache)
    ensures Invariant(st) ==> Invariant(out.state)
    ensures Invariant(st) && Coherent(st) && out.result.Ok? ==> Coherent(out.state)
  {
    if !st.dbUp then Step(Err(DbUnavailable), st)
    else if JtiTaken(st.table, item.refreshJti, item.id) then Step(Err(DuplicateKey), st)
    else
      var saved := st.(table := st.table[item.id := item]);
      SetCacheKeeps(saved, item);
      WriteThroughKeepsCoherent(st, item);
      SetCache(saved, item)
  }

  /** The row RotateRefreshJTI saves: the new jti and a fresh last-used
      time, every other field as it was. */
  function Rotated(s: Session, newJti: string, now: int): Session {
    s.(refreshJti := newJti, lastUsedAt := now)
  }

  /** RotateRefreshJTI: a compare-and-swap on the refresh jti, decided on
      the table row and never on the cache. A missing row and a row whose jti
      is not oldJti are both record-not-found and change nothing; otherwise
      the row gets the new jti and last-used time and is written to the
      cache. */
  function RotateStep(st: StoreState, id: string, oldJti: string, newJti: string, now: int): (out: Step<()>)
    ensures out.result.Ok? ==> id in st.table && st.table[id].refreshJti == oldJti
    ensures st.dbUp && (id !in st.table || st.table[id].refreshJti != oldJti) ==> out == Step(Err(RecordNotFound), st)
    ensures !st.dbUp ==> out == Step(Err(DbUnavailable), st)
    ensures out.state.table == st.table || (id in st.table && out.state.table == st.table[id := Rotated(st.table[id], newJti, now)])
    ensures out.result.Ok? <==>
      && st.dbUp && id in st.table && st.table[id].refreshJti == oldJti
      && !JtiTaken(st.table, newJti, id) && (!st.hasCache || st.cacheUp)
    ensures out.result.Ok? ==> out.state.table == st.table[id := Rotated(st.table[id], newJti, now)]
    ensures out.result.Ok? && st.hasCache ==> out.state.cache == st.cache[CacheKey(st.table[id].id) := Rotated(st.table[id], newJti, now)]
    ensures st.dbUp && id in st.table && st.table[id].refreshJti == oldJti && !JtiTaken(st.table, newJti, id) ==>
      var s := Rotated(st.table[id], newJti, now);
      out.state == SetCache(st.(table := st.table[id := s]), s).state
    ensures out.state == st.(table := out.state.table, cache := out.state.cache)
    ensures Invariant(st) ==> Invariant(out.state)
    ensures Invariant(st) && Coherent(st) && out.result.Ok? ==> Coherent(out.state)
  {
    if !st.dbUp then Step(Err(DbUnavailable), st)
    else if id !in st.table || st.table[id].refreshJti != oldJti then Step(Err(RecordNotFound), st)
    else if JtiTaken(st.table, newJti, id) then Step(Err(DuplicateKey), st)
    else
      var s := Rotated(st.table[id], newJti, now);
      var saved := st.(table := st.table[id := s]);
      SetCacheKeeps(saved, s);
      WriteThroughKeepsCoherent(st, s);
      SetCache(saved, s)
  }

  /** The row Deactivate saves: inactive, with a fresh last-used time. */
  function Retired(s: Session, now: int): Session {
    s.(isActive := false, lastUsedAt := now)
  }

  /** Deactivate: the row, when found, is saved inactive with a fresh
      last-used time, and written to the cache. */
  function DeactivateStep(st: StoreState, id: string, now: int): (out: Step<()>)
    ensures out.result.Ok? <==> st.dbUp && id in st.table && (!st.hasCache || st.cacheUp)
    ensures !st.dbUp ==> out == Step(Err(DbUnavailable), st)
    ensures st.dbUp && id !in st.table ==> out == Step(Err(RecordNotFound), st)
    ensures st.dbUp && id in st.table ==> out.state.table == st.table[id := Retired(st.table[id], now)]
    ensures Invariant(st) && out.result.Ok? && st.hasCache ==>
      CacheKey(id) in out.state.cache && out.state.cache[CacheKey(id)] == Retired(st.table[id], now)
    ensures out.result.Ok? && st.hasCache ==> out.state.cache == st.cache[CacheKey(st.table[id].id) := Retired(st.table[id], now)]
    ensures st.dbUp && id in st.table ==>
      var s := Retired(st.table[id], now);
      out.state == SetCache(st.(table := st.table[id := s]), s).state
    ensures out.state == st.(table := out.state.table, cache := out.state.cache)
    ensures Invariant(st) ==> Invariant(out.state)
    ensures Invariant(st) && Coherent(st) && out.result.Ok? ==> Coherent(out.state)
  {
    if !st.dbUp then Step(Err(DbUnavailable), st)
    else if id !in st.table then Step(Err(RecordNotFound), st)
    else
      var s := Retired(st.table[id], now);
      var saved := st.(table := st.table[id := s]);
      SetCacheKeeps(saved, s);
      WriteThroughKeepsCoherent(st, s);
      SetCache(saved, s)
  }

  /** The session store itself: the table and the cache as two maps that its
      methods update in place. */
  class SessionStore {
    var table: map<string, Session>
    var cache: map<string, Session>
    var hasCache: bool
    var dbUp: bool
    var cacheUp: bool

    function State(): StoreState
      reads this
    {
      StoreState(table, cache, hasCache, dbUp, cacheUp)
    }

    ghost predicate Valid()
      reads this
    {
      Invariant(State())
    }

    /** NewRepository: an empty table, with or without a cache client. */
    constructor (withCache: bool)
      ensures State() == StoreState(map[], map[], withCache, true, true)
      ensures Valid() && Coherent(State())
    {
      table := map[];
      cache := map[];
      hasCache := withCache;
      dbUp := true;
      cacheUp := true;
    }

    method ReadCache(key: string) returns (r: Result<Session>)
      ensures r == GetCache(State(), key)
    {
      if !hasCache {
        return Err(CacheDisabled);
      }
      if !cacheUp {
        return Err(CacheUnavailable);
      }
      if key !in cache {
        return Err(CacheMiss);
      }
      return Ok(cache[key]);
    }

    method WriteCache(s: Session) returns (r: Result<()>)
      modifies this
      ensures Step(r, State()) == SetCache(old(State()), s)
    {
      if !hasCache {
        return Ok(());
      }
      if !cacheUp {
        return Err(CacheUnavailable);
      }
      cache := cache[CacheKey(s.id) := s];
      return Ok(());
    }

    method Create(item: Session, freshId: string) returns (r: Result<Session>)
      modifies this
      ensures Step(r, State()) == CreateStep(old(State()), item, freshId)
    {
      var s := item;
      if s.id == "" {
        s := s.(id := freshId);
      }
      if !dbUp {
        return Err(DbUnavailable);
      }
      if s.id in table || JtiInUse(table, s.refreshJti) {
        return Err(DuplicateKey);
      }
      table := table[s.id := s];
      var written := WriteCache(s);
      if written.Err? {
        return Err(written.error);
      }
      return Ok(s);
    }

    method FindByID(id: string) returns (r: Result<Session>)
      modifies this
      ensures Step(r, State()) == FindStep(old(State()), id)
    {
      var cached := ReadCache(CacheKey(id));
      if cached.Ok? {
        return cached;
      }
      if !dbUp {
        return Err(DbUnavailable);
      }
      if id !in table {
        return Err(RecordNotFound);
      }
      var s := table[id];
      var _ := WriteCache(s);
      return Ok(s);
    }

    /** The same lookup as FindByID under the name the refresh and logout
        flows call. */
    method FindBySessionID(sessionID: string) returns (r: Result<Session>)
      modifies this
      ensures Step(r, State()) == FindStep(old(State()), sessionID)
    {
      r := FindByID(sessionID);
    }

    method FindByRefreshJTI(jti: string) returns (r: Result<Session>)
      requires Valid()
      modifies this
      ensures Step(r, State()) == FindByRefreshJtiStep(old(State()), jti)
    {
      if !dbUp {
        return Err(DbUnavailable);
      }
      if !JtiInUse(table, jti) {
        return Err(RecordNotFound);
      }
      var id :| id in table && table[id].refreshJti == jti;
      var s := table[id];
      var _ := WriteCache(s);
      return Ok(s);
    }

    method Update(item: Session) returns (r: Result<()>)
      modifies this
      ensures Step(r, State()) == UpdateStep(old(State()), item)
    {
      if !dbUp {
        return Err(DbUnavailable);
      }
      if JtiTaken(table, item.refreshJti, item.id) {
        return Err(DuplicateKey);
      }
      table := table[item.id := item];
      r := WriteCache(item);
    }

    method RotateRefreshJTI(id: string, oldJti: string, newJti: string, now: int) returns (r: Result<()>)
      modifies this
      ensures Step(r, State()) == RotateStep(old(State()), id, oldJti, newJti, now)
    {
      if !dbUp {
        return Err(DbUnavailable);
      }
      if id !in table || table[id].refreshJti != oldJti {
        return Err(RecordNotFound);
      }
      if JtiTaken(table, newJti, id) {
        return Err(DuplicateKey);
      }
      var s := Rotated(table[id], newJti, now);
      table := table[id := s];
      r := WriteCache(s);
    }

    method Deactivate(id: string, now: int) returns (r: Result<()>)
      modifies this
      ensures Step(r, State()) == DeactivateStep(old(State()), id, now)
    {
      if !dbUp {
        return Err(DbUnavailable);
      }
      if id !in table {
        return Err(RecordNotFound);
      }
      var s := Retired(table[id], now);
      table := table[id := s];
      r := WriteCache(s);
    }
  }
}
