/** The authentication manager of auth/manager.go: per-user tokens stored as objects
    of a Cloud Storage bucket, looked up through a cache. The storage download is an
    oracle `fetch` from user to token or error; `fetches` records the users it was
    asked for. A nil cache or a nil storage client that Go would dereference is a
    `Panicked` outcome. */
module Auth {
  import opened Base

  const CannotVerify: string := "Cannot verify the token"
  const IncorrectToken: string := "Incorrect token supplied"
  const NilCache: string := "runtime error: invalid memory address or nil pointer dereference (authCache)"
  const NilClient: string := "runtime error: invalid memory address or nil pointer dereference (gcs)"

  /** The outcome of a cache-aside lookup: the token or the fetch error, the cache
      afterwards and whether the storage was asked. */
  datatype Lookup = Lookup(token: string, err: Option<Error>, cache: map<string, string>, fetched: bool)

  /** `getAuthToken` on a cache: a cached token is returned without fetching; on a
      miss the token is fetched and stored only when the fetch succeeded. */
  function CacheAside(cache: map<string, string>, fetch: string -> Result<string, Error>, user: string): (l: Lookup)
    ensures l.fetched <==> user !in cache
    ensures l.err.None? ==> user in l.cache && l.cache[user] == l.token
    ensures l.err.None? && l.fetched ==> fetch(user) == Ok(l.token)
    ensures l.err.Some? ==> l.fetched && l.cache == cache && fetch(user) == Err(l.err.value)
    ensures forall u :: u != user ==> (u in l.cache <==> u in cache)
    ensures forall u :: u != user && u in cache ==> l.cache[u] == cache[u]
    ensures user in cache ==> l == Lookup(cache[user], None, cache, false)
  {
    if user in cache then Lookup(cache[user], None, cache, false)
    else match fetch(user)
      case Ok(t) => Lookup(t, None, cache[user := t], true)
      case Err(e) => Lookup("", Some(e), cache, true)
  }

  /** A successful lookup fills the cache: the next lookup of that user gives the same
      token without asking the storage, whatever it would now answer
      (auth/manager.go:54-64). */
  lemma LookupTwice(cache: map<string, string>, fetch: string -> Result<string, Error>,
                    later: string -> Result<string, Error>, user: string)
    ensures var l := CacheAside(cache, fetch, user);
      l.err.None? ==> CacheAside(l.cache, later, user) == Lookup(l.token, None, l.cache, false)
  {
  }

  /** `getAuthToken` on the manager's fields: a nil cache panics, and so does a miss
      with a nil storage client. */
  function GetAuthTokenStep(cache: Option<map<string, string>>, gcs: bool,
                            fetch: string -> Result<string, Error>, user: string): (r: Fallible<Lookup>)
    ensures r.Returned? <==> cache.Some? && (gcs || user in cache.value)
    ensures r.Returned? ==> r.value == CacheAside(cache.value, fetch, user)
  {
    if cache.None? then Panicked(NilCache)
    else if user !in cache.value && !gcs then Panicked(NilClient)
    else Returned(CacheAside(cache.value, fetch, user))
  }

  /** The final comparison of `CheckAccess`. */
  function Compare(expected: string, token: string): (e: Option<Error>)
    ensures e.None? <==> expected == token
    ensures e.Some? ==> e.value == Error(IncorrectToken)
  {
    if expected != token then Some(Error(IncorrectToken)) else None
  }

  /** What `CheckAccess` did, and the cache and the storage use it left. */
  datatype Access = Access(result: Fallible<Option<Error>>, cache: Option<map<string, string>>, fetched: bool)

  /** The lookup branch of `CheckAccess`: the stored token, which must not be empty,
      compared with the supplied one. */
  function LookupBranch(cache: Option<map<string, string>>, gcs: bool,
                        fetch: string -> Result<string, Error>, user: string, token: string): Access
  {
    match GetAuthTokenStep(cache, gcs, fetch, user)
    case Panicked(reason) => Access(Panicked(reason), cache, false)
    case Returned(l) =>
      if l.err.Some? then Access(Returned(l.err), Some(l.cache), l.fetched)
      else if l.token == "" then Access(Returned(Some(Error(CannotVerify))), Some(l.cache), l.fetched)
      else Access(Returned(Compare(l.token, token)), Some(l.cache), l.fetched)
  }

  /** The other branch: the expected token is the empty string. */
  function EmptyBranch(cache: Option<map<string, string>>, token: string): Access
  {
    Access(Returned(Compare("", token)), cache, false)
  }

  /** `CheckAccess` as written: the lookup branch is taken when there is NO storage
      client (auth/manager.go:74). */
  function AsWrittenStep(cache: Option<map<string, string>>, gcs: bool,
                         fetch: string -> Result<string, Error>, user: string, token: string): Access
  {
    if !gcs then LookupBranch(cache, gcs, fetch, user, token) else EmptyBranch(cache, token)
  }

  /** `CheckAccess` with the test the manager's design calls for: look the token up
      when there IS a storage client. */
  function CheckAccessStep(cache: Option<map<string, string>>, gcs: bool,
                           fetch: string -> Result<string, Error>, user: string, token: string): Access
  {
    if gcs then LookupBranch(cache, gcs, fetch, user, token) else EmptyBranch(cache, token)
  }

  /** As written, a manager with a storage client never asks it and admits exactly the
      empty token, and one without a client (authentication disabled) panics on its
      nil cache; with a client that failed to start it panics at the first user not
      yet cached, which is every user, since only a fetch fills the cache
      (auth/manager.go:74-89). */
  lemma AsWrittenOutcomes(cache: Option<map<string, string>>, gcs: bool,
                          fetch: string -> Result<string, Error>, user: string, token: string)
    ensures var a := AsWrittenStep(cache, gcs, fetch, user, token);
      && !a.fetched && a.cache == cache
      && (gcs ==> (a.result == Returned(None) <==> token == ""))
      && (!gcs && cache.None? ==> a.result == Panicked(NilCache))
      && (!gcs && cache.Some? && user !in cache.value ==> a.result == Panicked(NilClient))
  {
  }

  /** The counterexample: user "alice" whose stored token is "s3cret", on a manager
      with a storage client. As written the empty token is admitted and "s3cret" is
      refused; the corrected check refuses the empty token and admits "s3cret". */
  lemma AsWrittenAdmitsEmptyToken(fetch: string -> Result<string, Error>)
    requires fetch("alice") == Ok("s3cret")
    ensures AsWrittenStep(Some(map[]), true, fetch, "alice", "").result == Returned(None)
    ensures AsWrittenStep(Some(map[]), true, fetch, "alice", "s3cret").result == Returned(Some(Error(IncorrectToken)))
    ensures CheckAccessStep(Some(map[]), true, fetch, "alice", "").result == Returned(Some(Error(IncorrectToken)))
    ensures CheckAccessStep(Some(map[]), true, fetch, "alice", "s3cret").result == Returned(None)
  {
    assert CacheAside(map[], fetch, "alice").token == "s3cret";
  }

  /** The corrected check: with a client (and its cache) it admits exactly the
      non-empty stored token, refuses an empty one with "Cannot verify the token" and
      passes a fetch error on; without a client it admits exactly the empty token;
      it never panics (auth/manager.go:74-89). */
  lemma CheckAccessOutcomes(cache: Option<map<string, string>>, gcs: bool,
                            fetch: string -> Result<string, Error>, user: string, token: string)
    requires gcs ==> cache.Some?
    ensures var a := CheckAccessStep(cache, gcs, fetch, user, token);
      && a.result.Returned?
      && (!gcs ==> (a.result.value.None? <==> token == "") && !a.fetched && a.cache == cache)
      && (gcs ==> var l := CacheAside(cache.value, fetch, user);
            && a.cache == Some(l.cache) && a.fetched == l.fetched
            && (a.result.value.None? <==> l.err.None? && l.token != "" && l.token == token)
            && (l.err.Some? ==> a.result.value == l.err)
            && (l.err.None? && l.token == "" ==> a.result.value == Some(Error(CannotVerify))))
  {
  }

  /** The manager: an optional cache (nil when authentication is disabled), whether
      the storage client exists, the bucket, and the storage oracle. */
  class Manager {
    var cache: Option<map<string, string>>
    const gcs: bool
    const bucket: string
    const fetch: string -> Result<string, Error>
    var fetches: seq<string>

    /** A storage client comes with a cache. */
    ghost predicate Valid()
      reads this
    {
      gcs ==> cache.Some?
    }

    constructor(cache: Option<map<string, string>>, gcs: bool, bucket: string, fetch: string -> Result<string, Error>)
      requires gcs ==> cache.Some?
      ensures Valid()
      ensures this.cache == cache && this.gcs == gcs && this.bucket == bucket && this.fetch == fetch && fetches == []
    {
      this.cache := cache;
      this.gcs := gcs;
      this.bucket := bucket;
      this.fetch := fetch;
      fetches := [];
    }

    /** `getAuthToken`: the outcome of `GetAuthTokenStep`, with the cache it leaves and
        one more storage request exactly on a miss. */
    method GetAuthToken(user: string) returns (r: Fallible<Result<string, Error>>)
      modifies this
      ensures var s := GetAuthTokenStep(old(cache), gcs, fetch, user);
        && (s.Panicked? ==> r == Panicked(s.reason) && cache == old(cache) && fetches == old(fetches))
        && (s.Returned? ==> && r == Returned(if s.value.err.Some? then Err(s.value.err.value) else Ok(s.value.token))
                            && cache == Some(s.value.cache)
                            && fetches == old(fetches) + (if s.value.fetched then [user] else []))
    {
      if cache.None? {
        return Panicked(NilCache);
      }
      var c := cache.value;
      if user in c {
        return Returned(Ok(c[user]));
      }
      if !gcs {
        return Panicked(NilClient);
      }
      fetches := fetches + [user];
      var reply := fetch(user);
      if reply.Ok? {
        cache := Some(c[user := reply.value]);
        return Returned(Ok(reply.value));
      }
      return Returned(Err(reply.error));
    }

    /** The lookup branch, sharing `GetAuthToken`. */
    method LookupAccess(user: string, token: string) returns (r: Fallible<Option<Error>>)
      modifies this
      ensures var a := LookupBranch(old(cache), gcs, fetch, user, token);
        && r == a.result && cache == a.cache
        && fetches == old(fetches) + (if a.fetched then [user] else [])
    {
      var t := GetAuthToken(user);
      if t.Panicked? {
        return Panicked(t.reason);
      }
      if t.value.Err? {
        return Returned(Some(t.value.error));
      }
      var actualToken := t.value.value;
      if actualToken == "" {
        return Returned(Some(Error(CannotVerify)));
      }
      return Returned(Compare(actualToken, token));
    }

    /** `CheckAccess` as written (auth/manager.go:67-90). */
    method CheckAccessAsWritten(user: string, token: string) returns (r: Fallible<Option<Error>>)
      modifies this
      ensures var a := AsWrittenStep(old(cache), gcs, fetch, user, token);
        && r == a.result && cache == a.cache
        && fetches == old(fetches) + (if a.fetched then [user] else [])
    {
      if !gcs {
        r := LookupAccess(user, token);
      } else {
        r := Returned(Compare("", token));
      }
    }

    /** `CheckAccess` with the corrected test; it keeps `Valid` and never panics. */
    method CheckAccess(user: string, token: string) returns (err: Option<Error>)
      requires Valid()
      modifies this
      ensures Valid()
      ensures var a := CheckAccessStep(old(cache), gcs, fetch, user, token);
        && Returned(err) == a.result && cache == a.cache
        && fetches == old(fetches) + (if a.fetched then [user] else [])
    {
      CheckAccessOutcomes(cache, gcs, fetch, user, token);
      if gcs {
        var r := LookupAccess(user, token);
        err := r.value;
      } else {
        err := Compare("", token);
      }
    }
  }

  /** `NewManager`: an empty bucket disables authentication (no cache, no client);
      otherwise a client error is returned without a manager, and a storage-service
      error is returned with a manager that has a cache but no client
      (auth/manager.go:24-41). */
  method NewManager(bucket: string, clientErr: Option<Error>, serviceErr: Option<Error>,
                    fetch: string -> Result<string, Error>) returns (m: Manager?, err: Option<Error>)
    ensures bucket == "" ==> m != null && fresh(m) && m.cache.None? && !m.gcs && err.None?
    ensures bucket != "" && clientErr.Some? ==> m == null && err == clientErr
    ensures bucket != "" && clientErr.None? ==>
      && m != null && fresh(m) && m.cache == Some(map[]) && m.bucket == bucket
      && (m.gcs <==> serviceErr.None?) && err == serviceErr
    ensures m != null ==> m.Valid() && m.fetch == fetch && m.fetches == []
  {
    if bucket == "" {
      m := new Manager(None, false, "", fetch);
      return m, None;
    }
    if clientErr.Some? {
      return null, clientErr;
    }
    m := new Manager(Some(map[]), serviceErr.None?, bucket, fetch);
    err := serviceErr;
  }
}
