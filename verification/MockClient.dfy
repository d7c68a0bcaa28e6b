/**
 The backend's ACP client as one caller sees it: the table of session locks and the cache of
 upstream session ids. A lock is a number that no other lock has.
 */
module MockClient {
  import opened Wrappers

  function Get(m: map<string, string>, key: string): Option<string> {
    if key in m then Some(m[key]) else None
  }

  /** The table's lock for the session, or a new one. */
  function LockFor(locks: map<string, nat>, nextLock: nat, session: string): nat {
    if session in locks then locks[session] else nextLock
  }

  /** A cached id that loaded is kept as it is; one that did not is dropped from the cache. */
  function ReuseCached(cached: Option<string>, loaded: bool, upstream: map<string, string>, session: string)
    : (Option<string>, map<string, string>)
  {
    match cached
    case None => (None, upstream)
    case Some(id) => if loaded then (Some(id), upstream) else (None, upstream - {session})
  }

  class Client {
    var locks: map<string, nat>
    var nextLock: nat
    var upstream: map<string, string>

    /** No two sessions share a lock. */
    ghost predicate Valid()
      reads this
    {
      && (forall s :: s in locks ==> locks[s] < nextLock)
      && (forall s, t :: s in locks && t in locks && s != t ==> locks[s] != locks[t])
    }

    constructor ()
      ensures Valid() && locks == map[] && upstream == map[]
    {
      locks, nextLock, upstream := map[], 0, map[];
    }

    method SessionLock(session: string) returns (lock: nat)
      requires Valid()
      modifies this`locks, this`nextLock
      ensures Valid()
      ensures lock == LockFor(old(locks), old(nextLock), session) && locks == old(locks)[session := lock]
      ensures session in old(locks) ==> locks == old(locks)
      ensures session !in old(locks) ==> forall s :: s in old(locks) ==> old(locks)[s] != lock
    {
      if session !in locks {
        locks := locks[session := nextLock];
        nextLock := nextLock + 1;
      }
      lock := locks[session];
    }

    method ForgetSession(session: string)
      requires Valid()
      modifies this`locks, this`upstream
      ensures Valid()
      ensures locks == old(locks) - {session} && upstream == old(upstream) - {session}
    {
      upstream := upstream - {session};
      locks := locks - {session};
    }

    method ReuseCachedSession(cached: Option<string>, loaded: bool, session: string) returns (kept: Option<string>)
      modifies this`upstream
      ensures (kept, upstream) == ReuseCached(cached, loaded, old(upstream), session)
    {
      if cached.None? {
        return None;
      }
      if loaded {
        return cached;
      }
      upstream := upstream - {session};
      kept := None;
    }

    /**
     Undisturbed, the caller gets the cached id if the agent loads it and else a session made anew,
     and the cache then holds that id; when making one fails the cache holds none.
     */
    method LoadOrCreateSession(session: string, canLoad: bool, loads: bool, created: Option<string>) returns (id: Option<string>)
      modifies this`upstream
      ensures id == if session in old(upstream) && canLoad && loads then Get(old(upstream), session) else created
      ensures Get(upstream, session) == id
      ensures upstream - {session} == old(upstream) - {session}
    {
      var cached := Get(upstream, session);
      var loaded := canLoad && cached.Some? && loads;
      id := ReuseCachedSession(cached, loaded, session);
      if id.Some? {
        return;
      }
      if created.None? {
        return None;
      }
      upstream := upstream[session := created.value];
      id := created;
    }
  }
}
