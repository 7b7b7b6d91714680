/** Leases on a shared Redis: `SET NX PX`, and the two compare-and-act scripts.  A command
    may be lost on its way, or carried out with its reply lost. */
module LockManager {
  import opened Wrappers

  type Key = string
  type Token = string

  /** A key's value in Redis, and when Redis lets it expire. */
  datatype Lease = Lease(token: Token, expiresAt: int)

  type Store = map<Key, Lease>

  datatype Link = Delivered | RequestLost | ReplyLost

  /** The token a key holds at `now`, if it has not expired. */
  function Holder(store: Store, key: Key, now: int): Option<Token> {
    if key in store && now < store[key].expiresAt then Some(store[key].token) else None
  }

  function SetNxPx(store: Store, key: Key, token: Token, ttl: int, now: int): Store {
    if Holder(store, key, now).None? then store[key := Lease(token, now + ttl)] else store
  }

  function ReleaseScript(store: Store, key: Key, token: Token, now: int): Store {
    if Holder(store, key, now) == Some(token) then store - {key} else store
  }

  function RenewScript(store: Store, key: Key, token: Token, ttl: int, now: int): Store {
    if Holder(store, key, now) == Some(token) then store[key := Lease(token, now + ttl)] else store
  }

  class Redis {
    var store: Store
    var now: int

    /** `LockManager.acquire`: a lock is handed out only when Redis said OK and the reply came. */
    method Acquire(key: Key, token: Token, ttl: int, autoRenew: bool, link: Link) returns (lock: Lock?)
      requires ttl > 0
      modifies this
      ensures now == old(now)
      ensures store == if link == RequestLost then old(store) else SetNxPx(old(store), key, token, ttl, now)
      ensures lock != null <==> link == Delivered && Holder(old(store), key, now).None?
      ensures lock != null ==> fresh(lock) && lock.key == key && lock.token == token && lock.ttl == ttl &&
                               lock.renewTimer == autoRenew
    {
      lock := null;
      if link == RequestLost { return; }
      if Holder(store, key, now).Some? { return; }
      store := store[key := Lease(token, now + ttl)];
      if link == Delivered {
        lock := new Lock(key, token, ttl);
        if autoRenew { lock.StartRenewal(); }
      }
    }
  }

  class Lock {
    const key: Key
    const token: Token
    const ttl: int
    var renewTimer: bool
    /** How often the timer renews, in milliseconds. */
    var renewEvery: int

    constructor (key: Key, token: Token, ttl: int)
      ensures this.key == key && this.token == token && this.ttl == ttl && !renewTimer
    {
      this.key, this.token, this.ttl, renewTimer, renewEvery := key, token, ttl, false, 0;
    }

    /** At half the TTL, so that a renewal is due while the lease still runs. */
    method StartRenewal()
      modifies this
      ensures renewTimer && 2 * renewEvery <= ttl < 2 * renewEvery + 2
    {
      renewEvery := ttl / 2;
      renewTimer := true;
    }

    /** A renewal that learns it no longer owns the key stops its timer; one that failed
        leaves it running. */
    method Renew(redis: Redis, link: Link) returns (renewed: bool)
      modifies this, redis
      ensures redis.now == old(redis.now)
      ensures redis.store == if link == RequestLost then old(redis.store)
                             else RenewScript(old(redis.store), key, token, ttl, redis.now)
      ensures renewed <==> link == Delivered && Holder(old(redis.store), key, redis.now) == Some(token)
      ensures renewTimer == (old(renewTimer) && (renewed || link != Delivered))
    {
      renewed := false;
      if link == RequestLost { return; }
      var owner := Holder(redis.store, key, redis.now) == Some(token);
      if owner { redis.store := redis.store[key := Lease(token, redis.now + ttl)]; }
      if link == Delivered {
        renewed := owner;
        if !owner { renewTimer := false; }
      }
    }

    /** Safe to call more than once, and whoever owns the key by now. */
    method Release(redis: Redis, link: Link)
      modifies this, redis
      ensures redis.now == old(redis.now) && !renewTimer
      ensures redis.store == if link == RequestLost then old(redis.store)
                             else ReleaseScript(old(redis.store), key, token, redis.now)
    {
      renewTimer := false;
      if link == RequestLost { return; }
      if Holder(redis.store, key, redis.now) == Some(token) {
        redis.store := redis.store - {key};
      }
    }
  }

  // ---- All processes together ---------------------------------------------------------

  /** A lock as its process sees it; `grantedAt` is its last successful acquire or renew. */
  datatype Grant = Grant(key: Key, ttl: int, grantedAt: int, released: bool)

  datatype State = State(store: Store, now: int, locks: map<Token, Grant>, used: set<Token>)

  datatype Step =
    | Acquire(key: Key, token: Token, ttl: int, link: Link)
    | Renew(token: Token, link: Link)
    | Release(token: Token, link: Link)
    | Advance(ms: nat)

  const START := State(map[], 0, map[], {})

  /** Tokens are never reused, and only a lock that was handed out is renewed or released. */
  predicate Enabled(s: State, step: Step) {
    match step
    case Acquire(_, token, ttl, _) => token !in s.used && ttl > 0
    case Renew(token, _) => token in s.locks
    case Release(token, _) => token in s.locks
    case Advance(_) => true
  }

  function Apply(s: State, step: Step): State
    requires Enabled(s, step)
  {
    match step
    case Acquire(key, token, ttl, link) =>
      var free := Holder(s.store, key, s.now).None?;
      s.(store := if link == RequestLost then s.store else SetNxPx(s.store, key, token, ttl, s.now),
         locks := if free && link == Delivered then s.locks[token := Grant(key, ttl, s.now, false)] else s.locks,
         used := s.used + {token})
    case Renew(token, link) =>
      var g := s.locks[token];
      var owner := Holder(s.store, g.key, s.now) == Some(token);
      s.(store := if link == RequestLost then s.store else RenewScript(s.store, g.key, token, g.ttl, s.now),
         locks := if owner && link == Delivered then s.locks[token := g.(grantedAt := s.now)] else s.locks)
    case Release(token, link) =>
      var g := s.locks[token];
      s.(store := if link == RequestLost then s.store else ReleaseScript(s.store, g.key, token, s.now),
         locks := s.locks[token := g.(released := true)])
    case Advance(ms) => s.(now := s.now + ms)
  }

  ghost predicate Run(s: State, run: seq<Step>)
    decreases |run|
  {
    run != [] ==> Enabled(s, run[0]) && Run(Apply(s, run[0]), run[1..])
  }

  function End(s: State, run: seq<Step>): State
    requires Run(s, run)
    decreases |run|
  {
    if run == [] then s else End(Apply(s, run[0]), run[1..])
  }

  /** Within the TTL of its last successful acquire or renew, and not released. */
  predicate Live(s: State, token: Token) {
    token in s.locks && !s.locks[token].released && s.now < s.locks[token].grantedAt + s.locks[token].ttl
  }

  /** Redis holds the key for whoever is live, at least as long as its process believes. */
  ghost predicate Backed(s: State, token: Token) {
    Live(s, token) ==>
      var g := s.locks[token];
      g.key in s.store && s.store[g.key].token == token && s.store[g.key].expiresAt >= g.grantedAt + g.ttl
  }

  ghost predicate Inv(s: State) {
    && (forall t :: t in s.locks ==> t in s.used && s.locks[t].grantedAt <= s.now)
    && (forall k :: k in s.store ==> s.store[k].token in s.used)
    && (forall t :: t in s.locks ==> Backed(s, t))
  }

  lemma AcquireKeepsBacked(s: State, key: Key, token: Token, ttl: int, link: Link, t: Token)
    requires Inv(s) && Enabled(s, Acquire(key, token, ttl, link))
    ensures Backed(Apply(s, Acquire(key, token, ttl, link)), t)
  {
    if t in s.locks {
      assert Backed(s, t) && t != token;
    }
  }

  lemma RenewKeepsBacked(s: State, token: Token, link: Link, t: Token)
    requires Inv(s) && Enabled(s, Renew(token, link))
    ensures Backed(Apply(s, Renew(token, link)), t)
  {
    if t in s.locks {
      assert Backed(s, t);
    }
  }

  lemma ReleaseKeepsBacked(s: State, token: Token, link: Link, t: Token)
    requires Inv(s) && Enabled(s, Release(token, link))
    ensures Backed(Apply(s, Release(token, link)), t)
  {
    if t in s.locks {
      assert Backed(s, t);
    }
  }

  lemma StepKeepsInv(s: State, step: Step)
    requires Inv(s) && Enabled(s, step)
    ensures Inv(Apply(s, step))
  {
    var s' := Apply(s, step);
    forall t | t in s'.locks ensures Backed(s', t) {
      match step
      case Acquire(key, token, ttl, link) => AcquireKeepsBacked(s, key, token, ttl, link, t);
      case Renew(token, link) => RenewKeepsBacked(s, token, link, t);
      case Release(token, link) => ReleaseKeepsBacked(s, token, link, t);
      case Advance(_) => assert Backed(s, t);
    }
  }

  lemma {:induction false} RunKeepsInv(s: State, run: seq<Step>)
    requires Inv(s) && Run(s, run)
    ensures Inv(End(s, run))
    decreases |run|
  {
    if run != [] {
      StepKeepsInv(s, run[0]);
      RunKeepsInv(Apply(s, run[0]), run[1..]);
    }
  }

  lemma LiveHoldersAreOne(s: State, t: Token, u: Token)
    requires Inv(s) && Live(s, t) && Live(s, u) && s.locks[t].key == s.locks[u].key
    ensures t == u
  {
    assert Backed(s, t) && Backed(s, u);
  }

  /** Mutual exclusion: over every interleaving, with commands and replies lost at will, at
      most one lock on a key is live. */
  lemma AtMostOneLiveHolder(run: seq<Step>, t: Token, u: Token)
    requires Run(START, run)
    requires var s := End(START, run); Live(s, t) && Live(s, u) && s.locks[t].key == s.locks[u].key
    ensures t == u
  {
    RunKeepsInv(START, run);
    LiveHoldersAreOne(End(START, run), t, u);
  }

  /** A live holder keeps its entry whatever any other token does, other than wait. */
  lemma OthersCannotTouchAHolder(run: seq<Step>, step: Step, holder: Token)
    requires Run(START, run)
    requires var s := End(START, run);
             Live(s, holder) && Enabled(s, step) && !step.Advance? && step.token != holder
    ensures var s := End(START, run); var s' := Apply(s, step); var key := s.locks[holder].key;
            && key in s.store && s.store[key].token == holder
            && key in s'.store && s'.store[key] == s.store[key]
            && s'.locks[holder] == s.locks[holder]
  {
    RunKeepsInv(START, run);
    assert Backed(End(START, run), holder);
  }

  /** A renew or a release changes an entry only if its token is the one Redis holds, and
      then only that entry. */
  lemma StaleHolderChangesNothing(s: State, step: Step)
    requires Enabled(s, step) && (step.Renew? || step.Release?)
    ensures var key := s.locks[step.token].key; var s' := Apply(s, step);
            && (forall k :: k != key ==>
                  (k in s'.store <==> k in s.store) && (k in s.store ==> s'.store[k] == s.store[k]))
            && (s'.store != s.store ==> Holder(s.store, key, s.now) == Some(step.token))
  {}

  // ---- What a holder can rely on ----------------------------------------------------------

  /** A key that no one holds unexpired is granted, and one that is held is refused: a delivered
      acquire ends in a live lock exactly when the key is free. */
  lemma GrantedIffFree(s: State, key: Key, token: Token, ttl: int)
    requires Inv(s) && Enabled(s, Acquire(key, token, ttl, Delivered))
    ensures var s' := Apply(s, Acquire(key, token, ttl, Delivered));
            && (Live(s', token) <==> !(key in s.store && s.now < s.store[key].expiresAt))
            && (Live(s', token) ==> key in s'.store && s'.store[key] == Lease(token, s.now + ttl))
  {}

  /** A live holder's renewal that is carried out extends the lease by the full TTL from now, and
      when its reply arrives the holder stays live for that long, whatever else happens. */
  lemma RenewalExtends(run: seq<Step>, token: Token, link: Link, later: seq<Step>)
    requires Run(START, run) && Live(End(START, run), token) && link != RequestLost
    requires Run(Apply(End(START, run), Renew(token, link)), later)
    ensures var s := End(START, run); var s' := Apply(s, Renew(token, link)); var g := s.locks[token];
            && g.key in s'.store && s'.store[g.key] == Lease(token, s.now + g.ttl)
            && (link == Delivered ==> s'.locks[token] == g.(grantedAt := s.now))
            && (link == Delivered && NeverReleases(later, token) && End(s', later).now < s.now + g.ttl ==>
                  Live(End(s', later), token))
  {
    RunKeepsInv(START, run);
    var s := End(START, run);
    assert Backed(s, token);
    var s' := Apply(s, Renew(token, link));
    StepKeepsInv(s, Renew(token, link));
    if link == Delivered && NeverReleases(later, token) {
      StaysGranted(s', later, token, s.now);
    }
  }

  predicate NeverReleases(run: seq<Step>, token: Token) {
    forall i :: 0 <= i < |run| ==> !(run[i].Release? && run[i].token == token)
  }

  /** Only its own release takes a grant back. */
  lemma {:induction false} StaysGranted(s: State, run: seq<Step>, token: Token, since: int)
    requires Inv(s) && Run(s, run) && token in s.locks && !s.locks[token].released && s.locks[token].grantedAt >= since
    requires NeverReleases(run, token)
    ensures var e := End(s, run);
            && token in e.locks && !e.locks[token].released && e.locks[token].grantedAt >= since
            && e.locks[token].ttl == s.locks[token].ttl
    decreases |run|
  {
    if run != [] {
      StepKeepsInv(s, run[0]);
      StaysGranted(Apply(s, run[0]), run[1..], token, since);
    }
  }

  /** A live holder's release that is carried out frees the key. */
  lemma ReleaseFreesTheKey(run: seq<Step>, token: Token, link: Link)
    requires Run(START, run) && Live(End(START, run), token) && link != RequestLost
    ensures var s := End(START, run); var s' := Apply(s, Release(token, link));
            s.locks[token].key !in s'.store && !Live(s', token)
  {
    RunKeepsInv(START, run);
    assert Backed(End(START, run), token);
  }
}
