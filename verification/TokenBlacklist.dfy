/** The blacklist of refresh tokens: entries for one token, for a family of tokens, and for
    all tokens of a user, each kept for as long as a refresh token lives. */
module TokenBlacklist {
  import opened Wrappers

  /** What a refresh token says; its hash stands for all of it.  Times are in milliseconds. */
  datatype Token = Token(userId: int, tenantId: string, tokenId: string, familyId: string, issuedAt: int)

  datatype Key = OfToken(token: Token) | OfFamily(familyId: string) | OfUser(tenantId: string, userId: int)

  datatype Entry = Entry(reason: string, expiresAt: int)

  type Store = map<Key, Entry>

  /** Seven days, in seconds. */
  const REFRESH_TOKEN_TTL := 604800

  const TTL_MS := REFRESH_TOKEN_TTL * 1000

  predicate Alive(b: Store, k: Key, now: int) { k in b && now <= b[k].expiresAt }

  function Put(b: Store, k: Key, reason: string, now: int): Store { b[k := Entry(reason, now + TTL_MS)] }

  function UserKey(t: Token): Key { OfUser(t.tenantId, t.userId) }

  predicate Blocked(b: Store, t: Token, now: int) {
    Alive(b, OfToken(t), now) || Alive(b, OfFamily(t.familyId), now) || Alive(b, UserKey(t), now)
  }

  /** Why a token is blocked: its own entry first, then its family's, then its user's. */
  function ReasonOf(b: Store, t: Token, now: int): (r: Option<string>)
    ensures r.Some? <==> Blocked(b, t, now)
  {
    if Alive(b, OfToken(t), now) then Some(b[OfToken(t)].reason)
    else if Alive(b, OfFamily(t.familyId), now) then Some(b[OfFamily(t.familyId)].reason)
    else if Alive(b, UserKey(t), now) then Some(b[UserKey(t)].reason)
    else None
  }

  function Expired(b: Store, now: int): set<Key> {
    set k | k in b && b[k].expiresAt <= now
  }

  ghost predicate Alike(a: Store, b: Store) {
    forall k :: k in a && k in b ==> a[k] == b[k]
  }

  lemma StillAlike(a: Store, b: Store, gone: set<Key>)
    requires Alike(a, b)
    ensures Alike(a - gone, b - gone)
  {}

  /** The entries, in the cache that answers and in the registry that the cleanup goes through. */
  class Blacklist {
    var registry: Store
    var cache: Store

    /** Both hold an entry alike. */
    ghost predicate Valid()
      reads this
    {
      Alike(registry, cache)
    }

    constructor ()
      ensures Valid() && cache == map[]
    {
      registry, cache := map[], map[];
    }

    method Add(key: Key, reason: string, now: int)
      requires Valid()
      modifies this
      ensures Valid() && cache == Put(old(cache), key, reason, now) && registry == Put(old(registry), key, reason, now)
    {
      var entry := Entry(reason, now + REFRESH_TOKEN_TTL * 1000);
      registry := registry[key := entry];
      cache := cache[key := entry];
    }

    method RemoveFromBlacklist(token: Token)
      requires Valid()
      modifies this
      ensures Valid() && cache == old(cache) - {OfToken(token)} && registry == old(registry) - {OfToken(token)}
    {
      registry := registry - {OfToken(token)};
      cache := cache - {OfToken(token)};
    }

    method IsTokenBlacklisted(token: Token, now: int) returns (blocked: bool)
      ensures blocked == Blocked(cache, token, now)
    {
      if Alive(cache, OfToken(token), now) { return true; }
      if Alive(cache, OfFamily(token.familyId), now) { return true; }
      blocked := Alive(cache, UserKey(token), now);
    }

    method GetBlacklistMetadata(token: Token, now: int) returns (reason: Option<string>)
      ensures reason == ReasonOf(cache, token, now)
    {
      if Alive(cache, OfToken(token), now) { return Some(cache[OfToken(token)].reason); }
      if Alive(cache, OfFamily(token.familyId), now) { return Some(cache[OfFamily(token.familyId)].reason); }
      if Alive(cache, UserKey(token), now) { return Some(cache[UserKey(token)].reason); }
      return None;
    }

    method Drop(key: Key)
      modifies this
      ensures registry == old(registry) - {key} && cache == old(cache) - {key}
    {
      cache := cache - {key};
      registry := registry - {key};
    }

    method CleanupExpiredEntries(now: int) returns (deletedCount: nat, remainingCount: nat, cleaned: set<Key>)
      requires Valid()
      modifies this
      ensures Valid() && cleaned == Expired(old(registry), now)
      ensures registry == old(registry) - cleaned && cache == old(cache) - cleaned
      ensures deletedCount == |cleaned| && remainingCount == |registry|
    {
      deletedCount, cleaned := 0, {};
      var keys := registry.Keys;
      ghost var expired := Expired(registry, now);
      while keys != {}
        invariant keys <= old(registry).Keys
        invariant cleaned == expired - keys && deletedCount == |cleaned|
        invariant registry == old(registry) - cleaned
        invariant cache == old(cache) - cleaned
        decreases keys
      {
        var key :| key in keys;
        assert key in registry && (key in expired <==> registry[key].expiresAt <= now);
        if registry[key].expiresAt <= now {
          RemoveOneMore(old(registry), cleaned, key);
          RemoveOneMore(old(cache), cleaned, key);
          Drop(key);
          cleaned := cleaned + {key};
          deletedCount := deletedCount + 1;
        }
        keys := keys - {key};
      }
      remainingCount := |registry|;
      StillAlike(old(registry), old(cache), cleaned);
    }
  }

  lemma RemoveOneMore(b: Store, gone: set<Key>, key: Key)
    ensures b - gone - {key} == b - (gone + {key})
  {}

  /** A cleanup changes an answer in one case only: asked at the very instant an entry
      expires, the cache still reports an entry that the cleanup has dropped. */
  lemma CleanupChangesAnswerIff(b: Store, k: Key, now: int, later: int)
    requires now <= later
    ensures (Alive(b - Expired(b, now), k, later) <==> Alive(b, k, later)) <==>
              !(k in b && b[k].expiresAt == now == later)
  {}

  /** The whole point of the entry's lifetime: once it may have lapsed, every token issued
      before it was made has reached its own expiry, counted in whole seconds. */
  lemma EntriesOutliveTokens(issuedAt: int, blacklistedAt: int, now: int)
    requires issuedAt <= blacklistedAt && now >= blacklistedAt + TTL_MS
    ensures now / 1000 >= issuedAt / 1000 + REFRESH_TOKEN_TTL
  {
    assert (blacklistedAt + TTL_MS) / 1000 == blacklistedAt / 1000 + REFRESH_TOKEN_TTL;
  }
}
