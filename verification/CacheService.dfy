/** The cache's in-memory store: entries that expire and are dropped when read, tags that
    group keys for invalidation, and keys scoped to the tenant of the caller. */
module CacheService {
  import opened Wrappers

  // ---- Scoping --------------------------------------------------------------------------

  datatype Tenant = Tenant(slug: string, id: string)

  datatype Context = Context(tenant: Option<Tenant>, bypass: bool)

  predicate Scoped(ctx: Context) { !ctx.bypass && ctx.tenant.Some? }

  /** The slug, or the id where there is none. */
  function NameOf(t: Tenant): string { if t.slug != "" then t.slug else t.id }

  function ScopePrefix(name: string): string { "tenant:" + name + ":" }

  function ScopeCacheKey(ctx: Context, key: string): string {
    if Scoped(ctx) then ScopePrefix(NameOf(ctx.tenant.value)) + key else key
  }

  function ScopeCacheTag(ctx: Context, tag: string): string {
    if Scoped(ctx) then ScopePrefix(NameOf(ctx.tenant.value)) + "tag:" + tag else tag
  }

  predicate StartsWith(s: string, prefix: string) { prefix <= s }

  // ---- The store ------------------------------------------------------------------------

  /** A value of None is JavaScript's null, which a reader cannot tell from a miss. */
  datatype Entry = Entry(value: Option<string>, expiresAt: int)

  datatype Mem = Mem(store: map<string, Entry>, tags: map<string, set<string>>)

  datatype Op =
    | Get(ctx: Context, key: string, now: int)
    | Set(ctx: Context, key: string, value: Option<string>, ttlSeconds: int, now: int)
    | AddTags(ctx: Context, key: string, names: seq<string>)
    | Invalidate(ctx: Context, key: string)
    | InvalidatePrefix(ctx: Context, prefix: string)
    | FlushTenant(slug: string)
    | InvalidateTag(ctx: Context, tag: string)

  function Read(store: map<string, Entry>, key: string, now: int): Option<string> {
    if key in store && now <= store[key].expiresAt then store[key].value else None
  }

  function TagKeys(tags: map<string, set<string>>, tag: string): set<string> {
    if tag in tags then tags[tag] else {}
  }

  function ScopedTags(ctx: Context, names: seq<string>): set<string> {
    set i | 0 <= i < |names| :: ScopeCacheTag(ctx, names[i])
  }

  function WithPrefix(store: map<string, Entry>, prefix: string): set<string> {
    set k | k in store && StartsWith(k, prefix)
  }

  function Tagged(tags: map<string, set<string>>, names: set<string>, key: string): map<string, set<string>> {
    map tag | tag in tags.Keys + names :: TagKeys(tags, tag) + if tag in names then {key} else {}
  }

  function Step(s: Mem, op: Op): Mem {
    match op
    case Get(ctx, key, now) =>
      var k := ScopeCacheKey(ctx, key);
      if k in s.store && now > s.store[k].expiresAt then s.(store := s.store - {k}) else s
    case Set(ctx, key, value, ttlSeconds, now) =>
      s.(store := s.store[ScopeCacheKey(ctx, key) := Entry(value, now + ttlSeconds * 1000)])
    case AddTags(ctx, key, names) =>
      s.(tags := Tagged(s.tags, ScopedTags(ctx, names), ScopeCacheKey(ctx, key)))
    case Invalidate(ctx, key) => s.(store := s.store - {ScopeCacheKey(ctx, key)})
    case InvalidatePrefix(ctx, prefix) => s.(store := s.store - WithPrefix(s.store, ScopeCacheKey(ctx, prefix)))
    case FlushTenant(slug) => s.(store := s.store - WithPrefix(s.store, ScopePrefix(slug)))
    case InvalidateTag(ctx, tag) =>
      var t := ScopeCacheTag(ctx, tag);
      Mem(s.store - TagKeys(s.tags, t), s.tags - {t})
  }

  class Cache {
    var memStore: map<string, Entry>
    var memTags: map<string, set<string>>
    var hits: nat
    var misses: nat
    var sets: nat
    var invalidations: nat

    ghost function View(): Mem
      reads this
    {
      Mem(memStore, memTags)
    }

    constructor ()
      ensures View() == EMPTY && hits == misses == sets == invalidations == 0
    {
      memStore, memTags, hits, misses, sets, invalidations := map[], map[], 0, 0, 0, 0;
    }

    method CacheGet(ctx: Context, key: string, now: int) returns (r: Option<string>)
      modifies `memStore, `hits, `misses
      ensures View() == Step(old(View()), Get(ctx, key, now))
      ensures r == Read(old(memStore), ScopeCacheKey(ctx, key), now)
      ensures hits + misses == old(hits + misses) + 1 && hits == old(hits) + if r.Some? then 1 else 0
    {
      var scopedKey := ScopeCacheKey(ctx, key);
      r := None;
      if scopedKey in memStore {
        if now > memStore[scopedKey].expiresAt {
          memStore := memStore - {scopedKey};
        } else {
          r := memStore[scopedKey].value;
        }
      }
      if r.Some? { hits := hits + 1; } else { misses := misses + 1; }
    }

    method CacheSet(ctx: Context, key: string, value: Option<string>, ttlSeconds: int, now: int)
      modifies `memStore, `sets
      ensures View() == Step(old(View()), Set(ctx, key, value, ttlSeconds, now)) && sets == old(sets) + 1
    {
      sets := sets + 1;
      memStore := memStore[ScopeCacheKey(ctx, key) := Entry(value, now + ttlSeconds * 1000)];
    }

    method TagAdd(tag: string, key: string)
      modifies `memTags
      ensures memTags == old(memTags)[tag := TagKeys(old(memTags), tag) + {key}]
    {
      if tag !in memTags { memTags := memTags[tag := {}]; }
      memTags := memTags[tag := memTags[tag] + {key}];
    }

    /** The continuation of setWithTags once its value is stored. */
    method TagAll(ctx: Context, key: string, names: seq<string>)
      modifies `memTags
      ensures View() == Step(old(View()), AddTags(ctx, key, names))
    {
      var scopedKey := ScopeCacheKey(ctx, key);
      var i := 0;
      TaggedNothing(memTags, scopedKey);
      assert ScopedTags(ctx, names[..0]) == {};
      while i < |names|
        invariant i <= |names|
        invariant memTags == Tagged(old(memTags), ScopedTags(ctx, names[..i]), scopedKey)
      {
        var tag := ScopeCacheTag(ctx, names[i]);
        TagAdd(tag, scopedKey);
        assert names[..i + 1] == names[..i] + [names[i]];
        ScopedTagsAppend(ctx, names[..i], names[i]);
        TaggedOneMore(old(memTags), ScopedTags(ctx, names[..i]), tag, scopedKey);
        i := i + 1;
      }
      assert names[..|names|] == names;
    }

    method SetWithTags(ctx: Context, key: string, value: Option<string>, ttlSeconds: int, names: seq<string>, now: int)
      modifies `memStore, `memTags, `sets
      ensures View() == Step(Step(old(View()), Set(ctx, key, value, ttlSeconds, now)), AddTags(ctx, key, names))
    {
      CacheSet(ctx, key, value, ttlSeconds, now);
      TagAll(ctx, key, names);
    }

    method CacheInvalidate(ctx: Context, key: string)
      modifies `memStore, `invalidations
      ensures View() == Step(old(View()), Invalidate(ctx, key)) && invalidations == old(invalidations) + 1
    {
      invalidations := invalidations + 1;
      memStore := memStore - {ScopeCacheKey(ctx, key)};
    }

    method DeleteWithPrefix(prefix: string)
      modifies `memStore
      ensures memStore == old(memStore) - WithPrefix(old(memStore), prefix)
    {
      var keys := memStore.Keys;
      while keys != {}
        invariant keys <= old(memStore).Keys
        invariant memStore == old(memStore) - (WithPrefix(old(memStore), prefix) - keys)
        decreases keys
      {
        var key :| key in keys;
        if StartsWith(key, prefix) { memStore := memStore - {key}; }
        keys := keys - {key};
      }
      assert WithPrefix(old(memStore), prefix) - {} == WithPrefix(old(memStore), prefix);
    }

    method CacheInvalidatePrefix(ctx: Context, prefix: string)
      modifies `memStore, `invalidations
      ensures View() == Step(old(View()), InvalidatePrefix(ctx, prefix)) && invalidations == old(invalidations) + 1
    {
      invalidations := invalidations + 1;
      DeleteWithPrefix(ScopeCacheKey(ctx, prefix));
    }

    method CacheFlushTenant(slug: string)
      modifies `memStore
      ensures View() == Step(old(View()), FlushTenant(slug))
    {
      DeleteWithPrefix(ScopePrefix(slug));
    }

    method DeleteKeys(all: set<string>)
      modifies `memStore
      ensures memStore == old(memStore) - all
    {
      var keys := all;
      while keys != {}
        invariant keys <= all && memStore == old(memStore) - (all - keys)
        decreases keys
      {
        var key :| key in keys;
        memStore := memStore - {key};
        keys := keys - {key};
      }
      assert all - {} == all;
    }

    method CacheInvalidateTag(ctx: Context, tag: string)
      modifies `memStore, `memTags, `invalidations
      ensures View() == Step(old(View()), InvalidateTag(ctx, tag)) && invalidations == old(invalidations) + 1
    {
      invalidations := invalidations + 1;
      var scopedTag := ScopeCacheTag(ctx, tag);
      DeleteKeys(TagKeys(memTags, scopedTag));
      memTags := memTags - {scopedTag};
    }
  }

  lemma TaggedNothing(tags: map<string, set<string>>, key: string)
    ensures Tagged(tags, {}, key) == tags
  {
    assert forall tag :: tag in tags ==> Tagged(tags, {}, key)[tag] == tags[tag];
  }

  lemma TaggedOneMore(tags: map<string, set<string>>, names: set<string>, tag: string, key: string)
    ensures var t := Tagged(tags, names, key);
            Tagged(tags, names + {tag}, key) == t[tag := TagKeys(t, tag) + {key}]
  {
    var t, t' := Tagged(tags, names, key), Tagged(tags, names + {tag}, key);
    var u := t[tag := TagKeys(t, tag) + {key}];
    assert t'.Keys == u.Keys;
    forall other | other in u.Keys ensures t'[other] == u[other] {
      if other == tag {
        assert t'[tag] == TagKeys(tags, tag) + {key};
        if tag in t { assert t[tag] == TagKeys(tags, tag) + if tag in names then {key} else {}; }
      } else {
        assert other in t;
      }
    }
  }

  lemma ScopedTagsAppend(ctx: Context, names: seq<string>, name: string)
    ensures ScopedTags(ctx, names + [name]) == ScopedTags(ctx, names) + {ScopeCacheTag(ctx, name)}
  {
    var all := names + [name];
    forall t | t in ScopedTags(ctx, names) + {ScopeCacheTag(ctx, name)} ensures t in ScopedTags(ctx, all) {
      if t in ScopedTags(ctx, names) {
        var i :| 0 <= i < |names| && t == ScopeCacheTag(ctx, names[i]);
        assert all[i] == names[i];
      } else {
        assert all[|names|] == name;
      }
    }
  }

  // ---- Runs ------------------------------------------------------------------------------

  const EMPTY := Mem(map[], map[])

  function Final(run: seq<Op>): Mem {
    if run == [] then EMPTY else Step(Final(run[..|run| - 1]), run[|run| - 1])
  }

  // ---- A plain map -----------------------------------------------------------------------

  predicate Tags(op: Op, tag: string, key: string) {
    op.AddTags? && tag in ScopedTags(op.ctx, op.names) && key == ScopeCacheKey(op.ctx, op.key)
  }

  predicate Untags(op: Op, tag: string) {
    op.InvalidateTag? && tag == ScopeCacheTag(op.ctx, op.tag)
  }

  /** Was `key` tagged in a run after the last time `tag` was invalidated? */
  ghost predicate TaggedSince(run: seq<Op>, tag: string, key: string) {
    exists i :: 0 <= i < |run| && Tags(run[i], tag, key) && forall j :: i < j < |run| ==> !Untags(run[j], tag)
  }

  /** Does an operation after `run` remove `key` from a map that knows nothing of expiry? */
  ghost predicate Removes(run: seq<Op>, op: Op, key: string) {
    match op
    case Invalidate(ctx, k) => key == ScopeCacheKey(ctx, k)
    case InvalidatePrefix(ctx, prefix) => StartsWith(key, ScopeCacheKey(ctx, prefix))
    case FlushTenant(slug) => StartsWith(key, ScopePrefix(slug))
    case InvalidateTag(ctx, tag) => TaggedSince(run, ScopeCacheTag(ctx, tag), key)
    case _ => false
  }

  /** The plain map's entry for a key: what was last set and not removed since.  It drops
      nothing when read and keeps no tag sets. */
  ghost function Plain(run: seq<Op>, key: string): Option<Entry> {
    if run == [] then None
    else
      var before, op := run[..|run| - 1], run[|run| - 1];
      if op.Set? && key == ScopeCacheKey(op.ctx, op.key) then Some(Entry(op.value, op.now + op.ttlSeconds * 1000))
      else if Removes(before, op, key) then None
      else Plain(before, key)
  }

  function ReadPlain(e: Option<Entry>, now: int): Option<string> {
    if e.Some? && now <= e.value.expiresAt then e.value.value else None
  }

  predicate TimeBy(op: Op, now: int) {
    op.Get? || op.Set? ==> op.now <= now
  }

  ghost predicate Monotone(run: seq<Op>) {
    forall i, j :: 0 <= i < j < |run| && (run[j].Get? || run[j].Set?) ==> TimeBy(run[i], run[j].now)
  }

  lemma TaggedSinceAppend(run: seq<Op>, op: Op, tag: string, key: string)
    ensures TaggedSince(run + [op], tag, key) <==>
              Tags(op, tag, key) || (TaggedSince(run, tag, key) && !Untags(op, tag))
  {
    var all := run + [op];
    assert all[|run|] == op && forall i :: 0 <= i < |run| ==> all[i] == run[i];
    if Tags(op, tag, key) { assert Tags(all[|run|], tag, key); }
    if TaggedSince(run, tag, key) && !Untags(op, tag) {
      var i :| 0 <= i < |run| && Tags(run[i], tag, key) && forall j :: i < j < |run| ==> !Untags(run[j], tag);
      assert Tags(all[i], tag, key);
    }
    if TaggedSince(all, tag, key) && !Tags(op, tag, key) {
      var i :| 0 <= i < |all| && Tags(all[i], tag, key) && forall j :: i < j < |all| ==> !Untags(all[j], tag);
      assert Tags(run[i], tag, key) && !Untags(all[|run|], tag);
      forall j | i < j < |run| ensures !Untags(run[j], tag) { assert !Untags(all[j], tag); }
    }
  }

  /** A tag's set holds exactly the keys tagged since the tag was last invalidated, whatever
      happened to their entries. */
  lemma {:induction false} TagSetsAreExact(run: seq<Op>, tag: string, key: string)
    ensures key in TagKeys(Final(run).tags, tag) <==> TaggedSince(run, tag, key)
  {
    if run != [] {
      var before, op := run[..|run| - 1], run[|run| - 1];
      TagSetsAreExact(before, tag, key);
      TaggedSinceAppend(before, op, tag, key);
      assert before + [op] == run;
    }
  }

  /** Invalidating a tag removes every key tagged since its last invalidation and no other. */
  lemma InvalidateTagIsExact(run: seq<Op>, ctx: Context, tag: string, key: string)
    ensures var s, s' := Final(run), Final(run + [InvalidateTag(ctx, tag)]);
            && (key in s'.store <==> key in s.store && !TaggedSince(run, ScopeCacheTag(ctx, tag), key))
            && (key in s'.store ==> s'.store[key] == s.store[key])
  {
    assert (run + [InvalidateTag(ctx, tag)])[..|run|] == run;
    TagSetsAreExact(run, ScopeCacheTag(ctx, tag), key);
  }

  lemma MonotonePrefix(run: seq<Op>)
    requires Monotone(run) && run != []
    ensures Monotone(run[..|run| - 1])
    ensures var before, last := run[..|run| - 1], run[|run| - 1];
            last.Get? || last.Set? ==> forall op :: op in before ==> TimeBy(op, last.now)
  {
    var before := run[..|run| - 1];
    assert forall i :: 0 <= i < |before| ==> before[i] == run[i];
  }

  /** An entry that only lazy deletion removed has expired. */
  ghost predicate Agrees(s: Mem, run: seq<Op>, key: string, now: int) {
    if key in s.store then Plain(run, key) == Some(s.store[key])
    else Plain(run, key).Some? ==> Plain(run, key).value.expiresAt < now
  }

  /** The store refines the plain map: for every run with a monotone clock, every read gives
      what the plain map holds unexpired. */
  lemma {:induction false} RefinesPlain(run: seq<Op>, key: string, now: int)
    requires Monotone(run) && forall op :: op in run ==> TimeBy(op, now)
    ensures Agrees(Final(run), run, key, now)
    ensures Read(Final(run).store, key, now) == ReadPlain(Plain(run, key), now)
  {
    if run != [] {
      var before, op := run[..|run| - 1], run[|run| - 1];
      MonotonePrefix(run);
      assert op in run && forall o :: o in before ==> o in run;
      RefinesPlain(before, key, if op.Get? || op.Set? then op.now else now);
      if op.InvalidateTag? {
        TagSetsAreExact(before, ScopeCacheTag(op.ctx, op.tag), key);
      }
    }
  }

  // ---- Tenants -----------------------------------------------------------------------------

  predicate Extends(longer: string, name: string) {
    |name| < |longer| && longer[..|name|] == name && longer[|name|] == ':'
  }

  /** Could keys of the two tenants collide? */
  predicate Meet(a: string, b: string) { a == b || Extends(a, b) || Extends(b, a) }

  lemma PrefixesShareAKey(a: string, b: string, s: string)
    requires StartsWith(s, ScopePrefix(a)) && StartsWith(s, ScopePrefix(b)) && |a| <= |b|
    ensures a == b || Extends(b, a)
  {
    var p, q := ScopePrefix(a), ScopePrefix(b);
    assert forall i :: 0 <= i < |p| ==> p[i] == s[i];
    assert forall i :: 0 <= i < |q| ==> q[i] == s[i];
    assert forall i :: 0 <= i < |a| ==> a[i] == p[7 + i];
    assert forall i :: 0 <= i < |b| ==> b[i] == q[7 + i];
    assert b[..|a|] == a;
    if |a| < |b| {
      assert p[7 + |a|] == ':';
      assert b[|a|] == q[7 + |a|];
    }
  }

  /** Two names collide exactly when they are the same or one continues the other after a
      colon; so names without colons never do. */
  lemma KeysCollideIffNamesMeet(a: string, b: string)
    ensures (exists k, l :: ScopePrefix(a) + k == ScopePrefix(b) + l) <==> Meet(a, b)
    ensures ':' !in a && ':' !in b && a != b ==> !Meet(a, b)
  {
    if k, l :| ScopePrefix(a) + k == ScopePrefix(b) + l {
      if |a| <= |b| {
        PrefixesShareAKey(a, b, ScopePrefix(a) + k);
      } else {
        PrefixesShareAKey(b, a, ScopePrefix(a) + k);
      }
    }
    if Extends(b, a) {
      assert ScopePrefix(a) + (b[|a| + 1..] + ":") == ScopePrefix(b) + "";
      assert b[|a|] in b;
    }
    if Extends(a, b) {
      assert ScopePrefix(b) + (a[|b| + 1..] + ":") == ScopePrefix(a) + "";
      assert a[|b|] in a;
    }
    if a == b { assert ScopePrefix(a) + "" == ScopePrefix(b) + ""; }
  }

  predicate Owns(name: string, s: string) { StartsWith(s, ScopePrefix(name)) }

  /** Is the operation made in the context of a tenant of this name? */
  predicate By(op: Op, name: string) {
    if op.FlushTenant? then op.slug == name else Scoped(op.ctx) && NameOf(op.ctx.tenant.value) == name
  }

  /** Made for a tenant whose name does not meet this one. */
  predicate Foreign(op: Op, name: string) {
    if op.FlushTenant? then !Meet(op.slug, name) else Scoped(op.ctx) && !Meet(NameOf(op.ctx.tenant.value), name)
  }

  /** The operations made for one tenant. */
  function Only(run: seq<Op>, name: string): seq<Op> {
    if run == [] then []
    else Only(run[..|run| - 1], name) + if By(run[|run| - 1], name) then [run[|run| - 1]] else []
  }

  lemma NotBoth(a: string, b: string, s: string)
    requires !Meet(a, b) && Owns(a, s)
    ensures !Owns(b, s)
  {
    if Owns(b, s) {
      if |a| <= |b| { PrefixesShareAKey(a, b, s); } else { PrefixesShareAKey(b, a, s); }
      assert false;
    }
  }

  /** No tag mixes keys of `name` with others. */
  ghost predicate Unmixed(s: Mem, name: string) {
    forall tag, key :: tag in s.tags && key in s.tags[tag] ==> (Owns(name, tag) <==> Owns(name, key))
  }

  /** Two stores that look the same to `name`. */
  ghost predicate LookAlike(s: Mem, t: Mem, name: string) {
    && (forall k :: Owns(name, k) ==> (k in s.store <==> k in t.store) && (k in s.store ==> s.store[k] == t.store[k]))
    && (forall tag :: Owns(name, tag) ==> TagKeys(s.tags, tag) == TagKeys(t.tags, tag))
  }

  /** Scoped keys, tags and prefixes are their own tenant's. */
  lemma ScopedStaysHome(ctx: Context, text: string, name: string, k: string)
    requires Scoped(ctx) && (NameOf(ctx.tenant.value) == name || !Meet(NameOf(ctx.tenant.value), name))
    requires k == ScopeCacheTag(ctx, text) || StartsWith(k, ScopeCacheKey(ctx, text))
    ensures Owns(name, k) <==> NameOf(ctx.tenant.value) == name
  {
    var who := NameOf(ctx.tenant.value);
    var p := ScopePrefix(who);
    if k == ScopeCacheTag(ctx, text) {
      assert k == p + ("tag:" + text);
    } else {
      assert forall i :: 0 <= i < |p| ==> (p + text)[i] == p[i];
      assert p <= k;
    }
    if who != name { NotBoth(who, name, k); }
  }

  /** Keys and tags an operation touches are its own tenant's. */
  lemma OperationStaysHome(op: Op, name: string, who: string, k: string)
    requires !op.FlushTenant? && By(op, who) && (who == name || !Meet(who, name))
    ensures op.Get? || op.Set? || op.AddTags? || op.Invalidate? ==>
              (Owns(name, ScopeCacheKey(op.ctx, op.key)) <==> who == name)
    ensures op.InvalidatePrefix? && StartsWith(k, ScopeCacheKey(op.ctx, op.prefix)) ==> (Owns(name, k) <==> who == name)
    ensures op.AddTags? && k in ScopedTags(op.ctx, op.names) ==> (Owns(name, k) <==> who == name)
    ensures op.InvalidateTag? ==> (Owns(name, ScopeCacheTag(op.ctx, op.tag)) <==> who == name)
  {
    match op
    case Get(ctx, key, _) => ScopedStaysHome(ctx, key, name, ScopeCacheKey(ctx, key));
    case Set(ctx, key, _, _, _) => ScopedStaysHome(ctx, key, name, ScopeCacheKey(ctx, key));
    case Invalidate(ctx, key) => ScopedStaysHome(ctx, key, name, ScopeCacheKey(ctx, key));
    case InvalidatePrefix(ctx, prefix) =>
      if StartsWith(k, ScopeCacheKey(ctx, prefix)) { ScopedStaysHome(ctx, prefix, name, k); }
    case AddTags(ctx, key, names) =>
      ScopedStaysHome(ctx, key, name, ScopeCacheKey(ctx, key));
      if k in ScopedTags(ctx, names) {
        var i :| 0 <= i < |names| && k == ScopeCacheTag(ctx, names[i]);
        ScopedStaysHome(ctx, names[i], name, k);
      }
    case InvalidateTag(ctx, tag) => ScopedStaysHome(ctx, tag, name, ScopeCacheTag(ctx, tag));
    case FlushTenant(_) =>
  }

  lemma StepKeepsUnmixed(s: Mem, op: Op, name: string)
    requires Unmixed(s, name) && (By(op, name) || Foreign(op, name))
    ensures Unmixed(Step(s, op), name)
  {
    if op.AddTags? {
      var who := NameOf(op.ctx.tenant.value);
      var s' := Step(s, op);
      forall tag, key | tag in s'.tags && key in s'.tags[tag] ensures Owns(name, tag) <==> Owns(name, key) {
        OperationStaysHome(op, name, who, tag);
      }
    }
  }

  lemma ForeignStepIsInvisible(s: Mem, op: Op, name: string)
    requires Unmixed(s, name) && Foreign(op, name)
    ensures LookAlike(Step(s, op), s, name)
  {
    var s' := Step(s, op);
    forall k | Owns(name, k)
      ensures (k in s'.store <==> k in s.store) && (k in s.store ==> s'.store[k] == s.store[k])
      ensures TagKeys(s'.tags, k) == TagKeys(s.tags, k)
    {
      if op.FlushTenant? {
        if Owns(op.slug, k) { NotBoth(op.slug, name, k); assert false; }
      } else {
        OperationStaysHome(op, name, NameOf(op.ctx.tenant.value), k);
      }
    }
  }

  lemma OwnStepKeepsLookAlike(s: Mem, t: Mem, op: Op, name: string)
    requires Unmixed(s, name) && Unmixed(t, name) && LookAlike(s, t, name) && By(op, name)
    ensures LookAlike(Step(s, op), Step(t, op), name)
  {
    if !op.FlushTenant? { OperationStaysHome(op, name, name, ""); }
  }

  /** Non-interference: dropping every operation made for other tenants changes nothing a
      tenant can read, as long as no other tenant's name meets its own. */
  lemma {:induction false} OthersAreInvisible(run: seq<Op>, name: string)
    requires forall op :: op in run ==> By(op, name) || Foreign(op, name)
    ensures Unmixed(Final(run), name) && Unmixed(Final(Only(run, name)), name)
    ensures LookAlike(Final(run), Final(Only(run, name)), name)
    ensures forall key, now :: Owns(name, key) ==>
              Read(Final(run).store, key, now) == Read(Final(Only(run, name)).store, key, now)
  {
    if run != [] {
      var before, op := run[..|run| - 1], run[|run| - 1];
      assert op in run && forall o :: o in before ==> o in run;
      OthersAreInvisible(before, name);
      StepKeepsUnmixed(Final(before), op, name);
      if By(op, name) {
        assert (Only(before, name) + [op])[..|Only(before, name)|] == Only(before, name);
        StepKeepsUnmixed(Final(Only(before, name)), op, name);
        OwnStepKeepsLookAlike(Final(before), Final(Only(before, name)), op, name);
      } else {
        assert Only(run, name) == Only(before, name);
        ForeignStepIsInvisible(Final(before), op, name);
      }
    }
  }

  /** And where names do meet, one tenant can write what the other reads. */
  lemma MeetingNamesInterfere(a: Tenant, b: Tenant, value: string, now: int) returns (key: string, other: string)
    requires Meet(NameOf(a), NameOf(b))
    ensures var run := [Set(Context(Some(b), false), other, Some(value), 60, now)];
            Read(Final(run).store, ScopeCacheKey(Context(Some(a), false), key), now) == Some(value)
  {
    KeysCollideIffNamesMeet(NameOf(a), NameOf(b));
    key, other :| ScopePrefix(NameOf(a)) + key == ScopePrefix(NameOf(b)) + other;
    var op := Set(Context(Some(b), false), other, Some(value), 60, now);
    assert [op][..0] == [] && Final([]) == EMPTY;
    assert Final([op]) == Step(EMPTY, op);
  }

  /** Flushing a tenant by its slug leaves it nothing to read. */
  lemma FlushReachesTheTenant(run: seq<Op>, t: Tenant, key: string, now: int)
    requires t.slug != ""
    ensures Read(Final(run + [FlushTenant(t.slug)]).store, ScopeCacheKey(Context(Some(t), false), key), now) == None
  {
    assert (run + [FlushTenant(t.slug)])[..|run|] == run;
    var prefix, scoped := ScopePrefix(t.slug), ScopeCacheKey(Context(Some(t), false), key);
    assert scoped == prefix + key && prefix <= scoped;
  }

  /** Tenants told apart by their slugs, or for want of slugs by their ids, share no key. */
  lemma TenantsShareNoKey(a: Tenant, b: Tenant, key: string, other: string)
    requires ':' !in a.slug && ':' !in b.slug && ':' !in a.id && ':' !in b.id
    requires (a.slug != "" && b.slug != "" && a.slug != b.slug) || (a.slug == "" && b.slug == "" && a.id != b.id)
    ensures ScopeCacheKey(Context(Some(a), false), key) != ScopeCacheKey(Context(Some(b), false), other)
  {
    if ScopeCacheKey(Context(Some(a), false), key) == ScopeCacheKey(Context(Some(b), false), other) {
      assert ScopePrefix(NameOf(a)) + key == ScopePrefix(NameOf(b)) + other;
      KeysCollideIffNamesMeet(NameOf(a), NameOf(b));
    }
  }
}
