/** The ledger worker's batches: how they tile the ledgers, the lock that each takes on its
    range, what it has dispatched when it ends, and one tick that catches up batch by batch. */
module LedgerBatch {
  import opened Wrappers
  import L = LockManager

  /** The ledgers from `from` to `to`, both included. */
  datatype Batch = Batch(from: int, to: int)

  function Size(b: Batch): int { b.to - b.from + 1 }

  function Min(a: int, b: int): int { if a < b then a else b }

  // ---- Tiles ----------------------------------------------------------------------------

  /** The batches cover the ledgers after `start` up to `cursor` in order, with no gap and no
      overlap, each at most `size` wide. */
  ghost predicate Tiles(batches: seq<Batch>, start: int, cursor: int, size: int) {
    if batches == [] then cursor == start
    else
      var last := batches[|batches| - 1];
      && last.to == cursor && last.from <= last.to < last.from + size
      && Tiles(batches[..|batches| - 1], start, last.from - 1, size)
  }

  ghost predicate Covered(batches: seq<Batch>, ledger: int) {
    exists b :: b in batches && b.from <= ledger <= b.to
  }

  /** Tiling means what it says: every ledger is in a batch, and no two batches share one. */
  lemma {:induction false} TilesCover(batches: seq<Batch>, start: int, cursor: int, size: int)
    requires Tiles(batches, start, cursor, size)
    ensures start <= cursor
    ensures forall l :: start < l <= cursor ==> Covered(batches, l)
    ensures forall b :: b in batches ==> start < b.from <= b.to <= cursor
    ensures forall i, j :: 0 <= i < j < |batches| ==> batches[i].to < batches[j].from
  {
    if batches != [] {
      var init, last := batches[..|batches| - 1], batches[|batches| - 1];
      TilesCover(init, start, last.from - 1, size);
      forall l | start < l <= cursor ensures Covered(batches, l) {
        if l >= last.from {
          assert last in batches;
        } else {
          assert Covered(init, l);
          var b :| b in init && b.from <= l <= b.to;
          assert b in batches;
        }
      }
      forall i | 0 <= i < |init| ensures batches[i].to < last.from {
        assert init[i] in init;
      }
    }
  }

  lemma OneMoreTile(batches: seq<Batch>, start: int, cursor: int, size: int, next: Batch)
    requires Tiles(batches, start, cursor, size) && next.from == cursor + 1 && next.from <= next.to < next.from + size
    ensures Tiles(batches + [next], start, next.to, size)
  {
    assert (batches + [next])[..|batches|] == batches;
  }

  // ---- The lock on a range -----------------------------------------------------------------

  const LOCK_TTL_MS := 30_000
  const LOCK_RETRY_COUNT := 3
  const LOCK_RETRY_DELAY_MS := 200

  /** A range's key in Redis; tokens are numbered. */
  datatype Held = Held(token: nat, expiresAt: int)

  type Ranges = map<Batch, Held>

  function Holder(r: Ranges, b: Batch, now: int): Option<nat> {
    if b in r && now < r[b].expiresAt then Some(r[b].token) else None
  }

  /** `SET key token NX PX ttl`. */
  function SetIfFree(r: Ranges, b: Batch, token: nat, now: int): Ranges {
    if Holder(r, b, now).None? then r[b := Held(token, now + LOCK_TTL_MS)] else r
  }

  function DeleteIfOwn(r: Ranges, b: Batch, token: nat, now: int): Ranges {
    if Holder(r, b, now) == Some(token) then r - {b} else r
  }

  /** One try: the keys after it, and whether the caller learns that it has the lock.  A lost
      reply reads as a refusal, and the key stays set. */
  function Try(r: Ranges, b: Batch, token: nat, link: L.Link, now: int): (Ranges, bool) {
    (if link == L.RequestLost then r else SetIfFree(r, b, token, now), link == L.Delivered && Holder(r, b, now).None?)
  }

  function Unlocked(r: Ranges, b: Batch, token: nat, link: L.Link, now: int): Ranges {
    if link == L.RequestLost then r else DeleteIfOwn(r, b, token, now)
  }

  predicate HeldBy(r: Ranges, b: Batch, token: nat, now: int) {
    b in r && r[b].token == token && now < r[b].expiresAt
  }

  /** A try that reaches Redis takes a range that no one holds, for thirty seconds, and leaves a
      held one alone; and a release that reaches it frees the caller's own range and no other. */
  lemma RangeLockWorks(r: Ranges, b: Batch, token: nat, link: L.Link, now: int)
    requires link != L.RequestLost
    ensures var held := b in r && now < r[b].expiresAt;
            && (held ==> Try(r, b, token, link, now) == (r, false))
            && (!held ==> Try(r, b, token, link, now) == (r[b := Held(token, now + 30_000)], link == L.Delivered))
    ensures Unlocked(r, b, token, link, now) == if HeldBy(r, b, token, now) then r - {b} else r
  {}

  // ---- What a batch has done ---------------------------------------------------------------

  /** A call of processBatch: has it its range's lock, up to which ledger has it dispatched all
      events, and has it returned normally, as it also does without the lock? */
  datatype Attempt = Attempt(batch: Batch, locked: bool, reached: int, returned: bool)

  predicate Sane(a: Attempt) {
    && a.batch.from - 1 <= a.reached <= a.batch.to
    && (!a.locked ==> a.reached < a.batch.from)
    && (a.returned && a.locked ==> a.reached == a.batch.to)
  }

  /** It dispatched the ledger's events. */
  predicate Reaches(a: Attempt, ledger: int) { a.batch.from <= ledger <= a.reached }

  /** It moved the cursor past the ledger. */
  predicate Passes(a: Attempt, ledger: int) { a.returned && a.batch.from <= ledger <= a.batch.to }

  ghost predicate Passed(attempts: seq<Attempt>, ledger: int) {
    exists n :: 0 <= n < |attempts| && Passes(attempts[n], ledger)
  }

  ghost predicate PassedTo(attempts: seq<Attempt>, origin: int, cursor: int) {
    forall l :: origin < l <= cursor ==> Passed(attempts, l)
  }

  ghost predicate Reached(attempts: seq<Attempt>, ledger: int) {
    exists n :: 0 <= n < |attempts| && Reaches(attempts[n], ledger)
  }

  /** The ledgers whose events were dispatched are those that some attempt reached. */
  ghost predicate Accounts(attempts: seq<Attempt>, dispatched: set<int>) {
    && (forall n :: 0 <= n < |attempts| ==> Sane(attempts[n]))
    && (forall l :: l in dispatched <==> Reached(attempts, l))
  }

  lemma StartAttempt(attempts: seq<Attempt>, dispatched: set<int>, b: Batch, origin: int, cursor: int)
    requires Accounts(attempts, dispatched) && b.from <= b.to && PassedTo(attempts, origin, cursor)
    ensures var all := attempts + [Attempt(b, false, b.from - 1, false)];
            Accounts(all, dispatched) && PassedTo(all, origin, cursor)
  {
    var all := attempts + [Attempt(b, false, b.from - 1, false)];
    assert forall n :: 0 <= n < |attempts| ==> all[n] == attempts[n];
    forall l ensures Reached(all, l) <==> Reached(attempts, l) {
      if Reached(attempts, l) {
        var n :| 0 <= n < |attempts| && Reaches(attempts[n], l);
        assert Reaches(all[n], l);
      }
    }
    forall l | origin < l <= cursor ensures Passed(all, l) {
      assert Passed(attempts, l);
      var n :| 0 <= n < |attempts| && Passes(attempts[n], l);
      assert Passes(all[n], l);
    }
  }

  /** An attempt gets further, and may return and move the cursor. */
  lemma ChangeAttempt(attempts: seq<Attempt>, dispatched: set<int>, n: nat, a: Attempt, more: set<int>,
                      origin: int, cursor: int, next: int)
    requires Accounts(attempts, dispatched) && n < |attempts| && Sane(a) && PassedTo(attempts, origin, cursor)
    requires a.batch == attempts[n].batch && a.reached >= attempts[n].reached && (attempts[n].returned ==> a.returned)
    requires forall l :: l in more <==> l in dispatched || Reaches(a, l)
    requires next == cursor || (a.returned && a.batch.from == cursor + 1 && a.batch.to == next)
    ensures Accounts(attempts[n := a], more) && PassedTo(attempts[n := a], origin, next)
  {
    var all := attempts[n := a];
    forall l ensures l in more <==> Reached(all, l) {
      if Reaches(a, l) { assert Reaches(all[n], l); }
      if Reached(attempts, l) {
        var m :| 0 <= m < |attempts| && Reaches(attempts[m], l);
        assert Reaches(all[m], l);
      }
    }
    forall l | origin < l <= next ensures Passed(all, l) {
      if l > cursor {
        assert Passes(all[n], l);
      } else {
        assert Passed(attempts, l);
        var m :| 0 <= m < |attempts| && Passes(attempts[m], l);
        assert Passes(all[m], l);
      }
    }
  }

  /** Some attempt that had its range's lock got as far as the ledger. */
  ghost predicate LockedAndReached(attempts: seq<Attempt>, ledger: int) {
    exists n :: 0 <= n < |attempts| && attempts[n].locked && Reaches(attempts[n], ledger)
  }

  /** Some attempt had its range's lock and moved the cursor past the ledger, or came as far as
      the ledger before it failed. */
  ghost predicate LockedPassOrReach(attempts: seq<Attempt>, ledger: int) {
    exists n :: 0 <= n < |attempts| && attempts[n].locked &&
                (Passes(attempts[n], ledger) || Reaches(attempts[n], ledger))
  }

  /** A ledger's events were dispatched exactly when some attempt with its range's lock moved the
      cursor past it or got that far; so of a ledger behind the cursor, unless each attempt
      that passed it did so without the lock. */
  lemma DispatchedIff(attempts: seq<Attempt>, dispatched: set<int>, ledger: int)
    requires Accounts(attempts, dispatched)
    ensures ledger in dispatched <==> LockedAndReached(attempts, ledger)
    ensures ledger in dispatched <==> LockedPassOrReach(attempts, ledger)
    ensures ledger !in dispatched ==>
              forall n :: 0 <= n < |attempts| && Passes(attempts[n], ledger) ==> !attempts[n].locked
  {
    if ledger in dispatched {
      var n :| 0 <= n < |attempts| && Reaches(attempts[n], ledger);
      assert Sane(attempts[n]) && attempts[n].locked;
    }
    if ledger !in dispatched {
      forall n | 0 <= n < |attempts| && Passes(attempts[n], ledger) ensures !attempts[n].locked {
        assert Sane(attempts[n]) && !Reaches(attempts[n], ledger);
      }
    }
  }

  // ---- One tick -------------------------------------------------------------------------

  /** How the world treats one batch: the links and times of its tries, whether the fetch of
      its events fails, after how many ledgers dispatching fails, the release, and the save. */
  datatype World = World(
    links: nat -> L.Link, at: nat -> int, fetchFails: bool, dispatchable: nat,
    releaseLink: L.Link, releaseAt: int, saveFails: bool, saveWritten: bool)

  /** The tries from the `n`-th on. */
  function Tries(r: Ranges, b: Batch, token: nat, w: World, n: nat): (Ranges, bool)
    decreases LOCK_RETRY_COUNT - n
  {
    if n >= LOCK_RETRY_COUNT then (r, false)
    else
      var tried := Try(r, b, token, w.links(n), w.at(n));
      if tried.1 then tried else Tries(tried.0, b, token, w, n + 1)
  }

  /** One batch: the range keys it leaves, and whether it threw.  Without its lock it does not. */
  function Course(r: Ranges, b: Batch, token: nat, w: World): (Ranges, bool) {
    var got := Tries(r, b, token, w, 0);
    if got.1 then (Unlocked(got.0, b, token, w.releaseLink, w.releaseAt), w.fetchFails || w.dispatchable < Size(b))
    else (got.0, false)
  }

  datatype Progress = Progress(cursor: int, saved: int, ranges: Ranges, failed: bool)

  /** One round of the catch-up loop: the batch behind the cursor, and the save. */
  function Round(size: int, latest: int, w: World, token: nat, p: Progress): (q: Progress)
    requires size >= 1 && p.cursor < latest
    ensures p.cursor <= q.cursor <= latest && (!q.failed ==> p.cursor < q.cursor == q.saved)
  {
    var b := Batch(p.cursor + 1, Min(p.cursor + size, latest));
    var (ranges, threw) := Course(p.ranges, b, token, w);
    if threw then p.(ranges := ranges, failed := true)
    else Progress(b.to, if w.saveFails && !w.saveWritten then p.saved else b.to, ranges, w.saveFails)
  }

  lemma RoundIs(size: int, latest: int, w: World, token: nat, p: Progress, b: Batch, ranges: Ranges, threw: bool)
    requires size >= 1 && p.cursor < latest && b == Batch(p.cursor + 1, Min(p.cursor + size, latest))
    requires ranges == Course(p.ranges, b, token, w).0 && threw == Course(p.ranges, b, token, w).1
    ensures Round(size, latest, w, token, p) ==
              if threw then p.(ranges := ranges, failed := true)
              else Progress(b.to, if w.saveFails && !w.saveWritten then p.saved else b.to, ranges, w.saveFails)
  {}

  /** The catch-up loop from its `n`-th round on. */
  function CatchUp(size: int, latest: int, worlds: nat -> World, n: nat, token: nat, p: Progress): (q: Progress)
    requires size >= 1
    ensures p.cursor <= latest ==> p.cursor <= q.cursor <= latest
    ensures !q.failed && p.cursor < latest ==> q.cursor == q.saved == latest
    decreases latest - p.cursor, if p.failed then 0 else 1
  {
    if p.failed || p.cursor >= latest then p
    else CatchUp(size, latest, worlds, n + 1, token + 1, Round(size, latest, worlds(n), token, p))
  }

  /** It fails only if some batch throws or is not saved. */
  lemma {:induction false} HarmlessCatchesUp(size: int, latest: int, worlds: nat -> World, n: nat, token: nat,
                                             p: Progress)
    requires size >= 1 && !p.failed && forall k: nat :: Harmless(worlds(k), size)
    ensures !CatchUp(size, latest, worlds, n, token, p).failed
    decreases latest - p.cursor
  {
    if p.cursor < latest {
      assert Harmless(worlds(n), size);
      HarmlessCatchesUp(size, latest, worlds, n + 1, token + 1, Round(size, latest, worlds(n), token, p));
    }
  }

  function Ledgers(first: int, last: int): (s: set<int>)
    ensures (forall l :: l in s <==> first <= l <= last)
    decreases last - first
  {
    if first > last then {} else Ledgers(first, last - 1) + {last}
  }

  class Worker {
    const batchSize: int
    const baseBackoff: int
    const maxBackoff: int
    var cursor: int
    var saved: int
    var backoff: int
    var ranges: Ranges
    var nextToken: nat
    /** Where this life of the process started, and since then: the batches that moved the
        cursor, all attempts, and the ledgers whose events were dispatched. */
    ghost var start: int
    ghost var batches: seq<Batch>
    ghost var attempts: seq<Attempt>
    ghost var dispatched: set<int>

    ghost predicate Valid()
      reads this
    {
      && batchSize >= 1 && Tiles(batches, start, cursor, batchSize) && saved <= cursor
      && Accounts(attempts, dispatched)
      && PassedTo(attempts, start, cursor)
    }

    /** `startIndexer`: the cursor is the one last saved. */
    constructor (saved: int, ranges: Ranges, batchSize: int, baseBackoff: int, maxBackoff: int)
      requires batchSize >= 1
      ensures Valid() && start == cursor == this.saved == saved && batches == [] && backoff == baseBackoff
      ensures this.batchSize == batchSize && this.baseBackoff == baseBackoff && this.maxBackoff == maxBackoff
      ensures attempts == [] && dispatched == {} && this.ranges == ranges
    {
      this.batchSize, this.baseBackoff, this.maxBackoff := batchSize, baseBackoff, maxBackoff;
      cursor, this.saved, backoff := saved, saved, baseBackoff;
      this.ranges, nextToken := ranges, 0;
      start, batches, attempts, dispatched := saved, [], [], {};
    }

    /** The loop of up to three tries. */
    method AcquireLock(b: Batch, token: nat, w: World) returns (got: bool)
      modifies `ranges
      ensures (ranges, got) == Tries(old(ranges), b, token, w, 0)
    {
      var attempt := 0;
      while attempt < LOCK_RETRY_COUNT
        invariant attempt <= LOCK_RETRY_COUNT
        invariant Tries(ranges, b, token, w, attempt) == Tries(old(ranges), b, token, w, 0)
      {
        var ok := w.links(attempt) == L.Delivered && Holder(ranges, b, w.at(attempt)).None?;
        if w.links(attempt) != L.RequestLost {
          ranges := SetIfFree(ranges, b, token, w.at(attempt));
        }
        if ok { return true; }
        attempt := attempt + 1;
      }
      got := false;
    }

    /** Without its lock the batch returns at once, as if it were done.  With it, it returns
        normally exactly when it dispatched everything. */
    method ProcessBatch(b: Batch, w: World) returns (threw: bool)
      requires Accounts(attempts, dispatched) && b.from <= b.to && b.from == cursor + 1 &&
                PassedTo(attempts, start, cursor)
      modifies `ranges, `nextToken, `attempts, `dispatched
      ensures Accounts(attempts, dispatched)
      ensures var got := Tries(old(ranges), b, old(nextToken), w, 0);
              && |attempts| == |old(attempts)| + 1
              && attempts[..|old(attempts)|] == old(attempts)
              && attempts[|old(attempts)|] ==
                   Attempt(b, got.1, b.from - 1 + if got.1 && !w.fetchFails then Min(w.dispatchable, Size(b)) else 0,
                           !threw)
      ensures ranges == Course(old(ranges), b, old(nextToken), w).0
      ensures threw == Course(old(ranges), b, old(nextToken), w).1
      ensures nextToken == old(nextToken) + 1
      ensures dispatched == old(dispatched) + Ledgers(b.from, attempts[|old(attempts)|].reached)
      ensures PassedTo(attempts, start, if threw then cursor else b.to)
    {
      var token := nextToken;
      nextToken := nextToken + 1;
      StartAttempt(attempts, dispatched, b, start, cursor);
      ghost var n := |attempts|;
      attempts := attempts + [Attempt(b, false, b.from - 1, false)];
      var got := AcquireLock(b, token, w);
      if !got {
        assert Ledgers(b.from, b.from - 1) == {};
        ChangeAttempt(attempts, dispatched, n, Attempt(b, false, b.from - 1, true), dispatched, start, cursor, b.to);
        attempts := attempts[n := Attempt(b, false, b.from - 1, true)];
        return false;
      }
      var ledger := b.from - 1;
      ghost var done := dispatched;
      while !w.fetchFails && ledger < b.to && ledger - (b.from - 1) < w.dispatchable
        invariant b.from - 1 <= ledger <= b.to && ledger - (b.from - 1) <= w.dispatchable
        invariant w.fetchFails ==> ledger == b.from - 1
        invariant done == dispatched + Ledgers(b.from, ledger)
        decreases b.to - ledger
      {
        ledger := ledger + 1;
        done := done + {ledger};
        assert Ledgers(b.from, ledger) == Ledgers(b.from, ledger - 1) + {ledger};
      }
      threw := w.fetchFails || ledger < b.to;
      if w.releaseLink != L.RequestLost {
        ranges := DeleteIfOwn(ranges, b, token, w.releaseAt);
      }
      ghost var ended := Attempt(b, true, ledger, !threw);
      ChangeAttempt(attempts, dispatched, n, ended, done, start, cursor, if threw then cursor else b.to);
      attempts, dispatched := attempts[n := ended], done;
    }

    /** The body of the catch-up loop, up to the save. */
    method NextBatch(latest: int, w: World) returns (failed: bool)
      requires Valid() && cursor < latest
      modifies `cursor, `saved, `ranges, `nextToken, `batches, `attempts, `dispatched
      ensures Valid() && old(batches) <= batches
      ensures Progress(cursor, saved, ranges, failed) ==
                Round(batchSize, latest, w, old(nextToken), old(Progress(cursor, saved, ranges, false)))
      ensures nextToken == old(nextToken) + 1
    {
      var b := Batch(cursor + 1, Min(cursor + batchSize, latest));
      ghost var p, token := Progress(cursor, saved, ranges, false), nextToken;
      failed := ProcessBatch(b, w);
      RoundIs(batchSize, latest, w, token, p, b, ranges, failed);
      if failed { return; }
      OneMoreTile(batches, start, cursor, batchSize, b);
      batches := batches + [b];
      cursor := b.to;
      if !w.saveFails || w.saveWritten { saved := cursor; }
      failed := w.saveFails;
    }

    /** A tick that holds the lease throughout.  `latest` is missing when the fetch of the
        latest ledger fails; `worlds` says how the n-th batch and save of the tick fare.  A
        failure, and nothing else, doubles the backoff and stops the tick with every finished
        batch kept; without one it catches up. */
    method Tick(acquired: bool, latest: Option<int>, worlds: nat -> World)
      requires Valid()
      modifies this
      ensures Valid() && start == old(start) && old(batches) <= batches && old(cursor) <= cursor
      ensures !acquired || (latest.Some? && old(cursor) >= latest.value) ==>
                batches == old(batches) && cursor == old(cursor) && saved == old(saved) && backoff == old(backoff) &&
                ranges == old(ranges) && dispatched == old(dispatched)
      ensures acquired && latest.None? ==>
                batches == old(batches) && cursor == old(cursor) && saved == old(saved) &&
                backoff == Min(2 * old(backoff), maxBackoff) &&
                ranges == old(ranges) && dispatched == old(dispatched)
      ensures acquired && latest.Some? && old(cursor) < latest.value ==>
                var p := CatchUp(batchSize, latest.value, worlds, 0, old(nextToken),
                                 old(Progress(cursor, saved, ranges, false)));
                && cursor == p.cursor <= latest.value && saved == p.saved && ranges == p.ranges
                && backoff == (if p.failed then Min(2 * old(backoff), maxBackoff) else baseBackoff)
                && (!p.failed ==> cursor == saved == latest.value)
                && ((forall n :: Harmless(worlds(n), batchSize)) ==>
                      cursor == saved == latest.value && backoff == baseBackoff)
    {
      if !acquired { return; }
      if latest.None? {
        backoff := Min(backoff * 2, maxBackoff);
        return;
      }
      if cursor >= latest.value { return; }
      var n := 0;
      ghost var all := CatchUp(batchSize, latest.value, worlds, n, nextToken, Progress(cursor, saved, ranges, false));
      if forall k: nat :: Harmless(worlds(k), batchSize) {
        HarmlessCatchesUp(batchSize, latest.value, worlds, n, nextToken, Progress(cursor, saved, ranges, false));
      }
      while cursor < latest.value
        invariant Valid() && start == old(start) && old(batches) <= batches && old(cursor) <= cursor <= latest.value
        invariant backoff == old(backoff)
        invariant cursor == old(cursor) || saved == cursor
        invariant CatchUp(batchSize, latest.value, worlds, n, nextToken, Progress(cursor, saved, ranges, false)) == all
        decreases latest.value - cursor
      {
        var failed := NextBatch(latest.value, worlds(n));
        if failed {
          backoff := Min(backoff * 2, maxBackoff);
          return;
        }
        n := n + 1;
      }
      backoff := baseBackoff;
    }
  }

  predicate Harmless(w: World, size: int) { !w.fetchFails && w.dispatchable >= size && !w.saveFails }
}
