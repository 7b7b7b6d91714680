/** Rate limiting of public routes on the in-memory counters: a fixed window per key,
    opened by the first request that finds none. */
module PublicRateLimit {
  import opened Wrappers

  datatype Counter = Counter(count: nat, resetAt: int)

  type Store = map<string, Counter>

  /** One increment of a counter. */
  datatype Hit = Hit(key: string, at: int)

  function Incremented(window: int, store: Store, hit: Hit): Store {
    var entry := if hit.key !in store || hit.at >= store[hit.key].resetAt then Counter(0, hit.at + window)
                 else store[hit.key];
    store[hit.key := Counter(entry.count + 1, entry.resetAt)]
  }

  function After(window: int, hits: seq<Hit>): Store {
    if hits == [] then map[] else Incremented(window, After(window, hits[..|hits| - 1]), hits[|hits| - 1])
  }

  ghost predicate Monotone(hits: seq<Hit>) {
    forall i, j :: 0 <= i <= j < |hits| ==> hits[i].at <= hits[j].at
  }

  // ---- Counting admissions on one key ---------------------------------------------

  /** Was the last increment of the run on `key`, and within `max`? */
  predicate LastAdmitted(window: int, hits: seq<Hit>, key: string, max: int)
    requires hits != []
  {
    && hits[|hits| - 1].key == key
    && key in After(window, hits) && After(window, hits)[key].count <= max
  }

  /** The counters after a run, with the number of increments of one key, in the half-open
      interval from `from` to `to`, that stayed within `max`. */
  datatype Tally = Tally(store: Store, admitted: nat)

  function Tallied(window: int, t: Tally, hit: Hit, key: string, max: int, from: int, to: int): Tally {
    var s := Incremented(window, t.store, hit);
    Tally(s, t.admitted + if hit.key == key && s[key].count <= max && from <= hit.at < to then 1 else 0)
  }

  function Count(window: int, hits: seq<Hit>, key: string, max: int, from: int, to: int): Tally {
    if hits == [] then Tally(map[], 0)
    else Tallied(window, Count(window, hits[..|hits| - 1], key, max, from, to), hits[|hits| - 1], key, max, from, to)
  }

  function AdmittedIn(window: int, hits: seq<Hit>, key: string, max: int, from: int, to: int): nat {
    Count(window, hits, key, max, from, to).admitted
  }

  lemma {:induction false} TallyStore(window: int, hits: seq<Hit>, key: string, max: int, from: int, to: int)
    ensures Count(window, hits, key, max, from, to).store == After(window, hits)
  {
    if hits != [] { TallyStore(window, hits[..|hits| - 1], key, max, from, to); }
  }

  lemma TallyAppend(window: int, hits: seq<Hit>, hit: Hit, key: string, max: int, from: int, to: int)
    ensures Count(window, hits + [hit], key, max, from, to) ==
            Tallied(window, Count(window, hits, key, max, from, to), hit, key, max, from, to)
  {
    assert (hits + [hit])[..|hits + [hit]| - 1] == hits;
  }

  /** Increments of `key` within `max` counted in the window that ends at `resetAt`. */
  function AdmittedUntil(window: int, hits: seq<Hit>, key: string, max: int, resetAt: int): nat {
    if hits == [] then 0
    else
      AdmittedUntil(window, hits[..|hits| - 1], key, max, resetAt) +
      if LastAdmitted(window, hits, key, max) && After(window, hits)[key].resetAt == resetAt then 1 else 0
  }

  function Min(a: int, b: int): int { if a < b then a else b }

  lemma {:induction false} CounterInvariant(window: int, hits: seq<Hit>, key: string)
    requires Monotone(hits)
    ensures var s := After(window, hits);
            key in s ==> hits != [] && s[key].count >= 1 && s[key].resetAt <= hits[|hits| - 1].at + window
  {
    if hits != [] { CounterInvariant(window, hits[..|hits| - 1], key); }
  }

  /** The increments of a key from a time on. */
  function HitsFrom(hits: seq<Hit>, key: string, from: int): nat {
    if hits == [] then 0
    else
      var last := hits[|hits| - 1];
      HitsFrom(hits[..|hits| - 1], key, from) + if last.key == key && last.at >= from then 1 else 0
  }

  /** A counter counts exactly the increments of its key since its window opened, and all of
      them lie within it. */
  lemma {:induction false} CounterIsHitsInWindow(window: int, hits: seq<Hit>, key: string, from: int)
    requires Monotone(hits) && window > 0
    ensures var s := After(window, hits);
            && (key in s ==> s[key].count == HitsFrom(hits, key, s[key].resetAt - window))
            && (key !in s || from >= s[key].resetAt ==> HitsFrom(hits, key, from) == 0)
  {
    if hits != [] {
      var init, hit := hits[..|hits| - 1], hits[|hits| - 1];
      CounterIsHitsInWindow(window, init, key, from);
      CounterIsHitsInWindow(window, init, key, hit.at);
      CounterInvariant(window, init, key);
    }
  }

  /** An increment stays within `max` exactly when fewer than `max` others of its key came since
      the window opened, or when the window has ended or there was none. */
  lemma AdmittedIffBudgetLeft(window: int, hits: seq<Hit>, hit: Hit, max: nat)
    requires Monotone(hits + [hit]) && window > 0 && max >= 1
    ensures var s := After(window, hits);
            Incremented(window, s, hit)[hit.key].count <= max <==>
              hit.key !in s || hit.at >= s[hit.key].resetAt ||
              HitsFrom(hits, hit.key, s[hit.key].resetAt - window) < max
  {
    assert forall i :: 0 <= i < |hits| ==> (hits + [hit])[i] == hits[i];
    CounterIsHitsInWindow(window, hits, hit.key, hit.at);
  }

  /** Each counter window admits at most `max` increments. */
  lemma {:induction false} WindowAdmitsAtMostMax(window: int, hits: seq<Hit>, key: string, max: nat, resetAt: int)
    requires Monotone(hits) && window > 0
    ensures AdmittedUntil(window, hits, key, max, resetAt) <= max
    ensures var s := After(window, hits); var n := AdmittedUntil(window, hits, key, max, resetAt);
            && (key !in s || s[key].resetAt < resetAt ==> n == 0)
            && (key in s && s[key].resetAt == resetAt ==> n == Min(s[key].count, max))
  {
    if hits != [] {
      WindowAdmitsAtMostMax(window, hits[..|hits| - 1], key, max, resetAt);
    }
  }

  /** How many admissions in the interval the current counter allows for. */
  function Allowance(counter: Option<Counter>, window: int, max: nat, from: int): int {
    match counter
    case None => 0
    case Some(c) =>
      var begun := c.resetAt - window;
      if begun < from then Min(c.count, max) - 1
      else if begun < from + window then max - 1 + Min(c.count, max)
      else 2 * max - 1
  }

  function Lookup(store: Store, key: string): Option<Counter> {
    if key in store then Some(store[key]) else None
  }

  lemma {:induction false} IntervalAllowance(window: int, hits: seq<Hit>, key: string, max: nat, from: int)
    requires Monotone(hits) && window > 0 && max >= 1
    ensures AdmittedIn(window, hits, key, max, from, from + window) <=
            Allowance(Lookup(After(window, hits), key), window, max, from)
    ensures hits != [] && hits[|hits| - 1].at < from ==> AdmittedIn(window, hits, key, max, from, from + window) == 0
  {
    if hits != [] {
      var init := hits[..|hits| - 1];
      IntervalAllowance(window, init, key, max, from);
      CounterInvariant(window, init, key);
      TallyStore(window, init, key, max, from, from + window);
    }
  }

  /** No half-open interval of the length of a window admits `2 * max` increments of a key,
      though it may straddle two windows: the increment that opened the first of them
      lies before the interval. */
  lemma IntervalAdmitsLessThanTwiceMax(window: int, hits: seq<Hit>, key: string, max: nat, from: int)
    requires Monotone(hits)
    ensures AdmittedIn(window, hits, key, max, from, from + window) <= if max == 0 then 0 else 2 * max - 1
  {
    if max == 0 || window <= 0 {
      NoneAdmitted(window, hits, key, max, from);
    } else {
      IntervalAllowance(window, hits, key, max, from);
      CounterInvariant(window, hits, key);
    }
  }

  lemma {:induction false} NoneAdmitted(window: int, hits: seq<Hit>, key: string, max: nat, from: int)
    requires Monotone(hits) && (max == 0 || window <= 0)
    ensures AdmittedIn(window, hits, key, max, from, from + window) == 0
  {
    if hits != [] {
      var init := hits[..|hits| - 1];
      NoneAdmitted(window, init, key, max, from);
      CounterInvariant(window, init, key);
      TallyStore(window, init, key, max, from, from + window);
    }
  }

  /** `n` increments: one opens a window, the rest of its budget comes at its last instant,
      and a whole budget follows at the next. */
  function TightRun(window: int, key: string, max: nat, n: nat): seq<Hit> {
    if n == 0 then [] else TightRun(window, key, max, n - 1) + [TightHit(window, key, max, n - 1)]
  }

  function TightHit(window: int, key: string, max: nat, i: nat): Hit {
    Hit(key, if i == 0 then 0 else if i < max then window - 1 else window)
  }

  lemma {:induction false} TightRunIsMonotone(window: int, key: string, max: nat, n: nat)
    requires window >= 2
    ensures |TightRun(window, key, max, n)| == n
    ensures forall i :: 0 <= i < n ==> TightRun(window, key, max, n)[i] == TightHit(window, key, max, i)
  {
    if n > 0 { TightRunIsMonotone(window, key, max, n - 1); }
  }

  function TightTally(window: int, key: string, max: nat, n: nat): Tally {
    if n == 0 then Tally(map[], 0)
    else Tallied(window, TightTally(window, key, max, n - 1), TightHit(window, key, max, n - 1), key, max, window - 1,
        2 * window - 1)
  }

  lemma {:induction false} TightRunIsTallied(window: int, key: string, max: nat, n: nat)
    ensures Count(window, TightRun(window, key, max, n), key, max, window - 1, 2 * window - 1) ==
              TightTally(window, key, max, n)
  {
    if n > 0 {
      TightRunIsTallied(window, key, max, n - 1);
      TallyAppend(window, TightRun(window, key, max, n - 1), TightHit(window, key, max, n - 1), key, max, window - 1,
          2 * window - 1);
    }
  }

  lemma {:induction false} TightTallyIs(window: int, key: string, max: nat, n: nat)
    requires window >= 2 && max >= 1 && n <= 2 * max
    ensures var t := TightTally(window, key, max, n);
            && t.admitted == (if n == 0 then 0 else n - 1)
            && Lookup(t.store, key) ==
                 if n == 0 then None else Some(if n <= max then Counter(n, window) else Counter(n - max, 2 * window))
  {
    if n > 0 { TightTallyIs(window, key, max, n - 1); }
  }

  /** The bound of `IntervalAdmitsLessThanTwiceMax` is reached for every limit. */
  lemma BoundIsTight(window: int, key: string, max: nat)
    requires window >= 2 && max >= 1
    ensures Monotone(TightRun(window, key, max, 2 * max))
    ensures AdmittedIn(window, TightRun(window, key, max, 2 * max), key, max, window - 1, (window - 1) + window) ==
              2 * max - 1
  {
    TightRunIsMonotone(window, key, max, 2 * max);
    TightRunIsTallied(window, key, max, 2 * max);
    TightTallyIs(window, key, max, 2 * max);
  }

  // ---- The middleware ---------------------------------------------------------------

  /** A request past address extraction. */
  datatype Request = Request(ip: string, wallet: Option<string>, at: int)

  datatype Verdict = Bypassed | Passed | IpLimited(ipReset: int) | WalletLimited(walletReset: int)

  datatype Limits = Limits(window: int, ipMax: int, walletMax: int, whitelist: set<string>)

  function IpKey(ip: string): string { "rl:ip:" + ip }

  function WalletKey(wallet: string): string { "rl:wallet:" + wallet }

  /** The increments one request makes, and its verdict. */
  function Increments(l: Limits, store: Store, r: Request): seq<Hit> {
    if r.ip in l.whitelist then []
    else
      var ipHit := Hit(IpKey(r.ip), r.at);
      if Incremented(l.window, store, ipHit)[ipHit.key].count > l.ipMax || r.wallet.None? then [ipHit]
      else [ipHit, Hit(WalletKey(r.wallet.value), r.at)]
  }

  class RateLimiter {
    const limits: Limits
    var memStore: Store

    constructor (limits: Limits)
      ensures memStore == map[] && this.limits == limits
    {
      this.limits := limits;
      memStore := map[];
    }

    method MemIncr(key: string, now: int) returns (entry: Counter)
      modifies this
      ensures memStore == Incremented(limits.window, old(memStore), Hit(key, now))
      ensures entry == memStore[key]
    {
      entry := Counter(0, now + limits.window);
      if key in memStore && now < memStore[key].resetAt {
        entry := memStore[key];
      }
      entry := entry.(count := entry.count + 1);
      memStore := memStore[key := entry];
    }

    /** A request passes exactly when both counters it touches stay within their limits;
        a request refused by the first never touches the second. */
    method Handle(r: Request) returns (verdict: Verdict)
      modifies this
      ensures verdict == Bypassed <==> r.ip in limits.whitelist
      ensures r.ip in limits.whitelist ==> memStore == old(memStore)
      ensures r.ip !in limits.whitelist ==>
                var s1 := Incremented(limits.window, old(memStore), Hit(IpKey(r.ip), r.at));
                var ip := s1[IpKey(r.ip)];
                if ip.count > limits.ipMax then verdict == IpLimited(ip.resetAt) && memStore == s1
                else if r.wallet.None? then verdict == Passed && memStore == s1
                else
                  var s2 := Incremented(limits.window, s1, Hit(WalletKey(r.wallet.value), r.at));
                  var w := s2[WalletKey(r.wallet.value)];
                  memStore == s2 && verdict == if w.count > limits.walletMax then WalletLimited(w.resetAt) else Passed
    {
      if r.ip in limits.whitelist { return Bypassed; }
      var ipResult := MemIncr(IpKey(r.ip), r.at);
      if ipResult.count > limits.ipMax { return IpLimited(ipResult.resetAt); }
      if r.wallet.Some? {
        var walletResult := MemIncr(WalletKey(r.wallet.value), r.at);
        if walletResult.count > limits.walletMax { return WalletLimited(walletResult.resetAt); }
      }
      return Passed;
    }
  }

  /** All increments of a run of requests, in order. */
  function HitsOf(l: Limits, run: seq<Request>): seq<Hit> {
    if run == [] then []
    else
      var before := HitsOf(l, run[..|run| - 1]);
      before + Increments(l, After(l.window, before), run[|run| - 1])
  }

  /** Does the last request of the run get past the IP check? */
  predicate LastPassesIp(l: Limits, run: seq<Request>)
    requires run != []
  {
    var r := run[|run| - 1];
    var store := After(l.window, HitsOf(l, run[..|run| - 1]));
    Incremented(l.window, store, Hit(IpKey(r.ip), r.at))[IpKey(r.ip)].count <= l.ipMax
  }

  function PassedIpIn(l: Limits, run: seq<Request>, ip: string, from: int, to: int): nat {
    if run == [] then 0
    else
      var r := run[|run| - 1];
      PassedIpIn(l, run[..|run| - 1], ip, from, to) +
      if r.ip == ip && from <= r.at < to && LastPassesIp(l, run) then 1 else 0
  }

  ghost predicate RequestsMonotone(run: seq<Request>) {
    forall i, j :: 0 <= i <= j < |run| ==> run[i].at <= run[j].at
  }

  lemma KeysAreApart(ip: string, wallet: string)
    ensures IpKey(ip) != WalletKey(wallet)
  {
    assert IpKey(ip)[3] == 'i' && WalletKey(wallet)[3] == 'w';
  }

  lemma IpKeyIsInjective(a: string, b: string)
    requires IpKey(a) == IpKey(b)
    ensures a == b
  {
    assert IpKey(a)[6..] == a && IpKey(b)[6..] == b;
  }

  lemma IncrementsAreNow(l: Limits, store: Store, r: Request)
    ensures forall h | h in Increments(l, store, r) :: h.at == r.at
  {}

  lemma MonotoneAppend(hits: seq<Hit>, more: seq<Hit>, at: int)
    requires Monotone(hits) && (forall h | h in hits :: h.at <= at) && (forall h | h in more :: h.at == at)
    ensures Monotone(hits + more) && forall h | h in hits + more :: h.at <= at
  {
    forall i, j | 0 <= i <= j < |hits + more| ensures (hits + more)[i].at <= (hits + more)[j].at {
      assert (hits + more)[i] in hits || (hits + more)[i] in more;
      if j >= |hits| { assert (hits + more)[j] in more; }
    }
  }

  lemma {:induction false} HitsMonotone(l: Limits, run: seq<Request>)
    requires RequestsMonotone(run)
    ensures Monotone(HitsOf(l, run))
    ensures forall h | h in HitsOf(l, run) :: run != [] && h.at <= run[|run| - 1].at
  {
    if run != [] {
      var init, r := run[..|run| - 1], run[|run| - 1];
      HitsMonotone(l, init);
      var before := HitsOf(l, init);
      IncrementsAreNow(l, After(l.window, before), r);
      MonotoneAppend(before, Increments(l, After(l.window, before), r), r.at);
    }
  }

  /** The increments of one request, as the tally of an IP's key sees them. */
  lemma RequestTally(l: Limits, before: seq<Hit>, r: Request, ip: string, from: int, to: int)
    requires ip !in l.whitelist
    ensures var store := After(l.window, before);
            AdmittedIn(l.window, before + Increments(l, store, r), IpKey(ip), l.ipMax, from, to) ==
            AdmittedIn(l.window, before, IpKey(ip), l.ipMax, from, to) +
            if r.ip == ip && from <= r.at < to &&
               Incremented(l.window, store, Hit(IpKey(ip), r.at))[IpKey(ip)].count <= l.ipMax
            then 1 else 0
  {
    var store := After(l.window, before);
    TallyStore(l.window, before, IpKey(ip), l.ipMax, from, to);
    if r.ip in l.whitelist {
      assert before + Increments(l, store, r) == before;
    } else {
      var ipHit := Hit(IpKey(r.ip), r.at);
      TallyAppend(l.window, before, ipHit, IpKey(ip), l.ipMax, from, to);
      if r.ip != ip && IpKey(r.ip) == IpKey(ip) { IpKeyIsInjective(r.ip, ip); }
      if r.wallet.Some? {
        KeysAreApart(ip, r.wallet.value);
        var walletHit := Hit(WalletKey(r.wallet.value), r.at);
        TallyAppend(l.window, before + [ipHit], walletHit, IpKey(ip), l.ipMax, from, to);
        assert before + [ipHit] + [walletHit] == before + [ipHit, walletHit];
      }
    }
  }

  /** The requests of an IP that pass are the admitted increments of its own key, whatever
      other addresses and wallets do in between. */
  lemma {:induction false} PassesAreAdmissions(l: Limits, run: seq<Request>, ip: string, from: int, to: int)
    requires ip !in l.whitelist
    ensures PassedIpIn(l, run, ip, from, to) == AdmittedIn(l.window, HitsOf(l, run), IpKey(ip), l.ipMax, from, to)
  {
    if run != [] {
      var init := run[..|run| - 1];
      PassesAreAdmissions(l, init, ip, from, to);
      RequestTally(l, HitsOf(l, init), run[|run| - 1], ip, from, to);
    }
  }

  /** Over every run of requests with a monotone clock, no interval of the length of a
      window lets `2 * ipMax` requests of one IP past the IP check. */
  lemma RequestsPerInterval(l: Limits, run: seq<Request>, ip: string, from: int)
    requires RequestsMonotone(run) && ip !in l.whitelist && l.ipMax >= 0
    ensures PassedIpIn(l, run, ip, from, from + l.window) <= if l.ipMax == 0 then 0 else 2 * l.ipMax - 1
  {
    HitsMonotone(l, run);
    PassesAreAdmissions(l, run, ip, from, from + l.window);
    IntervalAdmitsLessThanTwiceMax(l.window, HitsOf(l, run), IpKey(ip), l.ipMax, from);
  }
}
