/** The audit log's hash chain: streaming it in batches, and comparing its root with
    the stored baseline.  SHA-256 is the digest of a scheme `h`. */
module AuditVerifier {
  import opened Wrappers

  /** The digest function and the text a chain starts from; the theorems hold for any text. */
  datatype Scheme = Scheme(digest: string -> string, genesis: string)

  /** The hashed columns of a log row; `createdAt` is its ISO text.  No other column, such as the
      metadata, has any part in the chain. */
  datatype Entry = Entry(id: int, tenantId: string, category: string, action: string, actor: string, createdAt: string)

  datatype Chain = Chain(rootHash: string, count: nat)

  function Digit(d: nat): char
    requires d < 10
  {
    "0123456789"[d]
  }

  /** Decimal text of an id. */
  function IdText(n: int): string
    decreases n < 0, if n < 0 then -n else n
  {
    if n < 0 then "-" + IdText(-n)
    else if n < 10 then [Digit(n)]
    else IdText(n / 10) + [Digit(n % 10)]
  }

  /** What one row adds to the hash input. */
  function Encode(e: Entry): string {
    IdText(e.id) + e.tenantId + e.category + e.action + e.actor + e.createdAt
  }

  function EntryHash(h: Scheme, prevHash: string, e: Entry): string {
    h.digest(prevHash + Encode(e))
  }

  // ---- The log table ---------------------------------------------------------

  /** A table is listed in the order of its primary key. */
  ghost predicate IsTable(table: seq<Entry>) {
    forall i, j :: 0 <= i < j < |table| ==> table[i].id < table[j].id
  }

  /** Rows of one tenant with an id above `after`, in id order. */
  function RowsAfter(table: seq<Entry>, tenantId: string, after: int): seq<Entry> {
    if table == [] then []
    else
      var e := table[0];
      (if e.tenantId == tenantId && e.id > after then [e] else []) + RowsAfter(table[1..], tenantId, after)
  }

  function Min(a: nat, b: nat): nat { if a < b then a else b }

  /** `findMany({ where: { tenantId, id: { gt } }, orderBy: { id: 'asc' }, take })`. */
  function FindMany(table: seq<Entry>, tenantId: string, after: int, take: nat): seq<Entry> {
    var rows := RowsAfter(table, tenantId, after);
    rows[..Min(take, |rows|)]
  }

  lemma RowsAfterSelects(table: seq<Entry>, tenantId: string, after: int)
    ensures forall e :: e in RowsAfter(table, tenantId, after) <==> e in table && e.tenantId == tenantId && e.id > after
  {}

  lemma {:induction false} RowsKeepOrder(table: seq<Entry>, tenantId: string, after: int)
    requires IsTable(table)
    ensures IsTable(RowsAfter(table, tenantId, after))
  {
    if table != [] {
      assert IsTable(table[1..]);
      RowsKeepOrder(table[1..], tenantId, after);
      RowsAfterSelects(table[1..], tenantId, after);
      forall e | e in RowsAfter(table[1..], tenantId, after) ensures table[0].id < e.id {
        var i :| 0 <= i < |table[1..]| && table[1..][i] == e;
        assert table[i + 1] == e;
      }
    }
  }

  /** Moving the cursor to the id of row `n - 1` drops exactly the first `n` rows. */
  lemma {:induction false} CursorSkips(table: seq<Entry>, tenantId: string, after: int, n: nat)
    requires IsTable(table) && 0 < n <= |RowsAfter(table, tenantId, after)|
    ensures var rows := RowsAfter(table, tenantId, after);
            RowsAfter(table, tenantId, rows[n - 1].id) == rows[n..]
  {
    var rows := RowsAfter(table, tenantId, after);
    RowsKeepOrder(table, tenantId, after);
    RowsAfterSelects(table, tenantId, after);
    var cut := rows[n - 1].id;
    assert rows[n - 1] in rows;
    RowsAfterTwice(table, tenantId, after, cut);
    SuffixAbove(rows, tenantId, n);
  }

  lemma RowsAfterTwice(table: seq<Entry>, tenantId: string, after: int, later: int)
    requires after <= later
    ensures RowsAfter(RowsAfter(table, tenantId, after), tenantId, later) == RowsAfter(table, tenantId, later)
  {
    if table != [] {
      var e, tail := table[0], RowsAfter(table[1..], tenantId, after);
      RowsAfterTwice(table[1..], tenantId, after, later);
      var kept := if e.tenantId == tenantId && e.id > after then [e] else [];
      assert RowsAfter(table, tenantId, after) == kept + tail;
      if kept == [] {
        assert kept + tail == tail;
      } else {
        assert (kept + tail)[0] == e && (kept + tail)[1..] == tail;
      }
    }
  }

  lemma {:induction false} SuffixAbove(rows: seq<Entry>, tenantId: string, n: nat)
    requires IsTable(rows) && 0 < n <= |rows| && forall e | e in rows :: e.tenantId == tenantId
    ensures RowsAfter(rows, tenantId, rows[n - 1].id) == rows[n..]
  {
    if n == 1 {
      AllAbove(rows[1..], tenantId, rows[0].id);
    } else {
      SuffixAbove(rows[1..], tenantId, n - 1);
      assert rows[1..][n - 2] == rows[n - 1] && rows[1..][n - 1..] == rows[n..];
    }
  }

  lemma AllAbove(rows: seq<Entry>, tenantId: string, after: int)
    requires forall e | e in rows :: e.tenantId == tenantId && e.id > after
    ensures RowsAfter(rows, tenantId, after) == rows
  {}

  // ---- The chain --------------------------------------------------------------

  /** The hash chain over encoded rows, each hashed with the digest before it. */
  function ChainHash(h: Scheme, texts: seq<string>): string
    decreases |texts|, 0
  {
    if texts == [] then h.genesis else h.digest(Input(h, texts, |texts| - 1))
  }

  /** The string hashed for row `n`. */
  function Input(h: Scheme, texts: seq<string>, n: nat): string
    requires n < |texts|
    decreases n, 1
  {
    ChainHash(h, texts[..n]) + texts[n]
  }

  function Encodings(rows: seq<Entry>): (texts: seq<string>)
    ensures |texts| == |rows|
  {
    seq(|rows|, i requires 0 <= i < |rows| => Encode(rows[i]))
  }

  function ChainOf(h: Scheme, rows: seq<Entry>): Chain {
    Chain(ChainHash(h, Encodings(rows)), |rows|)
  }

  lemma ChainExtends(h: Scheme, texts: seq<string>, n: nat)
    requires n < |texts|
    ensures ChainHash(h, texts[..n + 1]) == h.digest(Input(h, texts, n))
  {
    assert texts[..n + 1][..n] == texts[..n];
  }

  /** The whole log of a tenant: every row with a positive id. */
  function Log(table: seq<Entry>, tenantId: string): seq<Entry> {
    RowsAfter(table, tenantId, 0)
  }

  /** The chain after the first `n` rows. */
  ghost predicate ChainUpTo(h: Scheme, log: seq<Entry>, n: nat, hash: string) {
    n <= |log| && hash == ChainHash(h, Encodings(log)[..n])
  }

  /** The loop over one batch, hashing its rows onto the chain so far. */
  method HashBatch(h: Scheme, ghost log: seq<Entry>, ghost start: nat, before: string, batch: seq<Entry>)
    returns (prevHash: string)
    requires start + |batch| <= |log| && forall i :: 0 <= i < |batch| ==> batch[i] == log[start + i]
    requires ChainUpTo(h, log, start, before)
    ensures ChainUpTo(h, log, start + |batch|, prevHash)
  {
    prevHash := before;
    for i := 0 to |batch|
      invariant ChainUpTo(h, log, start + i, prevHash)
    {
      ChainExtends(h, Encodings(log), start + i);
      prevHash := EntryHash(h, prevHash, batch[i]);
    }
  }

  lemma ChainComplete(h: Scheme, log: seq<Entry>, hash: string)
    requires ChainUpTo(h, log, |log|, hash)
    ensures Chain(hash, |log|) == ChainOf(h, log)
  {
    assert Encodings(log)[..|log|] == Encodings(log);
  }

  /** The cursor after the first `count` rows of a log. */
  function CursorAt(log: seq<Entry>, count: nat): int
    requires count <= |log|
  {
    if count == 0 then 0 else log[count - 1].id
  }

  /** The database call of the loop: from the cursor after `count` rows of the log it
      returns the next `take` of them, or all that are left. */
  method Fetch(table: seq<Entry>, tenantId: string, cursor: int, take: nat, ghost log: seq<Entry>, ghost count: nat)
    returns (batch: seq<Entry>)
    requires IsTable(table) && log == Log(table, tenantId)
    requires count <= |log| && cursor == CursorAt(log, count)
    ensures |batch| == Min(take, |log| - count)
    ensures forall i :: 0 <= i < |batch| ==> batch[i] == log[count + i]
  {
    batch := FindMany(table, tenantId, cursor, take);
    if count > 0 {
      CursorSkips(table, tenantId, 0, count);
    }
  }

  /** Streaming in batches.  Any positive batch size gives the chain of the whole log;
      a batch size of 0 reads nothing. */
  method ComputeChainRoot(h: Scheme, table: seq<Entry>, tenantId: string, batchSize: nat) returns (chain: Chain)
    requires IsTable(table)
    ensures batchSize >= 1 ==> chain == ChainOf(h, Log(table, tenantId))
    ensures batchSize == 0 ==> chain == Chain(h.genesis, 0)
  {
    ghost var log := Log(table, tenantId);
    var cursor, prevHash, count := 0, h.genesis, 0;
    while true
      invariant ChainUpTo(h, log, count, prevHash) && cursor == CursorAt(log, count)
      invariant batchSize == 0 ==> count == 0
      decreases |log| - count
    {
      var batch := Fetch(table, tenantId, cursor, batchSize, log, count);
      if |batch| == 0 { break; }

      prevHash := HashBatch(h, log, count, prevHash, batch);
      count := count + |batch|;
      cursor := batch[|batch| - 1].id;
      if |batch| < batchSize { break; }
    }
    if batchSize >= 1 { ChainComplete(h, log, prevHash); }
    chain := Chain(prevHash, count);
  }

  // ---- What equal chains say --------------------------------------------------

  ghost predicate FixedWidth(h: Scheme, w: nat) {
    forall x :: |h.digest(x)| == w
  }

  ghost predicate CollisionFree(h: Scheme, inputs: set<string>) {
    forall x, y :: x in inputs && y in inputs && h.digest(x) == h.digest(y) ==> x == y
  }

  /** Every string hashed along a chain. */
  ghost function Hashed(h: Scheme, rows: seq<Entry>): set<string> {
    set n | 0 <= n < |rows| :: Input(h, Encodings(rows), n)
  }

  ghost predicate SameEncodings(a: seq<Entry>, b: seq<Entry>) {
    Encodings(a) == Encodings(b)
  }

  lemma SplitAt(p: string, x: string, q: string, y: string)
    requires |p| == |q| && p + x == q + y
    ensures p == q && x == y
  {
    assert p == (p + x)[..|p|] && q == (q + y)[..|q|];
    assert x == (p + x)[|p|..] && y == (q + y)[|q|..];
  }

  lemma {:induction false} ChainPrefix(h: Scheme, w: nat, a: seq<string>, b: seq<string>, n: nat)
    requires |a| == |b| && n <= |a| && FixedWidth(h, w)
    requires forall i, j :: 0 <= i < |a| && 0 <= j < |b| && h.digest(Input(h, a, i)) == h.digest(Input(h, b, j)) ==>
                              Input(h, a, i) == Input(h, b, j)
    requires ChainHash(h, a[..n]) == ChainHash(h, b[..n])
    ensures a[..n] == b[..n]
  {
    if n > 0 {
      var m := n - 1;
      ChainExtends(h, a, m);
      ChainExtends(h, b, m);
      assert Input(h, a, m) == Input(h, b, m);
      assert |ChainHash(h, a[..m])| == |ChainHash(h, b[..m])|;
      SplitAt(ChainHash(h, a[..m]), a[m], ChainHash(h, b[..m]), b[m]);
      ChainPrefix(h, w, a, b, m);
      assert a[..n] == a[..m] + [a[m]] && b[..n] == b[..m] + [b[m]];
    }
  }

  /** Two chains agree in root and count exactly when the logs have the same encodings,
      entry by entry. */
  lemma ChainBinds(h: Scheme, w: nat, a: seq<Entry>, b: seq<Entry>)
    requires FixedWidth(h, w) && CollisionFree(h, Hashed(h, a) + Hashed(h, b))
    ensures ChainOf(h, a) == ChainOf(h, b) <==> SameEncodings(a, b)
  {
    var ta, tb := Encodings(a), Encodings(b);
    if ChainOf(h, a) == ChainOf(h, b) {
      forall i, j | 0 <= i < |ta| && 0 <= j < |tb| && h.digest(Input(h, ta, i)) == h.digest(Input(h, tb, j))
        ensures Input(h, ta, i) == Input(h, tb, j)
      {
        assert Input(h, ta, i) in Hashed(h, a) && Input(h, tb, j) in Hashed(h, b);
      }
      assert ta[..|a|] == ta && tb[..|a|] == tb;
      ChainPrefix(h, w, ta, tb, |a|);
    }
  }

  /** An encoding does not mark where one column ends and the next begins, so moving a
      character from `category` to `action` is an alteration the chain cannot see. */
  lemma MovedColumnBoundaryIsInvisible(h: Scheme)
    ensures var a := Entry(1, "t", "AUTHL", "OGIN", "x", "2024");
            var b := Entry(1, "t", "AUTH", "LOGIN", "x", "2024");
            a != b && ChainOf(h, [a]) == ChainOf(h, [b])
  {
    var a := Entry(1, "t", "AUTHL", "OGIN", "x", "2024");
    var b := Entry(1, "t", "AUTH", "LOGIN", "x", "2024");
    assert "AUTHL" + "OGIN" == "AUTH" + "LOGIN" == "AUTHLOGIN";
    var pre, post := IdText(1) + "t", "x" + "2024";
    assert Encode(a) == pre + ("AUTHL" + "OGIN") + post;
    assert Encode(b) == pre + ("AUTH" + "LOGIN") + post;
    assert Encodings([a]) == Encodings([b]);
  }

  // ---- Every hashed column shows -----------------------------------------------

  /** Two entries that agree in all hashed columns but one. */
  predicate DifferInOne(a: Entry, b: Entry) {
    && a != b
    && (a == b.(id := a.id) || a == b.(tenantId := a.tenantId) || a == b.(category := a.category) ||
        a == b.(action := a.action) || a == b.(actor := a.actor) || a == b.(createdAt := a.createdAt))
  }

  lemma Cancels(pre: string, x: string, y: string, post: string)
    requires pre + x + post == pre + y + post
    ensures x == y
  {
    assert |x| == |y|;
    assert x == (pre + x + post)[|pre|..|pre| + |x|] == (pre + y + post)[|pre|..|pre| + |y|] == y;
  }

  lemma {:induction false} DigitsAreDigits(n: nat)
    ensures IdText(n) != "" && '0' <= IdText(n)[0] <= '9'
  {
    if n >= 10 { DigitsAreDigits(n / 10); }
  }

  lemma LastDigit(n: nat, t: string)
    requires n >= 10 && t == IdText(n)
    ensures |t| > 1 && t[..|t| - 1] == IdText(n / 10) && t[|t| - 1] == Digit(n % 10)
  {
    DigitsAreDigits(n / 10);
  }

  lemma {:induction false} NatTextIsInjective(n: nat, m: nat, t: string)
    requires IdText(n) == t == IdText(m)
    ensures n == m
  {
    if n >= 10 { LastDigit(n, t); }
    if m >= 10 { LastDigit(m, t); }
    if n >= 10 && m >= 10 { NatTextIsInjective(n / 10, m / 10, t[..|t| - 1]); }
  }

  lemma NegativeText(n: int)
    requires n < 0
    ensures IdText(n)[0] == '-' && IdText(n)[1..] == IdText(-n)
  {}

  lemma IdTextIsInjective(n: int, m: int)
    requires IdText(n) == IdText(m)
    ensures n == m
  {
    if n >= 0 { DigitsAreDigits(n); } else { NegativeText(n); }
    if m >= 0 { DigitsAreDigits(m); } else { NegativeText(m); }
    if n < 0 && m < 0 {
      NatTextIsInjective(-n, -m, IdText(-n));
    } else if n >= 0 && m >= 0 {
      NatTextIsInjective(n, m, IdText(n));
    }
  }

  /** What comes before and after each column in the text that is hashed. */
  lemma ColumnsInText(e: Entry)
    ensures var i, t, c, n, r, d := IdText(e.id), e.tenantId, e.category, e.action, e.actor, e.createdAt;
            && Encode(e) == "" + i + (t + c + n + r + d) == i + t + (c + n + r + d)
            && Encode(e) == (i + t) + c + (n + r + d) == (i + t + c) + n + (r + d)
            && Encode(e) == (i + t + c + n) + r + d == (i + t + c + n + r) + d + ""
  {}

  /** No hashed column can be changed on its own without changing what is hashed. */
  lemma OneColumnShows(a: Entry, b: Entry)
    requires DifferInOne(a, b)
    ensures Encode(a) != Encode(b)
  {
    var i, t, c, n, r, d := IdText(a.id), a.tenantId, a.category, a.action, a.actor, a.createdAt;
    ColumnsInText(a);
    ColumnsInText(b);
    if Encode(a) == Encode(b) {
      if a.id != b.id {
        Cancels("", i, IdText(b.id), t + c + n + r + d);
        IdTextIsInjective(a.id, b.id);
      } else if t != b.tenantId {
        Cancels(i, t, b.tenantId, c + n + r + d);
      } else if c != b.category {
        Cancels(i + t, c, b.category, n + r + d);
      } else if n != b.action {
        Cancels(i + t + c, n, b.action, r + d);
      } else if r != b.actor {
        Cancels(i + t + c + n, r, b.actor, d);
      } else {
        Cancels(i + t + c + n + r, d, b.createdAt, "");
      }
      assert false;
    }
  }

  // ---- Verification passes ----------------------------------------------------

  /** Stored roots, violations reported, and the tenants whose admin features are locked. */
  datatype Audit = Audit(stored: map<string, Chain>, violations: seq<string>, locked: set<string>)

  function Verify(s: Audit, tenantId: string, chain: Chain, redisUp: bool): Audit {
    if tenantId !in s.stored then s.(stored := s.stored[tenantId := chain])
    else if s.stored[tenantId] != chain then
      s.(violations := s.violations + [tenantId], locked := if redisUp then s.locked + {tenantId} else s.locked)
    else s
  }

  class Verifier {
    var storedRoots: map<string, Chain>
    var violations: seq<string>
    var locked: set<string>

    ghost function View(): Audit
      reads this
    {
      Audit(storedRoots, violations, locked)
    }

    /** One tenant's pass over the current table. */
    method VerifyTenant(h: Scheme, table: seq<Entry>, tenantId: string, batchSize: nat, redisUp: bool)
      requires IsTable(table) && batchSize >= 1
      modifies this
      ensures View() == Verify(old(View()), tenantId, ChainOf(h, Log(table, tenantId)), redisUp)
    {
      var chain := ComputeChainRoot(h, table, tenantId, batchSize);
      if tenantId !in storedRoots {
        storedRoots := storedRoots[tenantId := chain];
        return;
      }
      if storedRoots[tenantId].rootHash != chain.rootHash || storedRoots[tenantId].count != chain.count {
        violations := violations + [tenantId];
        if redisUp { locked := locked + {tenantId}; }
      } else {
        storedRoots := storedRoots[tenantId := chain];
      }
    }
  }

  /** One pass of a run: a tenant's rows at that moment. */
  datatype Pass = Pass(tenantId: string, rows: seq<Entry>, redisUp: bool)

  ghost function After(h: Scheme, s: Audit, run: seq<Pass>): Audit {
    if run == [] then s
    else
      var p := run[|run| - 1];
      Verify(After(h, s, run[..|run| - 1]), p.tenantId, ChainOf(h, p.rows), p.redisUp)
  }

  const FRESH := Audit(map[], [], {})

  /** The position of a tenant's first pass, whose chain becomes its baseline. */
  ghost function First(run: seq<Pass>, tenantId: string): Option<nat> {
    if run == [] then None
    else
      var before := First(run[..|run| - 1], tenantId);
      if before.None? && run[|run| - 1].tenantId == tenantId then Some(|run| - 1) else before
  }

  /** A baseline is set by the first pass and never moves. */
  lemma {:induction false} BaselineIsFixed(h: Scheme, run: seq<Pass>, tenantId: string)
    ensures var first := First(run, tenantId); var stored := After(h, FRESH, run).stored;
            match first
            case None => tenantId !in stored && forall p | p in run :: p.tenantId != tenantId
            case Some(i) => i < |run| && run[i].tenantId == tenantId &&
                            tenantId in stored && stored[tenantId] == ChainOf(h, run[i].rows)
  {
    if run != [] {
      BaselineIsFixed(h, run[..|run| - 1], tenantId);
      assert run == run[..|run| - 1] + [run[|run| - 1]];
    }
  }

  /** After any run, a further pass over a tenant with a baseline reports nothing, and
      locks nothing, exactly when its log has the encodings the first pass saw. */
  lemma PassIsSilentIffUnaltered(h: Scheme, w: nat, run: seq<Pass>, next: Pass)
    requires FixedWidth(h, w)
    requires exists p :: p in run && p.tenantId == next.tenantId
    requires var first := First(run, next.tenantId);
             first.Some? && first.value < |run| &&
             CollisionFree(h, Hashed(h, run[first.value].rows) + Hashed(h, next.rows))
    ensures var s := After(h, FRESH, run); var s' := After(h, FRESH, run + [next]);
            var baseline := run[First(run, next.tenantId).value].rows;
            && (s' == s <==> SameEncodings(baseline, next.rows))
            && (s'.violations == s.violations + [next.tenantId] <==> !SameEncodings(baseline, next.rows))
  {
    BaselineIsFixed(h, run, next.tenantId);
    assert (run + [next])[..|run|] == run;
    ChainBinds(h, w, run[First(run, next.tenantId).value].rows, next.rows);
  }

  /** Rows were added or taken away, or some row has another id, tenant, category, action, actor
      or time than it had, the rest of its hashed columns being as they were. */
  ghost predicate Altered(before: seq<Entry>, after: seq<Entry>) {
    |before| != |after| || exists i :: 0 <= i < |before| && DifferInOne(before[i], after[i])
  }

  /** After any run, a further pass over a log altered since the tenant's first pass reports the
      tenant, and locks its admin features if Redis is up. */
  lemma AlterationIsReported(h: Scheme, w: nat, run: seq<Pass>, next: Pass)
    requires FixedWidth(h, w)
    requires exists p :: p in run && p.tenantId == next.tenantId
    requires var first := First(run, next.tenantId);
             first.Some? && first.value < |run| && Altered(run[first.value].rows, next.rows) &&
             CollisionFree(h, Hashed(h, run[first.value].rows) + Hashed(h, next.rows))
    ensures var s := After(h, FRESH, run); var s' := After(h, FRESH, run + [next]);
            && s'.violations == s.violations + [next.tenantId]
            && s'.locked == s.locked + (if next.redisUp then {next.tenantId} else {})
            && s'.stored == s.stored
  {
    var baseline := run[First(run, next.tenantId).value].rows;
    if |baseline| == |next.rows| {
      var i :| 0 <= i < |baseline| && DifferInOne(baseline[i], next.rows[i]);
      OneColumnShows(baseline[i], next.rows[i]);
      assert Encodings(baseline)[i] != Encodings(next.rows)[i];
    }
    BaselineIsFixed(h, run, next.tenantId);
    ChainBinds(h, w, baseline, next.rows);
    NextPass(h, run, next);
    DifferingChainIsReported(After(h, FRESH, run), next.tenantId, ChainOf(h, next.rows), next.redisUp);
  }

  lemma DifferingChainIsReported(s: Audit, tenantId: string, chain: Chain, redisUp: bool)
    requires tenantId in s.stored && s.stored[tenantId] != chain
    ensures var s' := Verify(s, tenantId, chain, redisUp);
            && s'.violations == s.violations + [tenantId] && s'.stored == s.stored
            && s'.locked == s.locked + (if redisUp then {tenantId} else {})
  {}

  lemma NextPass(h: Scheme, run: seq<Pass>, next: Pass)
    ensures After(h, FRESH, run + [next]) ==
              Verify(After(h, FRESH, run), next.tenantId, ChainOf(h, next.rows), next.redisUp)
  {
    assert (run + [next])[..|run|] == run;
  }
}
