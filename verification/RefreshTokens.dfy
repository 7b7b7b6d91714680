/** Refresh tokens that rotate: each use of a token retires it and mints the next of its
    family, a retired token presented again revokes the family, and a user holds at most five
    active tokens.  Calls run one at a time, but any write of a call may be the last that
    goes through. */
module RefreshTokens {
  import opened Wrappers
  import opened TokenBlacklist

  datatype Rec = Rec(
    userId: int, tenantId: string, familyId: string, isActive: bool, expiresAt: int, lastUsedAt: Option<int>)

  type Records = map<Token, Rec>

  datatype State = State(records: Records, black: Store)

  const MAX_ACTIVE_TOKENS_PER_USER := 5

  const REUSE := "refresh_token_reuse_detected"

  /** What a call meets: the time, the random id it draws, which of a user's tokens the
      database ranks oldest, whether the cleanup (whose failure is ignored) works, and how
      many of its other writes go through. */
  datatype Fate = Fate(now: int, newId: string, oldest: set<Token> -> set<Token>, cleans: bool, reached: nat)

  datatype Op =
    | Login(userId: int, tenantId: string, familyId: string, fate: Fate)
    | Rotate(token: Token, signed: bool, fate: Fate)
    | RevokeFamily(familyId: string, user: Option<int>, tenant: Option<string>, reason: string, fate: Fate)
    | RevokeToken(token: Token, reason: string, fate: Fate)
    | RevokeAll(userId: int, tenantId: string, reason: string, fate: Fate)
    | CleanRecords(userId: int, tenantId: string, fate: Fate)
    | CleanBlacklist(keys: set<Key>, fate: Fate)
    | Unblacklist(token: Token, fate: Fate)

  // ---- Records ----------------------------------------------------------------------------

  predicate OfOwner(r: Rec, userId: int, tenantId: string) { r.userId == userId && r.tenantId == tenantId }

  /** The user's active, unexpired tokens. */
  function ActiveOf(records: Records, userId: int, tenantId: string, now: int): set<Token> {
    set t | t in records && OfOwner(records[t], userId, tenantId) && records[t].isActive && records[t].expiresAt > now
  }

  function Deactivated(records: Records, which: set<Token>): Records {
    map t | t in records :: if t in which then records[t].(isActive := false) else records[t]
  }

  function CleanExpired(records: Records, userId: int, tenantId: string, now: int): Records {
    map t | t in records && !(OfOwner(records[t], userId, tenantId) && records[t].expiresAt < now) :: records[t]
  }

  /** Makes room for one more token. */
  function Capped(records: Records, userId: int, tenantId: string, fate: Fate): Records {
    var active := ActiveOf(records, userId, tenantId, fate.now);
    if |active| >= MAX_ACTIVE_TOKENS_PER_USER then Deactivated(records, fate.oldest(active)) else records
  }

  function Minted(userId: int, tenantId: string, familyId: string, fate: Fate): Token {
    Token(userId, tenantId, fate.newId, familyId, fate.now)
  }

  function NewRec(t: Token): Rec { Rec(t.userId, t.tenantId, t.familyId, true, t.issuedAt + TTL_MS, None) }

  function Created(records: Records, userId: int, tenantId: string, familyId: string, fate: Fate,
      reached: nat): Records {
    var cleaned := if fate.cleans then CleanExpired(records, userId, tenantId, fate.now) else records;
    var capped := if reached >= 1 then Capped(cleaned, userId, tenantId, fate) else cleaned;
    var t := Minted(userId, tenantId, familyId, fate);
    if reached >= 2 then capped[t := NewRec(t)] else capped
  }

  function Siblings(records: Records, familyId: string, user: Option<int>, tenant: Option<string>): set<Token> {
    set t | t in records && user.Some? && records[t].userId == user.value && records[t].isActive &&
      (tenant.Some? ==> records[t].tenantId == tenant.value) && records[t].familyId == familyId
  }

  // ---- Calls --------------------------------------------------------------------------------

  predicate Inactive(s: State, t: Token) { t in s.records && !s.records[t].isActive }

  /** A token that was rotated or revoked, presented again. */
  predicate IsReuse(s: State, t: Token, now: int) {
    Inactive(s, t) || ReasonOf(s.black, t, now) == Some("rotation") || ReasonOf(s.black, t, now) == Some("compromised")
  }

  /** Expiry is counted in whole seconds from issue (section 4.1.4 of RFC 7519). */
  predicate Verifies(t: Token, signed: bool, now: int) {
    signed && now / 1000 < t.issuedAt / 1000 + REFRESH_TOKEN_TTL
  }

  /** Will a rotation of the token go ahead? */
  predicate Accepts(s: State, t: Token, signed: bool, now: int) {
    !Blocked(s.black, t, now) && Verifies(t, signed, now) && t in s.records && s.records[t].isActive
  }

  function FamilyRevoked(s: State, familyId: string, user: Option<int>, tenant: Option<string>, reason: string,
                         now: int, reached: nat): State {
    State(if reached >= 2 then Deactivated(s.records, Siblings(s.records, familyId, user, tenant)) else s.records,
          if reached >= 1 then Put(s.black, OfFamily(familyId), reason, now) else s.black)
  }

  function Used(records: Records, t: Token, now: int): Records
    requires t in records
  {
    records[t := records[t].(isActive := false, lastUsedAt := Some(now))]
  }

  /** The writes of a rotation that was accepted. */
  function Rotation(s: State, t: Token, fate: Fate): State
    requires t in s.records
  {
    var n := fate.reached;
    State(if n <= 1 then s.records
          else if n == 2 then Deactivated(s.records, {t})
          else Created(Used(s.records, t, fate.now), s.records[t].userId, s.records[t].tenantId, t.familyId,
                       fate, n - 3),
          if n >= 1 then Put(s.black, OfToken(t), "rotation", fate.now) else s.black)
  }

  function Step(s: State, op: Op): State {
    match op
    case Login(userId, tenantId, familyId, fate) =>
      s.(records := Created(s.records, userId, tenantId, familyId, fate, fate.reached))
    case Rotate(t, signed, fate) =>
      if IsReuse(s, t, fate.now) then
        FamilyRevoked(s, t.familyId, Some(t.userId), Some(t.tenantId), REUSE, fate.now,
                      if fate.reached == 0 then 0 else fate.reached - 1)
      else if Accepts(s, t, signed, fate.now) then Rotation(s, t, fate)
      else s
    case RevokeFamily(familyId, user, tenant, reason, fate) =>
      FamilyRevoked(s, familyId, user, tenant, reason, fate.now, fate.reached)
    case RevokeToken(t, reason, fate) =>
      State(if fate.reached >= 2 then Deactivated(s.records, {t}) else s.records,
            if fate.reached >= 1 then Put(s.black, OfToken(t), reason, fate.now) else s.black)
    case RevokeAll(userId, tenantId, reason, fate) =>
      State(if fate.reached >= 2 then Deactivated(s.records, AllActive(s.records, userId, tenantId)) else s.records,
            if fate.reached >= 1 then Put(s.black, OfUser(tenantId, userId), reason, fate.now) else s.black)
    case CleanRecords(userId, tenantId, fate) =>
      if fate.cleans then s.(records := CleanExpired(s.records, userId, tenantId, fate.now)) else s
    case CleanBlacklist(keys, _) => s.(black := s.black - keys)
    case Unblacklist(t, _) => s.(black := s.black - {OfToken(t)})
  }

  function AllActive(records: Records, userId: int, tenantId: string): set<Token> {
    set t | t in records && OfOwner(records[t], userId, tenantId) && records[t].isActive
  }

  class TokenService {
    var records: Records
    const blacklist: Blacklist

    ghost function View(): State
      reads this, blacklist
    {
      State(records, blacklist.cache)
    }

    ghost predicate Valid()
      reads this, blacklist
    {
      blacklist.Valid()
    }

    constructor ()
      ensures Valid() && fresh(blacklist) && View() == EMPTY
    {
      records := map[];
      blacklist := new Blacklist();
    }

    /** A failed cleanup is logged and forgotten. */
    method CleanupExpiredTokens(userId: int, tenantId: string, fate: Fate)
      modifies `records
      ensures records == if fate.cleans then CleanExpired(old(records), userId, tenantId, fate.now) else old(records)
    {
      if fate.cleans {
        records := CleanExpired(records, userId, tenantId, fate.now);
      }
    }

    method CreateRefreshToken(userId: int, tenantId: string, familyId: string, fate: Fate, reached: nat)
      returns (r: Option<Token>)
      modifies `records
      ensures records == Created(old(records), userId, tenantId, familyId, fate, reached)
      ensures r == if reached >= 2 then Some(Minted(userId, tenantId, familyId, fate)) else None
    {
      var refreshToken := Token(userId, tenantId, fate.newId, familyId, fate.now);
      var expiresAt := fate.now + TTL_MS;
      CleanupExpiredTokens(userId, tenantId, fate);
      if reached == 0 { return None; }
      var active := ActiveOf(records, userId, tenantId, fate.now);
      if |active| >= MAX_ACTIVE_TOKENS_PER_USER {
        records := Deactivated(records, fate.oldest(active));
      }
      if reached == 1 { return None; }
      records := records[refreshToken := Rec(userId, tenantId, familyId, true, expiresAt, None)];
      return Some(refreshToken);
    }

    method SiblingTokenIds(familyId: string, userId: int, tenant: Option<string>) returns (siblings: set<Token>)
      ensures siblings == Siblings(records, familyId, Some(userId), tenant)
    {
      var activeTokens := set t | t in records && records[t].userId == userId && records[t].isActive &&
        (tenant.Some? ==> records[t].tenantId == tenant.value);
      ghost var all := activeTokens;
      siblings := {};
      while activeTokens != {}
        invariant activeTokens <= all
        invariant siblings == set t | t in all - activeTokens && records[t].familyId == familyId
        decreases activeTokens
      {
        var t :| t in activeTokens;
        if records[t].familyId == familyId { siblings := siblings + {t}; }
        activeTokens := activeTokens - {t};
      }
    }

    method RevokeTokenFamily(familyId: string, user: Option<int>, tenant: Option<string>, reason: string, now: int,
        reached: nat)
      requires Valid()
      modifies `records, blacklist
      ensures Valid() && View() == FamilyRevoked(old(View()), familyId, user, tenant, reason, now, reached)
    {
      if reached == 0 { return; }
      blacklist.Add(OfFamily(familyId), reason, now);
      if reached == 1 { return; }
      if user.Some? {
        var siblings := SiblingTokenIds(familyId, user.value, tenant);
        records := Deactivated(records, siblings);
      } else {
        assert Siblings(records, familyId, user, tenant) == {} && Deactivated(records, {}) == records;
      }
    }

    /** Succeeds exactly when the token is accepted and every write goes through. */
    method RotateRefreshToken(token: Token, signed: bool, fate: Fate) returns (r: Option<Token>)
      requires Valid()
      modifies `records, blacklist
      ensures Valid() && View() == Step(old(View()), Rotate(token, signed, fate))
      ensures r.Some? <==> Rotated(old(View()), token, signed, fate)
      ensures r.Some? ==>
                r == Some(Minted(old(records)[token].userId, old(records)[token].tenantId, token.familyId, fate))
    {
      var isBlacklisted := blacklist.IsTokenBlacklisted(token, fate.now);
      var metadata: Option<string> := None;
      if isBlacklisted { metadata := blacklist.GetBlacklistMetadata(token, fate.now); }
      var inactive := token in records && !records[token].isActive;
      var isRotationReuse := metadata == Some("rotation") || metadata == Some("compromised") || inactive;
      if (isBlacklisted && isRotationReuse) || inactive {
        if fate.reached > 0 {
          RevokeTokenFamily(token.familyId, Some(token.userId), Some(token.tenantId), REUSE, fate.now,
              fate.reached - 1);
        }
        return None;
      }
      if isBlacklisted { return None; }
      if !Verifies(token, signed, fate.now) { return None; }
      if token !in records { return None; }
      if fate.reached == 0 { return None; }
      r := WriteRotation(token, fate);
    }

    method WriteRotation(token: Token, fate: Fate) returns (r: Option<Token>)
      requires Valid() && token in records && fate.reached >= 1
      modifies `records, blacklist
      ensures Valid() && View() == Rotation(old(View()), token, fate)
      ensures r == if fate.reached < 5 then None
                   else Some(Minted(old(records)[token].userId, old(records)[token].tenantId, token.familyId, fate))
    {
      blacklist.Add(OfToken(token), "rotation", fate.now);
      if fate.reached == 1 { return None; }
      var tokenRecord := records[token];
      records := Deactivated(records, {token});
      if fate.reached == 2 { return None; }
      records := records[token := records[token].(lastUsedAt := Some(fate.now))];
      assert records == Used(old(records), token, fate.now);
      r := CreateRefreshToken(tokenRecord.userId, tokenRecord.tenantId, token.familyId, fate, fate.reached - 3);
    }

    method RevokeRefreshToken(token: Token, reason: string, fate: Fate) returns (ok: bool)
      requires Valid()
      modifies `records, blacklist
      ensures Valid() && View() == Step(old(View()), RevokeToken(token, reason, fate)) && ok == (fate.reached >= 2)
    {
      if fate.reached == 0 { return false; }
      blacklist.Add(OfToken(token), reason, fate.now);
      if fate.reached == 1 { return false; }
      records := Deactivated(records, {token});
      return true;
    }

    method RevokeAllUserTokens(userId: int, tenantId: string, reason: string, fate: Fate) returns (ok: bool)
      requires Valid()
      modifies `records, blacklist
      ensures Valid() && View() == Step(old(View()), RevokeAll(userId, tenantId, reason, fate)) &&
                ok == (fate.reached >= 2)
    {
      if fate.reached == 0 { return false; }
      blacklist.Add(OfUser(tenantId, userId), reason, fate.now);
      if fate.reached == 1 { return false; }
      records := Deactivated(records, AllActive(records, userId, tenantId));
      return true;
    }
  }

  predicate Rotated(s: State, t: Token, signed: bool, fate: Fate) {
    !IsReuse(s, t, fate.now) && Accepts(s, t, signed, fate.now) && fate.reached >= 5
  }

  // ---- Runs ---------------------------------------------------------------------------------

  const EMPTY := State(map[], map[])

  /** The database takes as many tokens as are asked for, from those that match. */
  ghost predicate Picks(oldest: set<Token> -> set<Token>) {
    forall s: set<Token> :: |s| >= MAX_ACTIVE_TOKENS_PER_USER ==>
      oldest(s) <= s && |oldest(s)| == |s| - MAX_ACTIVE_TOKENS_PER_USER + 1
  }

  /** The family a call names, if any. */
  function Named(op: Op): set<string> {
    match op
    case Login(_, _, familyId, _) => {familyId}
    case RevokeFamily(familyId, _, _, _, _) => {familyId}
    case Rotate(t, _, _) => {t.familyId}
    case _ => {}
  }

  /** Time moves forward, random ids do not repeat, a login starts a family never named
      before, and the blacklist cleanup removes only expired entries. */
  ghost predicate May(s: State, op: Op, clock: int, named: set<string>) {
    && op.fate.now >= clock && Picks(op.fate.oldest)
    && (forall t :: t in s.records ==> t.tokenId != op.fate.newId)
    && (op.Login? ==> op.familyId !in named)
    && (op.CleanBlacklist? ==> op.keys <= Expired(s.black, op.fate.now))
  }

  ghost predicate IsRun(s: State, run: seq<Op>, clock: int, named: set<string>)
    decreases |run|
  {
    run != [] ==>
      && May(s, run[0], clock, named)
      && IsRun(Step(s, run[0]), run[1..], run[0].fate.now, named + Named(run[0]))
  }

  function End(s: State, run: seq<Op>): State
    decreases |run|
  {
    if run == [] then s else End(Step(s, run[0]), run[1..])
  }

  function Clock(run: seq<Op>, clock: int): int {
    if run == [] then clock else run[|run| - 1].fate.now
  }

  function AllNamed(run: seq<Op>): set<string> {
    if run == [] then {} else Named(run[0]) + AllNamed(run[1..])
  }

  // ---- What every call keeps ------------------------------------------------------------------

  /** Records say what their tokens say.  An active one has never been used, so ordering by
      last use leaves open which tokens the cap evicts. */
  ghost predicate Faithful(records: Records, clock: int) {
    forall t :: t in records ==>
      && OfOwner(records[t], t.userId, t.tenantId) && records[t].familyId == t.familyId
      && t.issuedAt <= clock && records[t].expiresAt == t.issuedAt + TTL_MS
      && (records[t].isActive ==> records[t].lastUsedAt.None?)
  }

  ghost predicate OneActivePerFamily(records: Records) {
    forall t, u :: t in records && u in records && records[t].isActive && records[u].isActive &&
        t.familyId == u.familyId
      ==> t == u
  }

  ghost predicate OneUserPerFamily(records: Records, named: set<string>) {
    && (forall t :: t in records ==> t.familyId in named)
    && (forall t, u :: t in records && u in records && t.familyId == u.familyId ==>
        t.userId == u.userId && t.tenantId == u.tenantId)
  }

  ghost predicate UnderCap(records: Records, clock: int) {
    forall userId, tenantId :: |ActiveOf(records, userId, tenantId, clock)| <= MAX_ACTIVE_TOKENS_PER_USER
  }

  ghost predicate Inv(records: Records, clock: int, named: set<string>) {
    && Faithful(records, clock) && OneActivePerFamily(records) && OneUserPerFamily(records, named) &&
        UnderCap(records, clock)
  }

  /** Records are only removed, or deactivated. */
  ghost predicate Shrinks(r: Records, r': Records) {
    forall t :: t in r' ==>
      t in r && (r'[t] == r[t] || r'[t] == r[t].(isActive := false, lastUsedAt := r'[t].lastUsedAt))
  }

  lemma SubsetIsSmaller<T>(a: set<T>, b: set<T>)
    requires a <= b
    ensures |a| <= |b|
  {
    assert b == a + (b - a) && |a + (b - a)| == |a| + |b - a|;
  }

  lemma ShrinkingKeepsInv(r: Records, r': Records, clock: int, now: int, named: set<string>, more: set<string>)
    requires Inv(r, clock, named) && Shrinks(r, r') && clock <= now && named <= more
    ensures Inv(r', now, more)
  {
    forall userId, tenantId ensures |ActiveOf(r', userId, tenantId, now)| <= MAX_ACTIVE_TOKENS_PER_USER {
      assert ActiveOf(r', userId, tenantId, now) <= ActiveOf(r, userId, tenantId, clock);
      SubsetIsSmaller(ActiveOf(r', userId, tenantId, now), ActiveOf(r, userId, tenantId, clock));
    }
  }

  lemma CapLeavesRoom(r: Records, userId: int, tenantId: string, fate: Fate)
    requires Picks(fate.oldest)
    ensures Shrinks(r, Capped(r, userId, tenantId, fate))
    ensures |ActiveOf(Capped(r, userId, tenantId, fate), userId, tenantId, fate.now)| < MAX_ACTIVE_TOKENS_PER_USER
  {
    var active := ActiveOf(r, userId, tenantId, fate.now);
    if |active| >= MAX_ACTIVE_TOKENS_PER_USER {
      var out := fate.oldest(active);
      assert ActiveOf(Capped(r, userId, tenantId, fate), userId, tenantId, fate.now) == active - out;
      assert active == (active - out) + out && |(active - out) + out| == |active - out| + |out|;
    }
  }

  lemma ActiveAfterInsert(r: Records, t: Token, userId: int, tenantId: string, now: int)
    ensures ActiveOf(r[t := NewRec(t)], userId, tenantId, now) <=
              ActiveOf(r, userId, tenantId, now) + if userId == t.userId && tenantId == t.tenantId then {t} else {}
  {
    var r' := r[t := NewRec(t)];
    forall u | u in ActiveOf(r', userId, tenantId, now) && u != t ensures u in ActiveOf(r, userId, tenantId, now) {
      assert r'[u] == r[u];
    }
  }

  lemma InsertKeepsCap(r: Records, t: Token, now: int)
    requires UnderCap(r, now) && |ActiveOf(r, t.userId, t.tenantId, now)| < MAX_ACTIVE_TOKENS_PER_USER
    ensures UnderCap(r[t := NewRec(t)], now)
  {
    var r' := r[t := NewRec(t)];
    forall userId, tenantId ensures |ActiveOf(r', userId, tenantId, now)| <= MAX_ACTIVE_TOKENS_PER_USER {
      var before := ActiveOf(r, userId, tenantId, now);
      var added: set<Token> := if userId == t.userId && tenantId == t.tenantId then {t} else {};
      ActiveAfterInsert(r, t, userId, tenantId, now);
      SubsetIsSmaller(ActiveOf(r', userId, tenantId, now), before + added);
    }
  }

  lemma InsertKeepsInv(r: Records, t: Token, now: int, named: set<string>)
    requires Inv(r, now, named) && t !in r && t.issuedAt == now && t.familyId in named
    requires forall u :: u in r && u.familyId == t.familyId ==>
               !r[u].isActive && u.userId == t.userId && u.tenantId == t.tenantId
    requires |ActiveOf(r, t.userId, t.tenantId, now)| < MAX_ACTIVE_TOKENS_PER_USER
    ensures Inv(r[t := NewRec(t)], now, named)
  {
    var r' := r[t := NewRec(t)];
    InsertKeepsCap(r, t, now);
    assert Faithful(r', now);
    assert OneActivePerFamily(r');
    assert OneUserPerFamily(r', named);
  }

  lemma CreatingKeepsInv(r: Records, t: Token, fate: Fate, reached: nat, named: set<string>)
    requires Inv(r, fate.now, named) && Picks(fate.oldest)
    requires t == Minted(t.userId, t.tenantId, t.familyId, fate) && t.familyId in named
    requires forall u :: u in r ==> u.tokenId != t.tokenId
    requires forall u :: u in r && u.familyId == t.familyId ==>
               !r[u].isActive && u.userId == t.userId && u.tenantId == t.tenantId
    ensures Inv(Created(r, t.userId, t.tenantId, t.familyId, fate, reached), fate.now, named)
  {
    var cleaned := if fate.cleans then CleanExpired(r, t.userId, t.tenantId, fate.now) else r;
    ShrinkingKeepsInv(r, cleaned, fate.now, fate.now, named, named);
    if reached >= 1 {
      var capped := Capped(cleaned, t.userId, t.tenantId, fate);
      CapLeavesRoom(cleaned, t.userId, t.tenantId, fate);
      ShrinkingKeepsInv(cleaned, capped, fate.now, fate.now, named, named);
      if reached >= 2 { InsertKeepsInv(capped, t, fate.now, named); }
    }
  }

  lemma RotationKeepsInv(s: State, t: Token, fate: Fate, clock: int, named: set<string>)
    requires Inv(s.records, clock, named) && t in s.records && s.records[t].isActive
    requires clock <= fate.now && Picks(fate.oldest) && forall u :: u in s.records ==> u.tokenId != fate.newId
    ensures Inv(Rotation(s, t, fate).records, fate.now, named)
  {
    if fate.reached <= 2 {
      ShrinkingKeepsInv(s.records, Rotation(s, t, fate).records, clock, fate.now, named, named);
    } else {
      var used := Used(s.records, t, fate.now);
      ShrinkingKeepsInv(s.records, used, clock, fate.now, named, named);
      CreatingKeepsInv(used, Minted(t.userId, t.tenantId, t.familyId, fate), fate, fate.reached - 3, named);
    }
  }

  lemma StepKeepsInv(s: State, op: Op, clock: int, named: set<string>)
    requires Inv(s.records, clock, named) && May(s, op, clock, named)
    ensures Inv(Step(s, op).records, op.fate.now, named + Named(op))
  {
    var r, r', now, more := s.records, Step(s, op).records, op.fate.now, named + Named(op);
    ShrinkingKeepsInv(r, r, clock, now, named, more);
    if op.Login? {
      CreatingKeepsInv(r, Minted(op.userId, op.tenantId, op.familyId, op.fate), op.fate, op.fate.reached, more);
    } else if op.Rotate? && !IsReuse(s, op.token, now) && Accepts(s, op.token, op.signed, now) {
      RotationKeepsInv(s, op.token, op.fate, now, more);
    } else {
      assert Shrinks(r, r');
      ShrinkingKeepsInv(r, r', clock, now, named, more);
    }
  }

  /** In every reachable state a family has at most one active record and a user at most five
      active unexpired ones, and no active record has ever been used. */
  lemma {:induction false} RunKeepsInv(s: State, run: seq<Op>, clock: int, named: set<string>)
    requires Inv(s.records, clock, named) && IsRun(s, run, clock, named)
    ensures Inv(End(s, run).records, Clock(run, clock), named + AllNamed(run))
    decreases |run|
  {
    if run == [] {
      assert named + {} == named;
    } else {
      var more := named + Named(run[0]);
      StepKeepsInv(s, run[0], clock, named);
      RunKeepsInv(Step(s, run[0]), run[1..], run[0].fate.now, more);
      assert more + AllNamed(run[1..]) == named + AllNamed(run);
    }
  }

  // ---- A revoked family ---------------------------------------------------------------------

  /** Until the tokens issued by `at` have expired, the entry of `k` is there to block them. */
  ghost predicate Barred(black: Store, k: Key, at: int, clock: int) {
    clock < at + TTL_MS ==> k in black && black[k].expiresAt >= at + TTL_MS
  }

  /** Only a token's own entry can be taken off again. */
  predicate Lifts(op: Op, k: Key) { op.Unblacklist? && k == OfToken(op.token) }

  /** Apart from that, entries are only ever replaced by later ones, or dropped when they have
      expired. */
  lemma StepKeepsBarred(s: State, op: Op, k: Key, at: int, clock: int, named: set<string>)
    requires !Lifts(op, k) && Barred(s.black, k, at, clock) && May(s, op, clock, named) && at <= clock
    ensures Barred(Step(s, op).black, k, at, op.fate.now)
  {}

  lemma {:induction false} StaysBarred(s: State, run: seq<Op>, k: Key, at: int, clock: int, named: set<string>)
    requires Barred(s.black, k, at, clock) && IsRun(s, run, clock, named) && at <= clock
    requires forall i :: 0 <= i < |run| ==> !Lifts(run[i], k)
    ensures Barred(End(s, run).black, k, at, Clock(run, clock)) && clock <= Clock(run, clock)
    decreases |run|
  {
    if run != [] {
      StepKeepsBarred(s, run[0], k, at, clock, named);
      StaysBarred(Step(s, run[0]), run[1..], k, at, run[0].fate.now, named + Named(run[0]));
    }
  }

  /** Revoking all of a user's tokens keeps every token issued by then out for good, and
      until the entry lapses also the tokens of later logins. */
  lemma RevokedUserIsKeptOut(s: State, op: Op, after: seq<Op>, named: set<string>, t: Token, signed: bool, now: int)
    requires op.RevokeAll? && op.fate.reached >= 1 && UserKey(t) == OfUser(op.tenantId, op.userId)
    requires IsRun(Step(s, op), after, op.fate.now, named) && now >= Clock(after, op.fate.now)
    ensures t.issuedAt <= op.fate.now || now < op.fate.now + TTL_MS ==>
              !Accepts(End(Step(s, op), after), t, signed, now)
  {
    var at := op.fate.now;
    StaysBarred(Step(s, op), after, UserKey(t), at, at, named);
    if t.issuedAt <= at && now >= at + TTL_MS {
      EntriesOutliveTokens(t.issuedAt, at, now);
    }
  }

  /** Family `f` was revoked at `at`: its tokens are all from before, and are barred. */
  ghost predicate Dead(s: State, f: string, at: int, clock: int) {
    && (forall t :: t in s.records && t.familyId == f ==> t.issuedAt <= at)
    && Barred(s.black, OfFamily(f), at, clock)
  }

  lemma DeadRefuses(s: State, f: string, at: int, clock: int, t: Token, signed: bool, now: int)
    requires Dead(s, f, at, clock) && t.familyId == f && clock <= now
    ensures !Accepts(s, t, signed, now)
  {
    if t in s.records && now >= at + TTL_MS {
      EntriesOutliveTokens(t.issuedAt, at, now);
    }
  }

  lemma StepKeepsDead(s: State, op: Op, f: string, at: int, clock: int, named: set<string>)
    requires Dead(s, f, at, clock) && May(s, op, clock, named) && f in named && at <= clock
    ensures Dead(Step(s, op), f, at, op.fate.now)
  {
    StepKeepsBarred(s, op, OfFamily(f), at, clock, named);
    match op
    case Rotate(t, signed, fate) =>
      if t.familyId == f { DeadRefuses(s, f, at, clock, t, signed, fate.now); }
    case _ =>
  }

  lemma {:induction false} StaysDead(s: State, run: seq<Op>, f: string, at: int, clock: int, named: set<string>)
    requires Dead(s, f, at, clock) && IsRun(s, run, clock, named) && f in named && at <= clock
    ensures Dead(End(s, run), f, at, Clock(run, clock)) && clock <= Clock(run, clock)
    decreases |run|
  {
    if run != [] {
      StepKeepsDead(s, run[0], f, at, clock, named);
      StaysDead(Step(s, run[0]), run[1..], f, at, run[0].fate.now, named + Named(run[0]));
    }
  }

  /** Does the call put the family on the blacklist? */
  predicate Revokes(s: State, op: Op, f: string) {
    || (op.RevokeFamily? && op.familyId == f && op.fate.reached >= 1)
    || (op.Rotate? && op.token.familyId == f && IsReuse(s, op.token, op.fate.now) && op.fate.reached >= 2)
  }

  /** Once a family is revoked no later rotation of any of its tokens is accepted, in any run,
      not even after the seven-day entry has lapsed and been cleaned up. */
  lemma RevokedFamilyNeverRotates(before: seq<Op>, op: Op, after: seq<Op>, start: int, f: string,
                                  t: Token, signed: bool, now: int)
    requires IsRun(EMPTY, before, start, {}) && Revokes(End(EMPTY, before), op, f)
    requires var s, clock := End(EMPTY, before), Clock(before, start); var named := AllNamed(before);
             May(s, op, clock, named) && IsRun(Step(s, op), after, op.fate.now, named + Named(op))
    requires t.familyId == f && now >= Clock(after, op.fate.now)
    ensures !Accepts(End(Step(End(EMPTY, before), op), after), t, signed, now)
  {
    var s, at := End(EMPTY, before), op.fate.now;
    RunKeepsInv(EMPTY, before, start, {});
    assert Dead(Step(s, op), f, at, at);
    StaysDead(Step(s, op), after, f, at, at, AllNamed(before) + Named(op));
    DeadRefuses(End(Step(s, op), after), f, at, Clock(after, at), t, signed, now);
  }

  // ---- A spent token --------------------------------------------------------------------------

  /** Retired, or already deleted because it expired. */
  ghost predicate Spent(s: State, t: Token, clock: int) {
    if t in s.records then !s.records[t].isActive && s.records[t].expiresAt == t.issuedAt + TTL_MS
    else t.issuedAt + TTL_MS < clock
  }

  lemma CreatingKeepsSpent(r: Records, black: Store, t: Token, userId: int, tenantId: string, familyId: string,
                           fate: Fate, reached: nat, clock: int)
    requires Spent(State(r, black), t, clock) && clock <= fate.now && Picks(fate.oldest)
    requires forall u :: u in r ==> u.tokenId != fate.newId
    ensures Spent(State(Created(r, userId, tenantId, familyId, fate, reached), black), t, fate.now)
  {
    var cleaned := if fate.cleans then CleanExpired(r, userId, tenantId, fate.now) else r;
    assert Spent(State(cleaned, black), t, fate.now);
    assert Spent(State(Capped(cleaned, userId, tenantId, fate), black), t, fate.now);
  }

  lemma StepKeepsSpent(s: State, op: Op, t: Token, clock: int, named: set<string>)
    requires Spent(s, t, clock) && May(s, op, clock, named)
    ensures Spent(Step(s, op), t, op.fate.now)
  {
    match op
    case Login(userId, tenantId, familyId, fate) =>
      CreatingKeepsSpent(s.records, s.black, t, userId, tenantId, familyId, fate, fate.reached, clock);
    case Rotate(u, signed, fate) =>
      if !IsReuse(s, u, fate.now) && Accepts(s, u, signed, fate.now) && fate.reached >= 3 {
        CreatingKeepsSpent(Used(s.records, u, fate.now), s.black, t, s.records[u].userId, s.records[u].tenantId,
                           u.familyId, fate, fate.reached - 3, clock);
      }
    case _ =>
  }

  /** A token rotates at most once: from the moment its record is retired it is never accepted
      again, in any run; and as long as its record is there, presenting it is taken as reuse. */
  lemma {:induction false} SpentTokenStaysSpent(s: State, run: seq<Op>, t: Token, clock: int, named: set<string>,
                                                signed: bool, now: int)
    requires Spent(s, t, clock) && IsRun(s, run, clock, named)
    ensures !Accepts(End(s, run), t, signed, now)
    ensures t in End(s, run).records ==> IsReuse(End(s, run), t, now)
    decreases |run|
  {
    if run != [] {
      StepKeepsSpent(s, run[0], t, clock, named);
      SpentTokenStaysSpent(Step(s, run[0]), run[1..], t, run[0].fate.now, named + Named(run[0]), signed, now);
    }
  }

  lemma RotatingSpends(s: State, t: Token, signed: bool, fate: Fate, clock: int, named: set<string>)
    requires Inv(s.records, clock, named) && May(s, Rotate(t, signed, fate), clock, named)
    requires !IsReuse(s, t, fate.now) && Accepts(s, t, signed, fate.now) && fate.reached >= 2
    ensures Spent(Step(s, Rotate(t, signed, fate)), t, fate.now)
  {
    if fate.reached >= 3 {
      CreatingKeepsSpent(Used(s.records, t, fate.now), s.black, t, s.records[t].userId, s.records[t].tenantId,
                         t.familyId, fate, fate.reached - 3, clock);
    }
  }

  /** Reuse of a known token leaves its whole family without an active record. */
  lemma ReuseEndsFamily(s: State, t: Token, signed: bool, fate: Fate, clock: int, named: set<string>)
    requires Inv(s.records, clock, named) && t in s.records
    requires IsReuse(s, t, fate.now) && fate.reached >= 3
    ensures var s' := Step(s, Rotate(t, signed, fate));
            forall u :: u in s'.records && u.familyId == t.familyId ==> !s'.records[u].isActive
  {}

  /** A token whose revocation went through is never accepted again, in any run. */
  lemma RevokedTokenIsSpent(s: State, op: Op, after: seq<Op>, clock: int, named: set<string>, signed: bool, now: int)
    requires Inv(s.records, clock, named) && op.RevokeToken? && op.token in s.records && op.fate.reached >= 2
    requires May(s, op, clock, named) && IsRun(Step(s, op), after, op.fate.now, named)
    ensures !Accepts(End(Step(s, op), after), op.token, signed, now)
    ensures op.token in End(Step(s, op), after).records ==> IsReuse(End(Step(s, op), after), op.token, now)
  {
    SpentTokenStaysSpent(Step(s, op), after, op.token, op.fate.now, named, signed, now);
  }

  /** From the first of its two writes on, and whether or not it has a record, its own entry keeps
      a revoked token out, unless that entry is taken off: for good if the token was issued by
      then, and in any case for the lifetime of the entry. */
  lemma RevokedTokenIsKeptOut(s: State, op: Op, after: seq<Op>, named: set<string>, signed: bool, now: int)
    requires op.RevokeToken? && op.fate.reached >= 1
    requires IsRun(Step(s, op), after, op.fate.now, named) && now >= Clock(after, op.fate.now)
    requires forall i :: 0 <= i < |after| ==> !(after[i].Unblacklist? && after[i].token == op.token)
    ensures op.token.issuedAt <= op.fate.now || now < op.fate.now + TTL_MS ==>
              !Accepts(End(Step(s, op), after), op.token, signed, now)
  {
    var at, t := op.fate.now, op.token;
    StaysBarred(Step(s, op), after, OfToken(t), at, at, named);
    if t.issuedAt <= at && now >= at + TTL_MS {
      EntriesOutliveTokens(t.issuedAt, at, now);
    }
  }

  /** Revoking all of a user's tokens leaves the user without an active record. */
  lemma RevokingAllEndsAll(s: State, op: Op, clock: int, named: set<string>)
    requires Inv(s.records, clock, named) && op.RevokeAll? && op.fate.reached >= 2
    ensures forall u :: u in Step(s, op).records && u.userId == op.userId && u.tenantId == op.tenantId ==>
              !Step(s, op).records[u].isActive
    ensures Step(s, op).records.Keys == s.records.Keys
  {}

  /** A cleanup that works removes the user's records of expired tokens, and no other. */
  lemma CleanupRemovesTheExpired(s: State, op: Op, clock: int, named: set<string>)
    requires Inv(s.records, clock, named) && op.CleanRecords? && op.fate.cleans
    ensures forall u :: u in Step(s, op).records <==>
              u in s.records &&
              !(u.userId == op.userId && u.tenantId == op.tenantId && u.issuedAt + TTL_MS < op.fate.now)
    ensures forall u :: u in Step(s, op).records ==> Step(s, op).records[u] == s.records[u]
  {}

  // ---- What a token in use can rely on --------------------------------------------------------

  /** A rotation that goes through hands out a token that is accepted in turn, from then until
      it expires: nothing that let the old one through stands in the way of the new one. */
  lemma RotationContinues(s: State, t: Token, signed: bool, fate: Fate, clock: int, named: set<string>, later: int)
    requires Inv(s.records, clock, named) && May(s, Rotate(t, signed, fate), clock, named)
    requires Rotated(s, t, signed, fate) && OfToken(Minted(t.userId, t.tenantId, t.familyId, fate)) !in s.black
    requires fate.now <= later && later / 1000 < fate.now / 1000 + REFRESH_TOKEN_TTL
    ensures var s' := Step(s, Rotate(t, signed, fate)); var next := Minted(t.userId, t.tenantId, t.familyId, fate);
            Accepts(s', next, true, later) && !IsReuse(s', next, later)
  {}

  /** A login that goes through hands out a token that is accepted from then until it expires,
      unless something on the blacklist stands in its way. */
  lemma LoginIsAccepted(s: State, op: Op, clock: int, named: set<string>, later: int)
    requires op.Login? && op.fate.reached >= 2 && Inv(s.records, clock, named) && May(s, op, clock, named)
    requires var t := Minted(op.userId, op.tenantId, op.familyId, op.fate); !Blocked(s.black, t, later)
    requires op.fate.now <= later && later / 1000 < op.fate.now / 1000 + REFRESH_TOKEN_TTL
    ensures var t := Minted(op.userId, op.tenantId, op.familyId, op.fate);
            Accepts(Step(s, op), t, true, later) && Step(s, op).records[t] == NewRec(t)
  {}

  /** Might a call concern the token: its record, its user's, or an entry that blocks it? */
  predicate Concerns(op: Op, t: Token) {
    match op
    case Login(userId, tenantId, _, _) => userId == t.userId && tenantId == t.tenantId
    case Rotate(u, _, _) => u.familyId == t.familyId || (u.userId == t.userId && u.tenantId == t.tenantId)
    case RevokeFamily(familyId, _, _, _, _) => familyId == t.familyId
    case RevokeToken(u, _, _) => u == t
    case RevokeAll(userId, tenantId, _, _) => userId == t.userId && tenantId == t.tenantId
    case CleanRecords(_, _, _) => false
    case CleanBlacklist(_, _) => false
    case Unblacklist(u, _) => u == t
  }

  lemma OthersLeaveTheRecord(s: State, op: Op, t: Token, clock: int, named: set<string>)
    requires Inv(s.records, clock, named) && May(s, op, clock, named)
    requires t in s.records && s.records[t].expiresAt >= op.fate.now && !Concerns(op, t)
    ensures t in Step(s, op).records && Step(s, op).records[t] == s.records[t]
  {
    match op
    case Login(userId, tenantId, familyId, fate) =>
      CreatingLeavesOthers(s.records, userId, tenantId, familyId, fate, fate.reached, t);
    case Rotate(u, signed, fate) =>
      if !IsReuse(s, u, fate.now) && Accepts(s, u, signed, fate.now) && fate.reached >= 3 {
        CreatingLeavesOthers(Used(s.records, u, fate.now), u.userId, u.tenantId, u.familyId, fate, fate.reached - 3, t);
      }
    case _ =>
  }

  lemma OthersLeaveTheEntries(s: State, op: Op, t: Token, k: Key, clock: int, named: set<string>, later: int)
    requires May(s, op, clock, named) && !Concerns(op, t) && later > op.fate.now
    requires k == OfToken(t) || k == OfFamily(t.familyId) || k == UserKey(t)
    ensures Alive(Step(s, op).black, k, later) <==> Alive(s.black, k, later)
  {}

  /** Calls for other users and families, and the cleanups, leave an unexpired token's record
      as it is and change nothing about whether it is accepted later. */
  lemma OthersLeaveATokenAlone(s: State, op: Op, t: Token, clock: int, named: set<string>, signed: bool, later: int)
    requires Inv(s.records, clock, named) && May(s, op, clock, named)
    requires t in s.records && s.records[t].expiresAt >= op.fate.now && !Concerns(op, t)
    requires later > op.fate.now
    ensures t in Step(s, op).records && Step(s, op).records[t] == s.records[t]
    ensures Accepts(Step(s, op), t, signed, later) <==> Accepts(s, t, signed, later)
  {
    OthersLeaveTheRecord(s, op, t, clock, named);
    OthersLeaveTheEntries(s, op, t, OfToken(t), clock, named, later);
    OthersLeaveTheEntries(s, op, t, OfFamily(t.familyId), clock, named, later);
    OthersLeaveTheEntries(s, op, t, UserKey(t), clock, named, later);
  }

  lemma CreatingLeavesOthers(r: Records, userId: int, tenantId: string, familyId: string, fate: Fate, reached: nat,
      t: Token)
    requires Picks(fate.oldest) && t in r && !OfOwner(r[t], userId, tenantId) && t.tokenId != fate.newId
    ensures var r' := Created(r, userId, tenantId, familyId, fate, reached); t in r' && r'[t] == r[t]
  {
    var cleaned := if fate.cleans then CleanExpired(r, userId, tenantId, fate.now) else r;
    assert t in cleaned && cleaned[t] == r[t];
    assert t !in ActiveOf(cleaned, userId, tenantId, fate.now);
  }
}
