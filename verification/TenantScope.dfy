/** Tenant scoping of database queries: the rewrite of a where clause, the interceptor that
    applies it, and what it guarantees between tenants over whole runs. */
module TenantScope {
  import opened Wrappers

  datatype Column = TenantId | Column(name: string)

  type Data = map<Column, string>

  /** A condition on one column: a literal, any other filter, or `undefined`, which the
      database client ignores. */
  datatype Cond = Literal(value: string) | Filter(accepts: Option<string> -> bool) | Undefined

  datatype Where = Where(fields: map<Column, Cond>, AND: Arg, OR: Arg, NOT: Arg)

  /** AND and NOT take one clause or a list, OR a list; a key may also be there with no value. */
  datatype Arg = Missing | NoValue | One(clause: Where) | Many(clauses: seq<Where>)

  // ---- Meaning --------------------------------------------------------------------------

  function Get(row: Data, c: Column): Option<string> {
    if c in row then Some(row[c]) else None
  }

  predicate Meets(c: Cond, v: Option<string>) {
    match c
    case Literal(value) => v == Some(value)
    case Filter(accepts) => accepts(v)
    case Undefined => true
  }

  function Clauses(a: Arg): seq<Where> {
    match a
    case One(w) => [w]
    case Many(ws) => ws
    case _ => []
  }

  predicate Holds(w: Where, row: Data)
    decreases w
  {
    && (forall c :: c in w.fields ==> Meets(w.fields[c], Get(row, c)))
    && (w.AND.One? ==> Holds(w.AND.clause, row))
    && (w.AND.Many? ==> forall i :: 0 <= i < |w.AND.clauses| ==> Holds(w.AND.clauses[i], row))
    && (w.OR.One? ==> Holds(w.OR.clause, row))
    && (w.OR.Many? ==> exists i :: 0 <= i < |w.OR.clauses| && Holds(w.OR.clauses[i], row))
    && (w.NOT.One? ==> !Holds(w.NOT.clause, row))
    && (w.NOT.Many? ==> forall i :: 0 <= i < |w.NOT.clauses| ==> !Holds(w.NOT.clauses[i], row))
  }

  /** No clause at all lets every row through. */
  predicate Matches(w: Option<Where>, row: Data) {
    w.Some? ==> Holds(w.value, row)
  }

  // ---- The rewrite ----------------------------------------------------------------------

  function TenantOnly(tenantId: string): Where {
    Where(map[TenantId := Literal(tenantId)], Missing, Missing, Missing)
  }

  predicate NoKeys(w: Where) {
    w.fields == map[] && w.AND.Missing? && w.OR.Missing? && w.NOT.Missing?
  }

  function MergeTenantWhere(w: Option<Where>, tenantId: string): Option<Where> {
    if tenantId == "" then w
    else if w.None? || NoKeys(w.value) then Some(TenantOnly(tenantId))
    else if TenantId in w.value.fields && w.value.fields[TenantId].Literal? &&
        w.value.fields[TenantId].value == tenantId then w
    else Some(w.value.(AND := Many(Clauses(w.value.AND) + [TenantOnly(tenantId)])))
  }

  /** The merged clause lets through exactly the tenant's rows among those that the original
      lets through. */
  lemma MergeIsExact(w: Option<Where>, tenantId: string, row: Data)
    requires tenantId != ""
    ensures Matches(MergeTenantWhere(w, tenantId), row) <==> Matches(w, row) && Get(row, TenantId) == Some(tenantId)
  {
    TenantOnlyHolds(tenantId, row);
    var merged := MergeTenantWhere(w, tenantId);
    if w.Some? && NoKeys(w.value) {
      assert Holds(w.value, row);
    } else if w.Some? && merged != w {
      AndAppend(w.value, TenantOnly(tenantId), row);
    }
  }

  /** One more clause under AND is one more condition. */
  lemma AndAppend(w: Where, extra: Where, row: Data)
    ensures Holds(w.(AND := Many(Clauses(w.AND) + [extra])), row) <==> Holds(w, row) && Holds(extra, row)
  {
    var given, more := Clauses(w.AND), Clauses(w.AND) + [extra];
    var w' := w.(AND := Many(more));
    assert more[|given|] == extra && forall i :: 0 <= i < |given| ==> more[i] == given[i];
    if Holds(w', row) {
      assert Holds(w'.AND.clauses[|given|], row);
      forall i | 0 <= i < |given| ensures Holds(given[i], row) { assert Holds(w'.AND.clauses[i], row); }
      if w.AND.One? { assert Holds(given[0], row); }
    }
  }

  lemma TenantOnlyHolds(tenantId: string, row: Data)
    ensures Holds(TenantOnly(tenantId), row) <==> Get(row, TenantId) == Some(tenantId)
  {
    assert TenantId in TenantOnly(tenantId).fields;
  }

  // ---- The interceptor ------------------------------------------------------------------

  datatype Model =
    | User | Escrow | Milestone | ReputationRecord | Dispute | DisputeEvidence | DisputeAppeal | UserProfile
    | ContractEvent | Payment | KycVerification | WebhookSubscription | WebhookDelivery | AdminAuditLog | AuditLog
    | Unscoped(name: string)

  datatype Operation =
    | FindMany | FindFirst | FindFirstOrThrow | Count | Aggregate | GroupBy | UpdateMany | DeleteMany
    | FindUnique | FindUniqueOrThrow | Update | Delete | Upsert | Create | CreateMany | Unlisted(name: string)

  predicate TakesWhere(op: Operation) {
    !op.Create? && !op.CreateMany? && !op.Unlisted?
  }

  datatype Query = Query(
    where_: Option<Where>, data: Option<Data>, dataList: Option<seq<Data>>, create: Option<Data>, update: Option<Data>)

  function WithTenant(d: Option<Data>, tenantId: string): Data {
    var fields := if d.Some? then d.value else map[];
    if TenantId in fields then fields else fields[TenantId := tenantId]
  }

  function AllWithTenant(ds: seq<Data>, tenantId: string): seq<Data> {
    seq(|ds|, i requires 0 <= i < |ds| => WithTenant(Some(ds[i]), tenantId))
  }

  /** What a query becomes for a tenant's caller. */
  function Scope(q: Query, tenantId: string, op: Operation): Query {
    Query(
      if TakesWhere(op) then MergeTenantWhere(q.where_, tenantId) else q.where_,
      if op.Create? then Some(WithTenant(q.data, tenantId)) else q.data,
      if op.CreateMany? && q.dataList.Some? then Some(AllWithTenant(q.dataList.value, tenantId)) else q.dataList,
      if op.Upsert? then Some(WithTenant(q.create, tenantId)) else q.create,
      q.update)
  }

  /** What the interceptor passes on. */
  function Intercepted(tenantId: string, bypass: bool, model: Model, op: Operation, q: Query): Query {
    if tenantId == "" || bypass || model.Unscoped? then q else Scope(q, tenantId, op)
  }

  /** On every scoped model, whatever a tenant's caller asks to read, update or delete, the clause
      that is passed on lets through exactly the tenant's rows among those asked for. */
  lemma PassedWhereIsExact(tenantId: string, bypass: bool, model: Model, op: Operation, q: Query, row: Data)
    requires tenantId != "" && !bypass && !model.Unscoped?
    requires !op.Create? && !op.CreateMany? && !op.Unlisted?
    ensures var passed := Intercepted(tenantId, bypass, model, op, q);
            && (Matches(passed.where_, row) <==> Matches(q.where_, row) && Get(row, TenantId) == Some(tenantId))
            && passed.data == q.data && passed.update == q.update
  {
    MergeIsExact(q.where_, tenantId, row);
  }

  /** Every column is as given, and the tenant is the caller's if none is given. */
  ghost predicate Tagged(given: Option<Data>, passed: Option<Data>, tenantId: string) {
    && passed.Some?
    && (forall c :: c != TenantId ==> Get(passed.value, c) == if given.Some? then Get(given.value, c) else None)
    && Get(passed.value, TenantId) ==
         Some(if given.Some? && TenantId in given.value then given.value[TenantId] else tenantId)
  }

  /** And whatever it inserts is passed on with its columns, and with a tenant. */
  lemma PassedRowsHaveATenant(tenantId: string, bypass: bool, model: Model, op: Operation, q: Query)
    requires tenantId != "" && !bypass && !model.Unscoped?
    ensures var passed := Intercepted(tenantId, bypass, model, op, q);
            && (op.Create? ==> Tagged(q.data, passed.data, tenantId))
            && (op.Upsert? ==> Tagged(q.create, passed.create, tenantId))
            && (op.CreateMany? && q.dataList.Some? ==>
                  && passed.dataList.Some? && |passed.dataList.value| == |q.dataList.value|
                  && forall i :: 0 <= i < |q.dataList.value| ==>
                       Tagged(Some(q.dataList.value[i]), Some(passed.dataList.value[i]), tenantId))
  {
    var passed := Intercepted(tenantId, bypass, model, op, q);
    if op.CreateMany? && q.dataList.Some? {
      forall i | 0 <= i < |q.dataList.value|
        ensures Tagged(Some(q.dataList.value[i]), Some(passed.dataList.value[i]), tenantId)
      {
        assert passed.dataList.value[i] == WithTenant(Some(q.dataList.value[i]), tenantId);
      }
    }
  }

  const NOTHING := Query(None, None, None, None, None)

  /** The arguments of a call, which the interceptor rewrites in place. */
  class Args {
    var where_: Option<Where>
    var data: Option<Data>
    var dataList: Option<seq<Data>>
    var create: Option<Data>
    var update: Option<Data>

    ghost function View(): Query
      reads this
    {
      Query(where_, data, dataList, create, update)
    }

    constructor ()
      ensures View() == NOTHING
    {
      where_, data, dataList, create, update := None, None, None, None, None;
    }

    method Rewrite(tenantId: string, op: Operation)
      modifies this
      ensures View() == Scope(old(View()), tenantId, op)
    {
      if TakesWhere(op) {
        where_ := MergeTenantWhere(where_, tenantId);
      }
      if op.Create? {
        data := Some(WithTenant(data, tenantId));
      }
      if op.CreateMany? && dataList.Some? {
        dataList := Some(AllWithTenant(dataList.value, tenantId));
      }
      if op.Upsert? {
        create := Some(WithTenant(create, tenantId));
      }
    }
  }

  /** Without a tenant, under a bypass, or on another model, the arguments pass as they are. */
  method ApplyTenantScope(tenantId: string, bypass: bool, model: Model, op: Operation, args: Args?)
    returns (passed: Args?)
    modifies args
    ensures tenantId == "" || bypass || model.Unscoped? ==>
              passed == args && (args != null ==> args.View() == old(args.View()))
    ensures tenantId != "" && !bypass && !model.Unscoped? ==>
              && passed != null && (if args == null then fresh(passed) else passed == args)
              && passed.View() ==
                   Intercepted(tenantId, bypass, model, op, if args == null then NOTHING else old(args.View()))
    ensures tenantId != "" && !bypass && !model.Unscoped? && !op.Create? && !op.CreateMany? && !op.Unlisted? ==>
              && passed != null
              && forall row :: Matches(passed.where_, row) <==>
                               Matches(if args == null then None else old(args.where_), row) &&
                               Get(row, TenantId) == Some(tenantId)
  {
    if tenantId == "" || bypass || model.Unscoped? {
      return args;
    }
    var a: Args;
    if args == null { a := new Args(); } else { a := args; }
    ghost var q := a.View();
    a.Rewrite(tenantId, op);
    if !op.Create? && !op.CreateMany? && !op.Unlisted? {
      forall row
        ensures Matches(a.where_, row) <==> Matches(q.where_, row) && Get(row, TenantId) == Some(tenantId)
      {
        PassedWhereIsExact(tenantId, bypass, model, op, q, row);
      }
    }
    return a;
  }

  // ---- A table --------------------------------------------------------------------------

  type Table = map<int, Data>

  function Found(t: Table, w: Option<Where>): Table {
    map id | id in t && Matches(w, t[id]) :: t[id]
  }

  function Overwrite(t: Table, w: Option<Where>, d: Option<Data>): Table {
    map id | id in t :: if Matches(w, t[id]) && d.Some? then t[id] + d.value else t[id]
  }

  /** One statement that inserts rows, all or none: an id already taken, or a row without the
      tenant it requires, refuses it. */
  function Insert(t: Table, ids: seq<int>, rows: seq<Data>): Table {
    if CanInsert(t, ids, rows) then Added(ids, rows) + t else t
  }

  function Added(ids: seq<int>, rows: seq<Data>): Table
    requires |ids| == |rows| && forall i, j :: 0 <= i < j < |ids| ==> ids[i] != ids[j]
  {
    map i | 0 <= i < |ids| :: ids[i] := rows[i]
  }

  predicate CanInsert(t: Table, ids: seq<int>, rows: seq<Data>) {
    && |ids| == |rows|
    && (forall i :: 0 <= i < |ids| ==> ids[i] !in t && TenantId in rows[i])
    && (forall i, j :: 0 <= i < j < |ids| ==> ids[i] != ids[j])
  }

  function RowsOf(q: Query): seq<Data> {
    if q.dataList.Some? then q.dataList.value else if q.data.Some? then [q.data.value] else []
  }

  /** What a query does to the table.  The where clause of a single-row operation names a
      unique column, so that it matches at most one row. */
  function Effect(t: Table, op: Operation, q: Query, ids: seq<int>): Table {
    match op
    case UpdateMany => Overwrite(t, q.where_, q.data)
    case Update => Overwrite(t, q.where_, q.data)
    case DeleteMany => t - Found(t, q.where_).Keys
    case Delete => t - Found(t, q.where_).Keys
    case Create => Insert(t, ids, if q.data.Some? then [q.data.value] else [])
    case CreateMany => Insert(t, ids, RowsOf(q))
    case Upsert =>
      if Found(t, q.where_) != map[] then Overwrite(t, q.where_, q.update)
      else Insert(t, ids, if q.create.Some? then [q.create.value] else [])
    case _ => t
  }

  /** What a caller may learn: the rows that matched, and whether the statement went through. */
  function Answer(t: Table, op: Operation, q: Query, ids: seq<int>): (Table, bool) {
    match op
    case Create => (map[], CanInsert(t, ids, if q.data.Some? then [q.data.value] else []))
    case CreateMany => (map[], CanInsert(t, ids, RowsOf(q)))
    case Upsert =>
      var found := Found(t, q.where_);
      (found, found != map[] || CanInsert(t, ids, if q.create.Some? then [q.create.value] else []))
    case _ => (Found(t, q.where_), true)
  }

  // ---- Between tenants --------------------------------------------------------------------

  /** A call as it reaches the interceptor. */
  datatype Call = Call(
    tenantId: string, bypass: bool, model: Model, op: Operation, query: Query, ids: seq<int>)

  function Passed(c: Call): Query { Intercepted(c.tenantId, c.bypass, c.model, c.op, c.query) }

  /** A listed call in a tenant's context, without bypass, on any scoped model. */
  predicate Guarded(c: Call) {
    c.tenantId != "" && !c.bypass && !c.model.Unscoped? && !c.op.Unlisted?
  }

  function RowsFor(t: Table, tenantId: string): Table {
    map id | id in t && Get(t[id], TenantId) == Some(tenantId) :: t[id]
  }

  predicate NamesNoOther(d: Option<Data>, tenantId: string) {
    d.Some? && TenantId in d.value ==> d.value[TenantId] == tenantId
  }

  /** The data a call writes names no tenant but its own. */
  predicate WritesHome(c: Call) {
    && NamesNoOther(c.query.data, c.tenantId) && NamesNoOther(c.query.create, c.tenantId)
    && NamesNoOther(c.query.update, c.tenantId)
    && (c.query.dataList.Some? ==> forall d :: d in c.query.dataList.value ==> NamesNoOther(Some(d), c.tenantId))
  }

  predicate Proper(c: Call) {
    Guarded(c) && WritesHome(c)
  }

  function Step(t: Table, c: Call): Table {
    Effect(t, c.op, Passed(c), c.ids)
  }

  /** No new row takes the id of another tenant's. */
  predicate NoClash(t: Table, c: Call) {
    forall i :: 0 <= i < |c.ids| && c.ids[i] in t ==> Get(t[c.ids[i]], TenantId) == Some(c.tenantId)
  }

  lemma FoundIsOwn(t: Table, w: Option<Where>, tenantId: string)
    requires tenantId != ""
    ensures Found(t, MergeTenantWhere(w, tenantId)) == Found(RowsFor(t, tenantId), w)
  {
    forall id | id in t
      ensures id in Found(t, MergeTenantWhere(w, tenantId)) <==> id in Found(RowsFor(t, tenantId), w)
    {
      MergeIsExact(w, tenantId, t[id]);
    }
  }

  lemma OverwriteStaysHome(t: Table, w: Option<Where>, d: Option<Data>, tenantId: string, who: string)
    requires tenantId != "" && NamesNoOther(d, tenantId)
    ensures var t' := Overwrite(t, MergeTenantWhere(w, tenantId), d);
            RowsFor(t', who) == if who == tenantId then Overwrite(RowsFor(t, who), w, d) else RowsFor(t, who)
  {
    var t' := Overwrite(t, MergeTenantWhere(w, tenantId), d);
    var expected := if who == tenantId then Overwrite(RowsFor(t, who), w, d) else RowsFor(t, who);
    forall id | id in t
      ensures id in RowsFor(t', who) <==> id in expected
      ensures id in expected ==> RowsFor(t', who)[id] == expected[id]
    {
      MergeIsExact(w, tenantId, t[id]);
      assert Get(t'[id], TenantId) == Get(t[id], TenantId);
    }
  }

  lemma DeleteStaysHome(t: Table, w: Option<Where>, tenantId: string, who: string)
    requires tenantId != ""
    ensures var t' := t - Found(t, MergeTenantWhere(w, tenantId)).Keys; var mine := RowsFor(t, who);
            RowsFor(t', who) == if who == tenantId then mine - Found(mine, w).Keys else mine
  {
    FoundIsOwn(t, w, tenantId);
  }

  /** Rows that are all of one tenant. */
  predicate AllOf(rows: seq<Data>, tenantId: string) {
    forall i :: 0 <= i < |rows| && TenantId in rows[i] ==> rows[i][TenantId] == tenantId
  }

  lemma InsertIntoOwn(t: Table, ids: seq<int>, rows: seq<Data>, tenantId: string)
    requires AllOf(rows, tenantId) && forall i :: 0 <= i < |ids| && ids[i] in t ==>
              Get(t[ids[i]], TenantId) == Some(tenantId)
    ensures var mine := RowsFor(t, tenantId);
            && (CanInsert(t, ids, rows) <==> CanInsert(mine, ids, rows))
            && RowsFor(Insert(t, ids, rows), tenantId) == Insert(mine, ids, rows)
  {
    var mine := RowsFor(t, tenantId);
    assert forall i :: 0 <= i < |ids| ==> (ids[i] in t <==> ids[i] in mine);
    if CanInsert(t, ids, rows) {
      var added := Added(ids, rows);
      assert RowsFor(added, tenantId) == added;
      assert RowsFor(added + t, tenantId) == added + mine;
    }
  }

  lemma InsertBesideOthers(t: Table, ids: seq<int>, rows: seq<Data>, tenantId: string, who: string)
    requires AllOf(rows, tenantId) && who != tenantId
    ensures RowsFor(Insert(t, ids, rows), who) == RowsFor(t, who)
  {
    if CanInsert(t, ids, rows) {
      var added := Added(ids, rows);
      assert RowsFor(added, who) == map[];
      assert RowsFor(added + t, who) == RowsFor(t, who);
    }
  }

  /** The rows a scoped call inserts. */
  function Inserted(c: Call): seq<Data>
    requires Guarded(c)
  {
    var q := Passed(c);
    match c.op
    case Create => [q.data.value]
    case CreateMany => RowsOf(q)
    case Upsert => [q.create.value]
    case _ => []
  }

  lemma InsertedIsHome(c: Call)
    requires Proper(c)
    ensures AllOf(Inserted(c), c.tenantId)
  {}

  /** A call never changes another tenant's rows. */
  lemma StepLeavesOthers(t: Table, c: Call, who: string)
    requires Proper(c) && who != c.tenantId
    ensures RowsFor(Step(t, c), who) == RowsFor(t, who)
  {
    InsertedIsHome(c);
    match c.op
    case UpdateMany => OverwriteStaysHome(t, c.query.where_, c.query.data, c.tenantId, who);
    case Update => OverwriteStaysHome(t, c.query.where_, c.query.data, c.tenantId, who);
    case DeleteMany => DeleteStaysHome(t, c.query.where_, c.tenantId, who);
    case Delete => DeleteStaysHome(t, c.query.where_, c.tenantId, who);
    case Create => InsertBesideOthers(t, c.ids, Inserted(c), c.tenantId, who);
    case CreateMany => InsertBesideOthers(t, c.ids, Inserted(c), c.tenantId, who);
    case Upsert =>
      OverwriteStaysHome(t, c.query.where_, c.query.update, c.tenantId, who);
      InsertBesideOthers(t, c.ids, Inserted(c), c.tenantId, who);
    case _ =>
  }

  /** What a call does to its tenant's rows, and answers, depends on those rows alone. */
  lemma StepUsesOwnRows(t: Table, c: Call)
    requires Proper(c) && NoClash(t, c)
    ensures var mine := RowsFor(t, c.tenantId);
            && RowsFor(Step(t, c), c.tenantId) ==
                 Effect(mine, c.op, Passed(c).(where_ := c.query.where_), c.ids)
            && Answer(t, c.op, Passed(c), c.ids) ==
                 Answer(mine, c.op, Passed(c).(where_ := c.query.where_), c.ids)
  {
    InsertedIsHome(c);
    FoundIsOwn(t, c.query.where_, c.tenantId);
    match c.op
    case UpdateMany => OverwriteStaysHome(t, c.query.where_, c.query.data, c.tenantId, c.tenantId);
    case Update => OverwriteStaysHome(t, c.query.where_, c.query.data, c.tenantId, c.tenantId);
    case DeleteMany => DeleteStaysHome(t, c.query.where_, c.tenantId, c.tenantId);
    case Delete => DeleteStaysHome(t, c.query.where_, c.tenantId, c.tenantId);
    case Create => InsertIntoOwn(t, c.ids, Inserted(c), c.tenantId);
    case CreateMany => InsertIntoOwn(t, c.ids, Inserted(c), c.tenantId);
    case Upsert =>
      OverwriteStaysHome(t, c.query.where_, c.query.update, c.tenantId, c.tenantId);
      InsertIntoOwn(t, c.ids, Inserted(c), c.tenantId);
    case _ =>
  }

  function Final(start: Table, run: seq<Call>): Table
    decreases |run|
  {
    if run == [] then start else Final(Step(start, run[0]), run[1..])
  }

  function Only(run: seq<Call>, tenantId: string): seq<Call> {
    if run == [] then []
    else (if run[0].tenantId == tenantId then [run[0]] else []) + Only(run[1..], tenantId)
  }

  ghost predicate NeverClashes(start: Table, run: seq<Call>)
    decreases |run|
  {
    run != [] ==> NoClash(start, run[0]) && NeverClashes(Step(start, run[0]), run[1..])
  }

  lemma OwnRowsOnly(t: Table, tenantId: string)
    ensures RowsFor(RowsFor(t, tenantId), tenantId) == RowsFor(t, tenantId)
  {}

  /** Non-interference: what a tenant sees after a run is what it would see had the other
      tenants never been there. */
  lemma {:induction false} TenantsDoNotInterfere(start: Table, alone: Table, run: seq<Call>, tenantId: string)
    requires forall c :: c in run ==> Proper(c)
    requires NeverClashes(start, run)
    requires RowsFor(start, tenantId) == alone
    ensures RowsFor(Final(start, run), tenantId) == Final(alone, Only(run, tenantId))
    decreases |run|
  {
    if run != [] {
      var c, start' := run[0], Step(start, run[0]);
      assert c in run && forall d :: d in run[1..] ==> d in run;
      if c.tenantId == tenantId {
        StepUsesOwnRows(start, c);
        OwnRowsOnly(start, tenantId);
        StepUsesOwnRows(alone, c);
        AloneStays(alone, c);
        assert RowsFor(Step(alone, c), tenantId) == Step(alone, c);
        assert Only(run, tenantId)[0] == c && Only(run, tenantId)[1..] == Only(run[1..], tenantId);
        TenantsDoNotInterfere(start', Step(alone, c), run[1..], tenantId);
      } else {
        StepLeavesOthers(start, c, tenantId);
        assert Only(run, tenantId) == Only(run[1..], tenantId);
        TenantsDoNotInterfere(start', alone, run[1..], tenantId);
      }
    }
  }

  predicate AllOwn(t: Table, tenantId: string) {
    forall id :: id in t ==> Get(t[id], TenantId) == Some(tenantId)
  }

  /** A table of one tenant's rows stays one. */
  lemma AloneStays(alone: Table, c: Call)
    requires Proper(c) && AllOwn(alone, c.tenantId)
    ensures AllOwn(Step(alone, c), c.tenantId)
  {
    InsertedIsHome(c);
    match c.op
    case Create => InsertKeepsOwn(alone, c.ids, Inserted(c), c.tenantId);
    case CreateMany => InsertKeepsOwn(alone, c.ids, Inserted(c), c.tenantId);
    case Upsert => InsertKeepsOwn(alone, c.ids, Inserted(c), c.tenantId);
    case _ =>
  }

  lemma InsertKeepsOwn(t: Table, ids: seq<int>, rows: seq<Data>, tenantId: string)
    requires AllOwn(t, tenantId) && AllOf(rows, tenantId)
    ensures AllOwn(Insert(t, ids, rows), tenantId)
  {}

  /** The answers too: a call is answered from its own tenant's rows. */
  lemma AnswersDoNotInterfere(start: Table, run: seq<Call>, c: Call)
    requires (forall d :: d in run ==> Proper(d)) && Proper(c)
    requires NeverClashes(start, run) && NoClash(Final(start, run), c)
    ensures var alone := Final(RowsFor(start, c.tenantId), Only(run, c.tenantId));
            var q := Passed(c);
            Answer(Final(start, run), c.op, q, c.ids) == Answer(alone, c.op, q, c.ids)
  {
    OwnRowsOnly(start, c.tenantId);
    TenantsDoNotInterfere(start, RowsFor(start, c.tenantId), run, c.tenantId);
    var alone := Final(RowsFor(start, c.tenantId), Only(run, c.tenantId));
    OwnRowsOnly(Final(start, run), c.tenantId);
    StepUsesOwnRows(Final(start, run), c);
    StepUsesOwnRows(alone, c);
  }

  // ---- Exactly when a call stays at home ------------------------------------------------------

  /** The data a call gives for the rows it inserts. */
  function Given(c: Call): seq<Data> {
    match c.op
    case Create => [if c.query.data.Some? then c.query.data.value else map[]]
    case CreateMany => RowsOf(c.query)
    case Upsert => [if c.query.create.Some? then c.query.create.value else map[]]
    case _ => []
  }

  /** The ids are new and there is one for each row; and a row that the interceptor does not
      see, given to createMany on its own, names a tenant itself. */
  predicate GetsIn(t: Table, c: Call) {
    && |c.ids| == |Given(c)| && (forall i :: 0 <= i < |c.ids| ==> c.ids[i] !in t)
    && (forall i, j :: 0 <= i < j < |c.ids| ==> c.ids[i] != c.ids[j])
    && (c.op.CreateMany? && c.query.dataList.None? ==> forall i :: 0 <= i < |Given(c)| ==> TenantId in Given(c)[i])
  }

  predicate GivesHome(c: Call) {
    forall i :: 0 <= i < |Given(c)| ==> NamesNoOther(Some(Given(c)[i]), c.tenantId)
  }

  /** The data of the rows a call actually writes, matched or inserted, names no other tenant:
      what an update does not match and what an insert does not get in is not written. */
  predicate WritesOwnRows(t: Table, c: Call) {
    var mine := RowsFor(t, c.tenantId);
    match c.op
    case UpdateMany => Found(mine, c.query.where_) == map[] || NamesNoOther(c.query.data, c.tenantId)
    case Update => Found(mine, c.query.where_) == map[] || NamesNoOther(c.query.data, c.tenantId)
    case Create => GetsIn(t, c) ==> GivesHome(c)
    case CreateMany => GetsIn(t, c) ==> GivesHome(c)
    case Upsert =>
      if Found(mine, c.query.where_) != map[] then NamesNoOther(c.query.update, c.tenantId)
      else GetsIn(t, c) ==> GivesHome(c)
    case _ => true
  }

  predicate AllName(rows: seq<Data>, tenantId: string) {
    forall i :: 0 <= i < |rows| ==> TenantId in rows[i] && rows[i][TenantId] == tenantId
  }

  /** What gets in, and whose it is, in terms of what was given. */
  lemma InsertsWhatIsGiven(t: Table, c: Call)
    requires Guarded(c) && (c.op.Create? || c.op.CreateMany? || c.op.Upsert?)
    ensures CanInsert(t, c.ids, Inserted(c)) <==> GetsIn(t, c)
    ensures GetsIn(t, c) ==> (AllName(Inserted(c), c.tenantId) <==> GivesHome(c))
  {
    assert |Inserted(c)| == |Given(c)|;
    forall i | 0 <= i < |Given(c)|
      ensures TenantId in Given(c)[i] ==> Inserted(c)[i] == Given(c)[i]
      ensures TenantId !in Given(c)[i] && !(c.op.CreateMany? && c.query.dataList.None?) ==>
                Inserted(c)[i] == Given(c)[i][TenantId := c.tenantId]
    {}
  }

  ghost predicate LeavesOthers(t: Table, t': Table, tenantId: string) {
    forall who :: who != tenantId ==> RowsFor(t', who) == RowsFor(t, who)
  }

  lemma ARow(t: Table) returns (id: int)
    requires t != map[]
    ensures id in t
  {
    assert (forall i :: i !in t) ==> t == map[];
    id :| id in t;
  }

  lemma OverwriteLeavesOthersIff(t: Table, w: Option<Where>, d: Option<Data>, tenantId: string)
    requires tenantId != ""
    ensures LeavesOthers(t, Overwrite(t, MergeTenantWhere(w, tenantId), d), tenantId) <==>
              Found(RowsFor(t, tenantId), w) == map[] || NamesNoOther(d, tenantId)
  {
    var merged := MergeTenantWhere(w, tenantId);
    var t', found := Overwrite(t, merged, d), Found(RowsFor(t, tenantId), w);
    FoundIsOwn(t, w, tenantId);
    if NamesNoOther(d, tenantId) {
      forall who | who != tenantId ensures RowsFor(t', who) == RowsFor(t, who) {
        OverwriteStaysHome(t, w, d, tenantId, who);
      }
    } else if found == map[] {
      assert forall id :: id in t ==> id !in Found(t, merged);
      assert t' == t;
    } else {
      var id := ARow(found);
      var who := d.value[TenantId];
      assert id in t && Matches(merged, t[id]) && t'[id] == t[id] + d.value;
      assert Get(t'[id], TenantId) == Some(who) && Get(t[id], TenantId) == Some(tenantId);
      assert id in RowsFor(t', who) && id !in RowsFor(t, who);
    }
  }

  lemma InsertLeavesOthersIff(t: Table, ids: seq<int>, rows: seq<Data>, tenantId: string)
    ensures LeavesOthers(t, Insert(t, ids, rows), tenantId) <==> (CanInsert(t, ids, rows) ==> AllName(rows, tenantId))
  {
    if CanInsert(t, ids, rows) {
      if AllName(rows, tenantId) {
        forall who | who != tenantId ensures RowsFor(Insert(t, ids, rows), who) == RowsFor(t, who) {
          InsertBesideOthers(t, ids, rows, tenantId, who);
        }
      } else {
        var i :| 0 <= i < |rows| && !(TenantId in rows[i] && rows[i][TenantId] == tenantId);
        var id, who := ids[i], rows[i][TenantId];
        assert id in Added(ids, rows) && Added(ids, rows)[id] == rows[i];
        assert id in RowsFor(Insert(t, ids, rows), who) && id !in RowsFor(t, who);
      }
    }
  }

  /** For every listed operation on every scoped model: the rows of all other tenants stay as
      they are if and only if the data of every row the call actually writes names no other. */
  lemma StaysHomeIff(t: Table, c: Call)
    requires Guarded(c)
    ensures LeavesOthers(t, Step(t, c), c.tenantId) <==> WritesOwnRows(t, c)
  {
    FoundIsOwn(t, c.query.where_, c.tenantId);
    match c.op
    case UpdateMany => OverwriteLeavesOthersIff(t, c.query.where_, c.query.data, c.tenantId);
    case Update => OverwriteLeavesOthersIff(t, c.query.where_, c.query.data, c.tenantId);
    case DeleteMany => DeleteLeavesOthers(t, c.query.where_, c.tenantId);
    case Delete => DeleteLeavesOthers(t, c.query.where_, c.tenantId);
    case Create => InsertStaysHomeIff(t, c);
    case CreateMany => InsertStaysHomeIff(t, c);
    case Upsert =>
      if Found(t, Passed(c).where_) != map[] {
        OverwriteLeavesOthersIff(t, c.query.where_, c.query.update, c.tenantId);
      } else {
        InsertStaysHomeIff(t, c);
      }
    case _ =>
  }

  lemma InsertStaysHomeIff(t: Table, c: Call)
    requires Guarded(c) && (c.op.Create? || c.op.CreateMany? || c.op.Upsert?)
    ensures LeavesOthers(t, Insert(t, c.ids, Inserted(c)), c.tenantId) <==> (GetsIn(t, c) ==> GivesHome(c))
  {
    InsertsWhatIsGiven(t, c);
    InsertLeavesOthersIff(t, c.ids, Inserted(c), c.tenantId);
  }

  lemma DeleteLeavesOthers(t: Table, w: Option<Where>, tenantId: string)
    requires tenantId != ""
    ensures LeavesOthers(t, t - Found(t, MergeTenantWhere(w, tenantId)).Keys, tenantId)
  {
    forall who | who != tenantId
      ensures RowsFor(t - Found(t, MergeTenantWhere(w, tenantId)).Keys, who) == RowsFor(t, who)
    {
      DeleteStaysHome(t, w, tenantId, who);
    }
  }

  /** A tenant named in the data of an update is written as given: a matched row moves to it. */
  lemma UpdateMovesRows(t: Table, c: Call, id: int, other: string)
    requires Guarded(c) && (c.op.Update? || c.op.UpdateMany?) &&
              id in Found(RowsFor(t, c.tenantId), c.query.where_)
    requires c.query.data.Some? && TenantId in c.query.data.value && c.query.data.value[TenantId] == other != c.tenantId
    ensures id in RowsFor(Step(t, c), other) && id !in RowsFor(t, other)
  {
    FoundIsOwn(t, c.query.where_, c.tenantId);
    assert id in Found(t, MergeTenantWhere(c.query.where_, c.tenantId));
    assert Step(t, c)[id] == t[id] + c.query.data.value;
  }

  lemma InsertedAsGiven(c: Call, j: nat)
    requires Proper(c) && (c.op.Create? || (c.op.CreateMany? && c.query.dataList.Some?) || c.op.Upsert?)
    requires j < |Given(c)|
    ensures |Inserted(c)| == |Given(c)|
    ensures TenantId in Inserted(c)[j] && Inserted(c)[j] == Given(c)[j][TenantId := c.tenantId]
  {
    var d := Given(c)[j];
    if c.op.CreateMany? {
      assert d in c.query.dataList.value;
      assert NamesNoOther(Some(d), c.tenantId);
    }
    if TenantId in d { assert d[TenantId := c.tenantId] == d; }
  }

  lemma StepInserts(t: Table, c: Call)
    requires Guarded(c) && (c.op.Create? || (c.op.CreateMany? && c.query.dataList.Some?) || c.op.Upsert?)
    requires c.op.Upsert? ==> Found(RowsFor(t, c.tenantId), c.query.where_) == map[]
    ensures Step(t, c) == Insert(t, c.ids, Inserted(c))
  {
    FoundIsOwn(t, c.query.where_, c.tenantId);
  }

  lemma InsertedIsThere(t: Table, ids: seq<int>, rows: seq<Data>, i: nat)
    requires CanInsert(t, ids, rows) && i < |ids|
    ensures var mine := RowsFor(Insert(t, ids, rows), rows[i][TenantId]); ids[i] in mine && mine[ids[i]] == rows[i]
  {
    assert ids[i] in Added(ids, rows) && Added(ids, rows)[ids[i]] == rows[i];
  }

  /** What a call inserts under new ids are its own tenant's rows, with the data as given. */
  lemma InsertsItsOwnRows(t: Table, c: Call, i: nat)
    requires Proper(c) && (c.op.Create? || (c.op.CreateMany? && c.query.dataList.Some?) || c.op.Upsert?)
    requires c.op.Upsert? ==> Found(RowsFor(t, c.tenantId), c.query.where_) == map[]
    requires |c.ids| == |Given(c)| && forall j, k :: 0 <= j < k < |c.ids| ==> c.ids[j] != c.ids[k]
    requires (forall j :: 0 <= j < |c.ids| ==> c.ids[j] !in t) && i < |c.ids|
    ensures var mine := RowsFor(Step(t, c), c.tenantId);
            c.ids[i] in mine && mine[c.ids[i]] == Given(c)[i][TenantId := c.tenantId]
  {
    InsertedAsGiven(c, i);
    forall j | 0 <= j < |c.ids| ensures TenantId in Inserted(c)[j] { InsertedAsGiven(c, j); }
    StepInserts(t, c);
    InsertedIsThere(t, c.ids, Inserted(c), i);
  }
}
