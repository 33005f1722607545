/** The loops of a push, statement by statement, in a transaction that any statement may abort. */
module PushTransaction {
  import opened Prelude
  import opened Text
  import opened Push

  datatype Summary = Summary(
    sqlFilesExecuted: nat, synthesizedHandlers: nat, templatesUpserted: nat, routesUpserted: nat,
    routesDeleted: nat, templatesDeleted: nat, handlersDropped: nat, assetsUpserted: nat, assetsDeleted: nat)

  /** A statement the database refuses, by its number within the transaction. */
  datatype Failure = Failure(statement: nat, error: DbError)

  /** The committed tables, and the reload notifications sent to listeners. */
  class Database {
    var tables: Tables
    var reloads: nat

    constructor (tables: Tables)
      ensures this.tables == tables && reloads == 0
    {
      this.tables, reloads := tables, 0;
    }
  }

  predicate HasSql(e: Entry) { e.sql.Some? }

  predicate IsStatic(e: Entry) { e.sql.None? && e.template.Some? }

  predicate HasTemplate(e: Entry) { e.template.Some? }

  function CountWhere(entries: seq<Entry>, p: Entry -> bool): nat {
    if entries == [] then 0
    else
      var n := |entries| - 1;
      CountWhere(entries[..n], p) + (if p(entries[n]) then 1 else 0)
  }

  function SummaryOfEntries(entries: seq<Entry>): Summary {
    Summary(CountWhere(entries, HasSql), CountWhere(entries, IsStatic), CountWhere(entries, HasTemplate), |entries|,
            0, 0, 0, 0, 0)
  }

  /** What a push reports: files run, rows written, and rows that the tree no longer has. */
  function SummaryOf(t: Tables, plan: Plan): Summary {
    var applied, pushed := Applied(t, plan, plan.app.entries), Pushed(t, plan);
    var assets := UpsertAll(t.assets, AssetUpserts(plan.Assets()));
    SummaryOfEntries(plan.app.entries).(
      routesDeleted := Gone(applied.routes, pushed.routes),
      templatesDeleted := Gone(applied.templates, pushed.templates),
      handlersDropped := Gone(applied.functions, pushed.functions),
      assetsUpserted := |plan.Assets()|,
      assetsDeleted := Gone(assets, pushed.assets))
  }

  lemma CountNext(entries: seq<Entry>, i: nat)
    requires i < |entries|
    ensures forall p: Entry -> bool ::
              CountWhere(entries[..i + 1], p) == CountWhere(entries[..i], p) + (if p(entries[i]) then 1 else 0)
  {
    assert entries[..i + 1][..i] == entries[..i];
  }

  /** How many rows a deletion took. */
  function Gone<K, V>(before: map<K, V>, after: map<K, V>): nat {
    if |after| <= |before| then |before| - |after| else 0
  }

  lemma RemoveOne<K, V>(m: map<K, V>, k: K)
    requires k in m
    ensures |m - {k}| == |m| - 1
  {
    assert (m - {k}).Keys == m.Keys - {k};
    assert |m.Keys - {k}| == |m.Keys| - 1;
  }

  /** The transaction's own view of the tables. */
  class Transaction {
    var tables: Tables
    var statements: nat
    const failure: Option<Failure>

    constructor (db: Database, failure: Option<Failure>)
      ensures tables == db.tables && this.failure == failure
    {
      tables, statements := db.tables, 0;
      this.failure := failure;
    }

    /** The only error a statement itself can produce. */
    predicate IsDbFailure(e: PushError) {
      failure.Some? && e == Db(failure.value.error)
    }

    /** One statement that would leave the tables as `after`. */
    method Execute(after: Tables) returns (r: Result<(), PushError>)
      modifies this
      ensures r.Ok? ==> tables == after
      ensures r.Err? ==> IsDbFailure(r.error) && tables == old(tables)
    {
      if failure.Some? && failure.value.statement == statements {
        return Err(Db(failure.value.error));
      }
      statements := statements + 1;
      tables := after;
      return Ok(());
    }

    method ApplyEntry(plan: Plan, entry: Entry, summary: Summary) returns (r: Result<Summary, PushError>)
      modifies this
      ensures r.Err? ==> IsDbFailure(r.error)
      ensures r.Ok? ==>
                tables == old(tables).(
                  functions := old(tables.functions) + Definitions(entry),
                  templates := UpsertAll(old(tables.templates), TemplateUpserts([entry], plan)),
                  routes := old(tables.routes)[entry.Key() := entry.Value()])
      ensures r.Ok? ==>
                r.value == summary.(
                  sqlFilesExecuted := summary.sqlFilesExecuted + (if HasSql(entry) then 1 else 0),
                  synthesizedHandlers := summary.synthesizedHandlers + (if IsStatic(entry) then 1 else 0),
                  templatesUpserted := summary.templatesUpserted + (if HasTemplate(entry) then 1 else 0),
                  routesUpserted := summary.routesUpserted + 1)
    {
      var s := summary;
      if entry.sql.Some? {
        var _ :- Execute(tables.(functions := tables.functions + entry.sql.value));
        s := s.(sqlFilesExecuted := s.sqlFilesExecuted + 1);
      } else if entry.template.Some? {
        var _ :- Execute(tables.(functions := tables.functions + Synthesized(entry.handlerName)));
        s := s.(synthesizedHandlers := s.synthesizedHandlers + 1);
      }
      OneTemplate(entry, plan, old(tables.templates));
      if entry.template.Some? {
        var t := entry.template.value;
        var content := plan.ContentOf(t.html);
        var _ :- Execute(tables.(templates := tables.templates[t.path := content]));
        s := s.(templatesUpserted := s.templatesUpserted + 1);
      }
      var _ :- Execute(tables.(routes := tables.routes[entry.Key() := entry.Value()]));
      s := s.(routesUpserted := s.routesUpserted + 1);
      return Ok(s);
    }

    method ValidateHandler(entry: Entry) returns (r: Result<(), PushError>)
      modifies this
      ensures tables == old(tables)
      ensures r.Ok? ==> HandlerFault(tables.functions, entry) == None
      ensures r.Err? ==> IsDbFailure(r.error) || HandlerFault(tables.functions, entry) == Some(r.error)
    {
      var proname := ProName(entry.handlerName);
      if proname.None? {
        return Err(NotInSchema(entry.handlerName));
      }
      var q := Execute(tables);
      if q.Err? {
        return Err(q.error);
      }
      var rows := Overloads(tables.functions, proname.value);
      if rows == {} {
        return Err(HandlerNotFound(entry.handlerName));
      }
      if |rows| > 1 {
        return Err(SeveralRows(entry.handlerName));
      }
      var row :| row in rows;
      assert rows == {row} by { assert |rows - {row}| == 0; }
      var sig := tables.functions[row];
      if !TakesReqJson(row, sig) {
        return Err(BadArguments(entry.handlerName));
      }
      var ok := if entry.template.Some? then sig.result == "json" else sig.result == "json" || sig.result == "text";
      if !ok {
        return Err(BadReturn(entry.handlerName));
      }
      return Ok(());
    }

    method DeleteRoutes(expected: set<RouteKey>) returns (r: Result<nat, PushError>)
      modifies this
      ensures r.Err? ==> IsDbFailure(r.error)
      ensures r.Ok? ==> tables == old(tables).(routes := ReconciledRoutes(old(tables.routes), expected))
                        && r.value == Gone(old(tables.routes), tables.routes)
    {
      var _ :- Execute(tables);
      var rows := tables.routes;
      var deleted := 0;
      var todo := rows.Keys;
      while todo != {}
        invariant todo <= rows.Keys
        invariant tables == old(tables).(routes := tables.routes)
        invariant tables.routes
                  == map k | k in rows && (k in todo || k in expected || IsDefaultRoute(rows[k])) :: rows[k]
        invariant deleted == |rows| - |tables.routes|
        decreases todo
      {
        var k :| k in todo;
        todo := todo - {k};
        if k !in expected {
          if IsDefaultRoute(rows[k]) {
            continue;
          }
          RemoveOne(tables.routes, k);
          var _ :- Execute(tables.(routes := tables.routes - {k}));
          deleted := deleted + 1;
        }
      }
      return Ok(deleted);
    }

    method DeleteTemplates(expected: set<string>) returns (r: Result<nat, PushError>)
      modifies this
      ensures r.Err? ==> IsDbFailure(r.error)
      ensures r.Ok? ==> tables == old(tables).(templates := Reconciled(old(tables.templates), expected))
                        && r.value == Gone(old(tables.templates), tables.templates)
    {
      var _ :- Execute(tables);
      var rows := tables.templates;
      var deleted := 0;
      var todo := rows.Keys;
      while todo != {}
        invariant todo <= rows.Keys
        invariant tables == old(tables).(templates := tables.templates)
        invariant tables.templates == map k | k in rows && (k in todo || k in expected) :: rows[k]
        invariant deleted == |rows| - |tables.templates|
        decreases todo
      {
        var k :| k in todo;
        todo := todo - {k};
        if k !in expected {
          RemoveOne(tables.templates, k);
          var _ :- Execute(tables.(templates := tables.templates - {k}));
          deleted := deleted + 1;
        }
      }
      return Ok(deleted);
    }

    method DropHandlers(expected: set<string>) returns (r: Result<nat, PushError>)
      modifies this
      ensures r.Err? ==> IsDbFailure(r.error)
      ensures r.Ok? ==> tables == old(tables).(functions := ReconciledFunctions(old(tables.functions), expected))
                        && r.value == Gone(old(tables.functions), tables.functions)
    {
      var _ :- Execute(tables);
      var functions := tables.functions;
      var rows := set id | id in functions && IsReserved(id, functions[id]);
      var dropped := 0;
      var todo := rows;
      while todo != {}
        invariant todo <= rows
        invariant tables == old(tables).(functions := tables.functions)
        invariant tables.functions
                  == map id | id in functions && (id in todo || !IsStaleHandler(id, functions[id], expected))
                       :: functions[id]
        invariant dropped == |functions| - |tables.functions|
        decreases todo
      {
        var id :| id in todo;
        todo := todo - {id};
        var proname := id.name;
        if !IsSafeProName(proname) {
          continue;
        }
        if SCHEMA + proname !in expected {
          var target := FnId(proname, ["json"]);
          RemoveOne(tables.functions, target);
          var _ :- Execute(tables.(functions := tables.functions - {target}));
          dropped := dropped + 1;
        }
      }
      return Ok(dropped);
    }

    method UpsertAssets(assets: seq<Asset>) returns (r: Result<nat, PushError>)
      modifies this
      ensures r.Err? ==> IsDbFailure(r.error)
      ensures r.Ok? ==> tables == old(tables).(assets := UpsertAll(old(tables.assets), AssetUpserts(assets)))
                        && r.value == |assets|
    {
      for i := 0 to |assets|
        invariant tables == old(tables).(assets := UpsertAll(old(tables.assets), AssetUpserts(assets[..i])))
      {
        AssetNext(old(tables.assets), assets, i);
        var _ :- Execute(tables.(assets := tables.assets[assets[i].urlPath := assets[i].value]));
      }
      assert assets[..|assets|] == assets;
      return Ok(|assets|);
    }

    method DeleteAssets(expected: set<string>) returns (r: Result<nat, PushError>)
      modifies this
      ensures r.Err? ==> IsDbFailure(r.error)
      ensures r.Ok? ==> tables == old(tables).(assets := Reconciled(old(tables.assets), expected))
                        && r.value == Gone(old(tables.assets), tables.assets)
    {
      var _ :- Execute(tables);
      var rows := tables.assets;
      var deleted := 0;
      var todo := rows.Keys;
      while todo != {}
        invariant todo <= rows.Keys
        invariant tables == old(tables).(assets := tables.assets)
        invariant tables.assets == map k | k in rows && (k in todo || k in expected) :: rows[k]
        invariant deleted == |rows| - |tables.assets|
        decreases todo
      {
        var k :| k in todo;
        todo := todo - {k};
        if k !in expected {
          RemoveOne(tables.assets, k);
          var _ :- Execute(tables.(assets := tables.assets - {k}));
          deleted := deleted + 1;
        }
      }
      return Ok(deleted);
    }

    method SyncSettings(server: ServerSection) returns (r: Result<(), PushError>)
      modifies this
      ensures r.Err? ==> IsDbFailure(r.error)
      ensures r.Ok? ==> tables == old(tables).(settings := Synced(old(tables.settings), server))
    {
      if server.env.Some? {
        var _ :- Execute(tables.(settings := tables.settings["env" := server.env.value]));
      }
      if server.requestTimeout.Some? {
        var _ :- Execute(tables.(settings := tables.settings["request_timeout" := server.requestTimeout.value]));
      }
      if server.healthEnabled.Some? {
        var _ :- Execute(tables.(settings := tables.settings["health_enabled" := Flag(server.healthEnabled.value)]));
      }
      if server.readinessEnabled.Some? {
        var settings := tables.settings["readiness_enabled" := Flag(server.readinessEnabled.value)];
        var _ :- Execute(tables.(settings := settings));
      }
      return Ok(());
    }

    /** Phase 1 of the attempt. */
    method ApplyEntries(plan: Plan) returns (r: Result<Summary, PushError>)
      modifies this
      ensures r.Err? ==> IsDbFailure(r.error)
      ensures r.Ok? ==> tables == Applied(old(tables), plan, plan.app.entries)
      ensures r.Ok? ==> r.value == SummaryOfEntries(plan.app.entries)
    {
      var entries := plan.app.entries;
      var s := Summary(0, 0, 0, 0, 0, 0, 0, 0, 0);
      AppliedNone(tables, plan);
      for i := 0 to |entries|
        invariant tables == Applied(old(tables), plan, entries[..i])
        invariant s == SummaryOfEntries(entries[..i])
      {
        AppliedNext(old(tables), plan, entries, i);
        CountNext(entries, i);
        s :- ApplyEntry(plan, entries[i], s);
      }
      assert entries[..|entries|] == entries;
      return Ok(s);
    }

    /** Phase 2. */
    method ValidateEntries(entries: seq<Entry>) returns (r: Result<(), PushError>)
      modifies this
      ensures tables == old(tables)
      ensures r.Ok? ==> FirstFault(tables.functions, entries) == None
      ensures r.Err? ==> IsDbFailure(r.error) || FirstFault(tables.functions, entries) == Some(r.error)
    {
      assert entries[0..] == entries;
      for i := 0 to |entries|
        invariant tables == old(tables)
        invariant FirstFault(tables.functions, entries) == FirstFault(tables.functions, entries[i..])
      {
        assert entries[i..][0] == entries[i] && entries[i..][1..] == entries[i + 1..];
        var v := ValidateHandler(entries[i]);
        if v.Err? {
          return Err(v.error);
        }
      }
      return Ok(());
    }

    /** Phases 1 to 5, up to the decision to commit. */
    method RunPhases(plan: Plan) returns (r: Result<Summary, PushError>)
      modifies this
      ensures r.Ok? ==> tables == Pushed(old(tables), plan) && Validates(old(tables), plan)
      ensures r.Ok? ==> r.value == SummaryOf(old(tables), plan)
      ensures r.Err? ==> IsDbFailure(r.error)
                         || FirstFault(DefineAll(old(tables.functions), plan.app.entries), plan.app.entries)
                            == Some(r.error)
    {
      var entries := plan.app.entries;
      var s :- ApplyEntries(plan);
      var v := ValidateEntries(entries);
      if v.Err? {
        return Err(v.error);
      }

      var expectedRoutes := KeysOf(RouteUpserts(entries));
      var expectedTemplates := KeysOf(TemplateUpserts(entries, plan));
      var expectedHandlers := ExpectedHandlers(entries);
      var routesDeleted :- DeleteRoutes(expectedRoutes);
      var templatesDeleted :- DeleteTemplates(expectedTemplates);
      var handlersDropped :- DropHandlers(expectedHandlers);

      var assets := plan.Assets();
      var assetsUpserted :- UpsertAssets(assets);
      var assetsDeleted :- DeleteAssets(KeysOf(AssetUpserts(assets)));
      s := s.(routesDeleted := routesDeleted, templatesDeleted := templatesDeleted, handlersDropped := handlersDropped,
              assetsUpserted := assetsUpserted, assetsDeleted := assetsDeleted);

      var _ :- SyncSettings(plan.app.server);
      var _ :- Execute(tables.(deployments := tables.deployments + [DeploymentOf(plan)]));
      return Ok(s);
    }
  }

  lemma OneTemplate(e: Entry, plan: Plan, templates: map<string, string>)
    ensures UpsertAll(templates, TemplateUpserts([e], plan))
            == (if e.template.Some? then templates[e.template.value.path := plan.ContentOf(e.template.value.html)]
                else templates)
  {
    var upsert := (x: Entry) => TemplateUpsert(plan, x);
    FilterMapAppend(upsert, [], e);
    assert [] + [e] == [e];
    if e.template.Some? {
      UpsertNext(templates, [], upsert(e).value);
      assert [] + [upsert(e).value] == [upsert(e).value];
    }
  }

  lemma AssetNext(old_: map<string, AssetValue>, assets: seq<Asset>, i: nat)
    requires i < |assets|
    ensures UpsertAll(old_, AssetUpserts(assets[..i + 1]))
            == UpsertAll(old_, AssetUpserts(assets[..i]))[assets[i].urlPath := assets[i].value]
  {
    var f := (a: Asset) => (a.urlPath, a.value);
    MapNext(f, assets, i);
    UpsertNext(old_, AssetUpserts(assets[..i]), f(assets[i]));
  }

  /** The tables after the first entries have been applied. */
  function Applied(t: Tables, plan: Plan, entries: seq<Entry>): Tables {
    t.(functions := DefineAll(t.functions, entries),
       templates := UpsertAll(t.templates, TemplateUpserts(entries, plan)),
       routes := UpsertAll(t.routes, RouteUpserts(entries)))
  }

  lemma AppliedNone(t: Tables, plan: Plan)
    ensures Applied(t, plan, []) == t
  {
  }

  lemma AppliedNext(t: Tables, plan: Plan, entries: seq<Entry>, i: nat)
    requires i < |entries|
    ensures var before, after, e := Applied(t, plan, entries[..i]), Applied(t, plan, entries[..i + 1]), entries[i];
            after == before.(
                       functions := before.functions + Definitions(e),
                       templates := UpsertAll(before.templates, TemplateUpserts([e], plan)),
                       routes := before.routes[e.Key() := e.Value()])
  {
    var e, front := entries[i], entries[..i];
    assert entries[..i + 1] == front + [e];
    assert (front + [e])[..i] == front;
    var f := (x: Entry) => (x.Key(), x.Value());
    MapNext(f, entries, i);
    UpsertNext(t.routes, RouteUpserts(front), f(e));
    TemplateNext(t.templates, plan, front, e);
  }

  lemma TemplateNext(templates: map<string, string>, plan: Plan, front: seq<Entry>, e: Entry)
    ensures UpsertAll(templates, TemplateUpserts(front + [e], plan))
            == UpsertAll(UpsertAll(templates, TemplateUpserts(front, plan)), TemplateUpserts([e], plan))
  {
    var upsert := (x: Entry) => TemplateUpsert(plan, x);
    FilterMapAppend(upsert, front, e);
    OneTemplate(e, plan, UpsertAll(templates, TemplateUpserts(front, plan)));
    if e.template.Some? { UpsertNext(templates, TemplateUpserts(front, plan), upsert(e).value); }
    else { assert TemplateUpserts(front, plan) + [] == TemplateUpserts(front, plan); }
  }

  /** One attempt: all of it is committed, together with the reload notification, or none. */
  method PushAttempt(db: Database, plan: Plan, dryRun: bool, failure: Option<Failure>)
    returns (r: Result<Summary, PushError>)
    modifies db
    ensures if r.Ok? && !dryRun then db.tables == Pushed(old(db.tables), plan) && db.reloads == old(db.reloads) + 1
            else db.tables == old(db.tables) && db.reloads == old(db.reloads)
    ensures r.Ok? ==> Validates(old(db.tables), plan) && r.value == SummaryOf(old(db.tables), plan)
    ensures r.Err? ==> (failure.Some? && r.error == Db(failure.value.error))
                       || FirstFault(DefineAll(old(db.tables.functions), plan.app.entries), plan.app.entries)
                          == Some(r.error)
  {
    var tx := new Transaction(db, failure);
    var s :- tx.RunPhases(plan);
    if !dryRun {
      var _ :- tx.Execute(tx.tables);  // COMMIT
      db.tables := tx.tables;
      db.reloads := db.reloads + 1;
    }
    return Ok(s);
  }
}
