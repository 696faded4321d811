/**
 Which workspace a query runs against and which one its schema came from. Readiness of a table speaks of the table's own
 generation only: a later edit of the connection does not unready it.
 */
module HostChange {
  import opened Wrappers
  import opened Text
  import opened QueryContract
  import opened Conditions
  import opened ApiServer
  import opened Resources
  import opened Controllers
  import opened Readiness
  import opened ReadyChain
  import opened QuerySql
  import opened QueryGate

  /* ---- Extending a run ---- */

  lemma {:induction false} RunExtends(w: World, run: seq<Event>, e: Event)
    requires LegalRun(w, run) && Legal(After(w, run), e)
    ensures LegalRun(w, run + [e]) && After(w, run + [e]) == Next(After(w, run), e)
    decreases run
  {
    if run != [] {
      assert (run + [e])[1..] == run[1..] + [e];
      RunExtends(Next(w, run[0]), run[1..], e);
    } else {
      assert run + [e] == [e] && [e][1..] == [];
    }
  }

  lemma ReachableNext(w: World, e: Event)
    requires Reachable(w) && Legal(w, e)
    ensures Reachable(Next(w, e))
  {
    var run :| LegalRun(Init(), run) && After(Init(), run) == w;
    RunExtends(Init(), run, e);
    assert LegalRun(Init(), run + [e]) && After(Init(), run + [e]) == Next(w, e);
  }

  lemma InitReachable()
    ensures Reachable(Init())
  {
    assert LegalRun(Init(), []) && After(Init(), []) == Init();
  }

  /* ---- Making things ready ---- */

  ghost predicate Live<Sp(!new), St(!new)>(s: Store<Sp, St>, v: Version<Sp, St>)
  {
    v.name in s.live && s.live[v.name] == v && !v.deleting
  }

  /** Nothing but connections changed. */
  ghost predicate OnlyConnections(w: World, w': World)
  {
    w' == w.(connections := w'.connections, connectionCommits := w'.connectionCommits)
  }

  /** A reconcile that passes makes a live PAT connection ready, and touches nothing else. */
  lemma ConnectionBecomesReady(w: World, conn: Connection) returns (w': World, ready: Connection)
    requires Reachable(w) && Live(w.connections, conn) && conn.spec.authType == AUTH_PAT
    ensures Reachable(w') && Live(w'.connections, ready) && ConnectionReady(ready)
    ensures ready.spec == conn.spec && ready.name == conn.name && ready.generation == conn.generation
    ensures OnlyConnections(w, w')
  {
    ReachableInv(w);
    assert w.connections.live[conn.name] in w.connections.history;
    var e := ReconcileConnection(conn, Some("token"), Answer(Ok("")));
    ReachableNext(w, e);
    w' := Next(w, e);
    var verdict := Passed("");
    ready := w'.connections.live[conn.name];
    assert ready.status == ConnectionStatusAfter(conn.status, conn.generation, verdict);
    var validated := VerdictCondition(VALIDATED, Healthy, verdict, conn.generation);
    var healthy := VerdictCondition(READY, Healthy, verdict, conn.generation);
    PutThenFind(conn.status.conditions, validated, VALIDATED);
    PutThenFind(Put(conn.status.conditions, validated), healthy, VALIDATED);
    PutThenFind(Put(conn.status.conditions, validated), healthy, READY);
  }

  lemma NewConnectionReady(w: World, name: string, host: string) returns (w': World, ready: Connection)
    requires Reachable(w) && name !in w.connections.live
    ensures Reachable(w') && Live(w'.connections, ready) && ConnectionReady(ready)
    ensures ready.spec == ConnectionSpec(host, AUTH_PAT) && ready.name == name
    ensures OnlyConnections(w, w')
  {
    var e := EditConnection(Create(name, ConnectionSpec(host, AUTH_PAT)));
    ReachableNext(w, e);
    w', ready := ConnectionBecomesReady(Next(w, e), Next(w, e).connections.live[name]);
  }

  /** Pointing a live connection at another host, and validating it there. */
  lemma MovedConnectionReady(w: World, conn: Connection, host: string) returns (w': World, moved: Connection)
    requires Reachable(w) && Live(w.connections, conn) && host != conn.spec.host && conn.spec.authType == AUTH_PAT
    ensures Reachable(w') && Live(w'.connections, moved) && ConnectionReady(moved) && moved.name == conn.name
    ensures moved.spec == conn.spec.(host := host) && moved.generation == conn.generation + 1
    ensures OnlyConnections(w, w')
  {
    var e := EditConnection(Edit(conn.name, conn.spec.(host := host), false, false));
    ReachableNext(w, e);
    w', moved := ConnectionBecomesReady(Next(w, e), Next(w, e).connections.live[conn.name]);
  }

  lemma WarehouseBecomesReady(w: World, name: string, ref: string, conn: Connection)
    returns (w': World, ready: Warehouse)
    requires Reachable(w) && name !in w.warehouses.live
    requires conn in w.connections.history && ConnectionReady(conn) && conn.name == TrimSpace(ref) != ""
    ensures Reachable(w') && Live(w'.warehouses, ready) && ready in w'.warehouses.history && WarehouseReady(ready)
    ensures ready.name == name && ready.spec.connectionRef == ref
    ensures w'.tables == w.tables && w'.connections == w.connections && w'.validations == w.validations
  {
    ReadyConnectionIsPat(w, conn);
    var create := EditWarehouse(Create(name, WarehouseSpec(ref, "id")));
    ReachableNext(w, create);
    var w1 := Next(w, create);
    var fresh_ := w1.warehouses.live[name];
    var e := ReconcileWarehouse(fresh_, Some(conn), Some("token"), Answer(Ok("")));
    ReachableNext(w1, e);
    w' := Next(w1, e);
    ready := w'.warehouses.live[name];
    PutThenFind([], VerdictCondition(READY, Healthy, Passed(""), 1), READY);
  }

  lemma TableBecomesReady(
    w: World, name: string, spec: TableSpec, wh: Warehouse, conn: Connection, columns: seq<Column>)
    returns (w': World, ready: Table)
    requires Reachable(w) && name !in w.tables.live && Validated(spec, columns)
    requires ResolvedFrom(w.warehouses, spec.warehouseRef, Some(wh)) && WarehouseReady(wh)
    requires ResolvedFrom(w.connections, spec.connectionRef, Some(conn)) && ConnectionReady(conn)
    requires wh.spec.connectionRef == spec.connectionRef
    ensures Reachable(w') && ready in w'.tables.history && ready.name == name && ready.spec == spec && TableReady(ready)
    ensures w'.warehouses == w.warehouses && w'.connections == w.connections
    ensures w'.validations == w.validations + {TableValidation(spec, wh, conn, columns)}
  {
    ReadyConnectionIsPat(w, conn);
    var create := EditTable(Create(name, spec));
    ReachableNext(w, create);
    var w1 := Next(w, create);
    var fresh_ := w1.tables.live[name];
    var e := ReconcileTable(fresh_, Some(wh), Some(conn), Some("token"), Answer(Ok(columns)), 0);
    ReachableNext(w1, e);
    w' := Next(w1, e);
    ready := w'.tables.live[name];
    PutThenFind([], VerdictCondition(READY, SchemaReason(columns), Passed(columns), 1), READY);
  }

  /* ---- What holds, and what does not ---- */

  /**
   The connection a query uses has the host the schema was validated on if it is still that connection at that
   generation. Names are always the same.
   */
  lemma SameGenerationSameHost(w: World, tbl: Table, check: TableValidation, conn: Connection)
    requires Reachable(w) && ValidatedThrough(w, tbl, check)
    requires ResolvedFrom(w.connections, tbl.spec.connectionRef, Some(conn))
    ensures conn.name == check.connection.name
    ensures conn.uid == check.connection.uid && conn.generation == check.connection.generation ==>
      conn.spec == check.connection.spec
  {
    ReachableInv(w);
  }

  /** Of a ready PAT connection the gate looks at nothing else. */
  lemma ChainIgnoresHost(
    call: Call, tbl: Option<Table>, wh: Option<Warehouse>, a: Connection, b: Connection, token: Option<string>,
    columns: seq<string>)
    requires ConnectionReady(a) && a.spec.authType == AUTH_PAT && ConnectionReady(b) && b.spec.authType == AUTH_PAT
    ensures ChainError(call, tbl, wh, Some(a), token, columns) == ChainError(call, tbl, wh, Some(b), token, columns)
  {
  }

  lemma LiveIsStored(w: World, conn: Connection)
    requires Reachable(w) && Live(w.connections, conn)
    ensures conn in w.connections.history
  {
    ReachableInv(w);
    assert w.connections.live[conn.name] in w.connections.history;
  }

  /**
   Otherwise it may not. Whatever query reaches the backend through a live connection, moving that connection to
   another host and validating it again lets the same query through with the same statement, now against the new
   host, on the schema of the old one: no table is validated in between.
   */
  lemma MovedHostKeepsStatement(
    w: World, call: Call, tbl: Table, wh: Option<Warehouse>, conn: Connection, token: Option<string>,
    columns: seq<string>, limit: int, host: string)
    returns (w': World, moved: Connection)
    requires Reachable(w) && Live(w.connections, conn) && ConnectionReady(conn) && host != conn.spec.host
    ensures Reachable(w') && Live(w'.connections, moved) && moved.name == conn.name && moved.spec.host == host
    ensures OnlyConnections(w, w')
    ensures QueryOutcome(call, Some(tbl), wh, Some(conn), token, columns, limit)
         == QueryOutcome(call, Some(tbl), wh, Some(moved), token, columns, limit)
  {
    LiveIsStored(w, conn);
    ReadyConnectionIsPat(w, conn);
    w', moved := MovedConnectionReady(w, conn, host);
    ChainIgnoresHost(call, Some(tbl), wh, conn, moved, token, columns);
  }

  lemma PlainNames()
    ensures TrimSpace("c") == "c" && TrimSpace("w") == "w" && TrimSpace("t") == "t"
    ensures ValidTableRef("t") && ValidIdent("t")
  {
    assert TrimLeft("c") == "c" && TrimRight("c") == "c";
    assert TrimLeft("w") == "w" && TrimRight("w") == "w";
    assert TrimLeft("t") == "t" && TrimRight("t") == "t";
  }

  const SPEC := TableSpec("c", "w", "t", "t", "t")
  const COLUMNS := [Column("t", "t")]
  const CALL := Call(true, "c", "t", "t", true, true, true, true)

  /** A first run: a ready table whose only validation was made on the host of a live, ready connection. */
  lemma FirstRun(host: string) returns (w: World, tbl: Table, wh: Warehouse, conn: Connection)
    ensures Reachable(w) && ResolvedFrom(w.tables, CALL.name, Some(tbl)) && TableReady(tbl) && tbl.spec == SPEC
    ensures WarehouseReady(wh) && wh.spec.connectionRef == SPEC.connectionRef
    ensures Live(w.connections, conn) && ConnectionReady(conn) && conn.spec.host == host && conn.name == "c"
    ensures forall check :: check in w.validations ==> check.connection.spec.host == host
  {
    PlainNames();
    InitReachable();
    var w2, first := NewConnectionReady(Init(), "c", host);
    LiveIsStored(w2, first);
    var w3, ready := WarehouseBecomesReady(w2, "w", "c", first);
    w, tbl := TableBecomesReady(w3, "t", SPEC, ready, first, COLUMNS);
    wh, conn := ready, first;
  }

  /** A run in which it happens: a query runs against the new host, and every validation was on the old one. */
  lemma StaleHostRun(old_: string, host: string)
    returns (w: World, tbl: Table, wh: Warehouse, conn: Connection)
    requires old_ != host
    ensures Reachable(w) && ResolvedFrom(w.tables, CALL.name, Some(tbl)) && Live(w.connections, conn)
    ensures conn.spec.host == host && QueryOutcome(CALL, Some(tbl), Some(wh), Some(conn), Some("t"), [], 0).Ok?
    ensures forall check :: check in w.validations ==> check.connection.spec.host == old_
  {
    PlainNames();
    var w1, table, ready, first := FirstRun(old_);
    LiveIsStored(w1, first);
    ReachesBackendIff(w1, CALL, table, Some(ready), Some(first), Some("t"), [], 0);
    w, conn := MovedHostKeepsStatement(w1, CALL, table, Some(ready), first, Some("t"), [], 0, host);
    tbl, wh := table, ready;
  }
}
