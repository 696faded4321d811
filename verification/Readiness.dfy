/** How the portal reads a resource's status (portal/src/api.ts). */
module Portal {
  import opened Conditions

  datatype Shown = Ready | Retrying | NeedsAttention | Pending | Unavailable

  const RETRYABLE := {
    ConnectionUnavailable, ConnectionNotReady, WarehouseUnavailable, WarehouseNotReady,
    CredentialUnavailable, DatabricksUnavailable
  }

  /** An observedGeneration of zero is omitted from the wire and so reads as undefined. */
  function StatusFromCondition(
    conditions: seq<Condition>, observedGeneration: nat, generation: nat, kind: ConditionKind): Shown
  {
    if observedGeneration == 0 || observedGeneration < generation then Pending
    else
      var found := Find(conditions, kind);
      if found.None? then Unavailable
      else match found.value.status
        case True => Ready
        case False => if found.value.reason in RETRYABLE then Retrying else NeedsAttention
        case Unknown => Pending
  }

  /**
   On arbitrary statuses the portal's "Ready" is weaker than the gate, and exceeds it exactly when the status is ahead
   of the object or its condition lags the status.
   */
  lemma PortalExceedsGateIff(conditions: seq<Condition>, observed: nat, generation: nat, kind: ConditionKind)
    requires generation >= 1
    ensures var found := Find(conditions, kind);
      var ready := StatusFromCondition(conditions, observed, generation, kind) == Ready;
      var gate := CurrentConditionTrue(conditions, observed, generation, kind);
      && (gate ==> ready)
      && (ready && !gate <==>
            && observed >= generation && found.Some? && found.value.status == True
            && (observed > generation || found.value.observedGeneration != generation))
  {
  }
}

/**
 The readiness protocol as a step system: users edit the three collections, and reconciles commit status
 writes computed from versions read at any earlier moment. Invariants are proved for every run.
 */
module Readiness {
  import opened Wrappers
  import opened Text
  import opened Conditions
  import opened ApiServer
  import opened Resources
  import opened QueryContract
  import QuerySql
  import opened Controllers
  import opened Portal

  /** A successful call of the table validator and the dependency versions it was made with. */
  datatype TableValidation =
    TableValidation(spec: TableSpec, warehouse: Warehouse, connection: Connection, columns: seq<Column>)

  /** A successful call of the warehouse validator and the connection version it was made with. */
  datatype WarehouseValidation = WarehouseValidation(spec: WarehouseSpec, connection: Connection)

  /** The last committed reconcile of an object. */
  datatype Commit = Commit(generation: nat, retryAfter: nat)

  datatype World = World(
    tables: Store<TableSpec, TableStatus>,
    warehouses: Store<WarehouseSpec, WarehouseStatus>,
    connections: Store<ConnectionSpec, ConnectionStatus>,
    validations: set<TableValidation>,
    warehouseValidations: set<WarehouseValidation>,
    tableCommits: map<nat, Commit>,
    warehouseCommits: map<nat, Commit>,
    connectionCommits: map<nat, Commit>)

  datatype Event =
    | EditTable(tableEdit: UserEdit<TableSpec>)
    | EditWarehouse(warehouseEdit: UserEdit<WarehouseSpec>)
    | EditConnection(connectionEdit: UserEdit<ConnectionSpec>)
    | ReconcileTable(tbl: Table, wh: Option<Warehouse>, conn: Option<Connection>, token: Option<string>,
                     schema: Validation<seq<Column>>, now: int)
    | ReconcileWarehouse(warehouse: Warehouse, conn: Option<Connection>, token: Option<string>,
      validator: Validation<string>)
    | ReconcileConnection(connection: Connection, token: Option<string>, validator: Validation<string>)

  const NO_TABLE_STATUS := TableStatus(0, None, [], [])
  const NO_WAREHOUSE_STATUS := WarehouseStatus(0, "", [])
  const NO_CONNECTION_STATUS := ConnectionStatus(0, "", [])

  function Init(): World
  {
    World(Empty(), Empty(), Empty(), {}, {}, map[], map[], map[])
  }

  /** Resolving a reference yields some version of the named object, or nothing (absent, forbidden, failed). */
  predicate ResolvedFrom<Sp(==), St(==)>(s: Store<Sp, St>, ref: string, read: Option<Version<Sp, St>>)
  {
    read.Some? ==> read.value in s.history && TrimSpace(ref) != "" && read.value.name == TrimSpace(ref)
  }

  function RefOf(spec: TableSpec): QuerySql.TableRef
  {
    QuerySql.TableRef(spec.catalog, spec.schema, spec.table)
  }

  /** What ValidateTable guarantees of the schema it returns; see SchemaProbe. */
  predicate ValidSchema(columns: seq<Column>)
  {
    columns != [] && forall c :: c in columns ==> TrimSpace(c.name) != ""
  }

  /** And of the table it was asked about: the probe statement could be built for it. */
  predicate Validated(spec: TableSpec, columns: seq<Column>)
  {
    QuerySql.ValidRef(RefOf(spec)) && ValidSchema(columns)
  }

  predicate Legal(w: World, e: Event)
  {
    match e
    case ReconcileTable(tbl, wh, conn, token, schema, now) =>
      && tbl in w.tables.history && !tbl.deleting
      && ResolvedFrom(w.warehouses, tbl.spec.warehouseRef, wh)
      && ResolvedFrom(w.connections, tbl.spec.connectionRef, conn)
      && (schema.Answer? && schema.outcome.Ok? ==> Validated(tbl.spec, schema.outcome.value))
    case ReconcileWarehouse(warehouse, conn, token, validator) =>
      && warehouse in w.warehouses.history && !warehouse.deleting
      && ResolvedFrom(w.connections, warehouse.spec.connectionRef, conn)
    case ReconcileConnection(connection, token, validator) =>
      connection in w.connections.history && !connection.deleting
    case _ => true
  }

  function Committed<Sp(==), St(==)>(commits: map<nat, Commit>, s: Store<Sp, St>, read: Version<Sp, St>, retry: nat)
    : map<nat, Commit>
  {
    if Accepts(s, read) then commits[read.uid := Commit(read.generation, retry)] else commits
  }

  function Next(w: World, e: Event): World
  {
    match e
    case EditTable(edit) => w.(tables := ApplyEdit(w.tables, edit, NO_TABLE_STATUS))
    case EditWarehouse(edit) => w.(warehouses := ApplyEdit(w.warehouses, edit, NO_WAREHOUSE_STATUS))
    case EditConnection(edit) => w.(connections := ApplyEdit(w.connections, edit, NO_CONNECTION_STATUS))
    case ReconcileTable(tbl, wh, conn, token, schema, now) =>
      var verdict := TableVerdict(tbl.spec, wh, conn, token, schema);
      w.(tables := WriteStatus(w.tables, tbl, TableStatusAfter(tbl.status, tbl.generation, verdict, now)),
         validations := w.validations +
           (if verdict.Passed? then {TableValidation(tbl.spec, wh.value, conn.value, verdict.result)} else {}),
         tableCommits := Committed(w.tableCommits, w.tables, tbl, RetryAfter(verdict)))
    case ReconcileWarehouse(warehouse, conn, token, validator) =>
      var verdict := WarehouseVerdict(conn, token, validator);
      w.(warehouses := WriteStatus(w.warehouses, warehouse,
        WarehouseStatusAfter(warehouse.status, warehouse.generation, verdict)),
         warehouseValidations := w.warehouseValidations +
           (if verdict.Passed? then {WarehouseValidation(warehouse.spec, conn.value)} else {}),
         warehouseCommits := Committed(w.warehouseCommits, w.warehouses, warehouse, RetryAfter(verdict)))
    case ReconcileConnection(connection, token, validator) =>
      var verdict := ConnectionVerdict(connection.spec, token, validator);
      w.(connections := WriteStatus(w.connections, connection,
        ConnectionStatusAfter(connection.status, connection.generation, verdict)),
         connectionCommits := Committed(w.connectionCommits, w.connections, connection, RetryAfter(verdict)))
  }

  predicate LegalRun(w: World, run: seq<Event>)
    decreases run
  {
    run == [] || (Legal(w, run[0]) && LegalRun(Next(w, run[0]), run[1..]))
  }

  function After(w: World, run: seq<Event>): World
    decreases run
  {
    if run == [] then w else After(Next(w, run[0]), run[1..])
  }

  ghost predicate Reachable(w: World)
  {
    exists run :: LegalRun(Init(), run) && After(Init(), run) == w
  }

  // ---------------------------------------------------------------------------------------------
  // The invariant
  // ---------------------------------------------------------------------------------------------

  /** A recorded condition carries the generation of the status that holds it. */
  predicate Stamped(conditions: seq<Condition>, observed: nat, kind: ConditionKind)
  {
    var found := Find(conditions, kind);
    if observed == 0 then found.None?
    else found.Some? && found.value.observedGeneration == observed && found.value.status != Unknown
  }

  predicate Holds(conditions: seq<Condition>, kind: ConditionKind)
  {
    Find(conditions, kind).Some? && Find(conditions, kind).value.status == True
  }

  /** The cached columns came from a validation of the spec that had the observed generation. */
  ghost predicate CachedFrom(tables: Store<TableSpec, TableStatus>, checks: set<TableValidation>, v: Table,
                             source: Table, check: TableValidation)
  {
    && source in tables.history && check in checks
    && source.uid == v.uid && source.generation == v.status.observedGeneration
    && check.spec == source.spec && FirstColumns(v.status.columns, check.columns)
  }

  ghost predicate TableGood(tables: Store<TableSpec, TableStatus>, checks: set<TableValidation>, v: Table)
  {
    && v.status.observedGeneration <= v.generation
    && Stamped(v.status.conditions, v.status.observedGeneration, READY)
    && (Holds(v.status.conditions, READY) ==> v.status.columns != [])
    && (v.status.refreshedAt.Some? <==> v.status.columns != [])
    && (v.status.columns != [] ==> exists source, check :: CachedFrom(tables, checks, v, source, check))
  }

  ghost predicate WarehouseGood(v: Warehouse)
  {
    v.status.observedGeneration <= v.generation && Stamped(v.status.conditions, v.status.observedGeneration, READY)
  }

  ghost predicate ConnectionGood(v: Connection)
  {
    && v.status.observedGeneration <= v.generation
    && Stamped(v.status.conditions, v.status.observedGeneration, READY)
    && Stamped(v.status.conditions, v.status.observedGeneration, VALIDATED)
    && (Holds(v.status.conditions, READY) <==> Holds(v.status.conditions, VALIDATED))
  }

  /** Every validation was made through a ready warehouse of the same connection and a ready PAT connection. */
  ghost predicate CheckGood(w: World, check: TableValidation)
  {
    && ResolvedFrom(w.warehouses, check.spec.warehouseRef, Some(check.warehouse)) && WarehouseReady(check.warehouse)
    && check.warehouse.spec.connectionRef == check.spec.connectionRef
    && ResolvedFrom(w.connections, check.spec.connectionRef, Some(check.connection))
      && ConnectionReady(check.connection)
    && check.connection.spec.authType == AUTH_PAT
    && Validated(check.spec, check.columns)
  }

  predicate ShowsRetry(conditions: seq<Condition>, kind: ConditionKind)
  {
    var found := Find(conditions, kind);
    found.Some? && found.value.status == False && found.value.reason in RETRYABLE
  }

  /** A live object's status is what its last committed reconcile wrote. */
  ghost predicate MatchesCommit(
    commits: map<nat, Commit>, uid: nat, observed: nat, conditions: seq<Condition>, kind: ConditionKind)
  {
    && (uid in commits <==> observed != 0)
    && (uid in commits ==>
          && commits[uid].generation == observed
          && (commits[uid].retryAfter == DEPENDENCY_RETRY <==> ShowsRetry(conditions, kind)))
  }

  ghost predicate CommitsKnown<Sp(!new), St(!new)>(commits: map<nat, Commit>, s: Store<Sp, St>)
  {
    forall uid :: uid in commits ==> uid < s.nextUid
  }

  ghost predicate TableMatches(commits: map<nat, Commit>, v: Table)
  {
    MatchesCommit(commits, v.uid, v.status.observedGeneration, v.status.conditions, READY)
  }

  ghost predicate WarehouseMatches(commits: map<nat, Commit>, v: Warehouse)
  {
    MatchesCommit(commits, v.uid, v.status.observedGeneration, v.status.conditions, READY)
  }

  ghost predicate ConnectionMatches(commits: map<nat, Commit>, v: Connection)
  {
    MatchesCommit(commits, v.uid, v.status.observedGeneration, v.status.conditions, VALIDATED)
  }

  ghost predicate TablesGood(
    tables: Store<TableSpec, TableStatus>, checks: set<TableValidation>, commits: map<nat, Commit>)
  {
    && CommitsKnown(commits, tables)
    && (forall v :: v in tables.history ==> TableGood(tables, checks, v))
    && (forall n :: n in tables.live ==> TableMatches(commits, tables.live[n]))
  }

  ghost predicate WarehousesGood(warehouses: Store<WarehouseSpec, WarehouseStatus>, commits: map<nat, Commit>)
  {
    && CommitsKnown(commits, warehouses)
    && (forall v :: v in warehouses.history ==> WarehouseGood(v))
    && (forall n :: n in warehouses.live ==> WarehouseMatches(commits, warehouses.live[n]))
  }

  ghost predicate ConnectionsGood(connections: Store<ConnectionSpec, ConnectionStatus>, commits: map<nat, Commit>)
  {
    && CommitsKnown(commits, connections)
    && (forall v :: v in connections.history ==> ConnectionGood(v))
    && (forall n :: n in connections.live ==> ConnectionMatches(commits, connections.live[n]))
  }

  ghost predicate ChecksGood(w: World)
  {
    forall check :: check in w.validations ==> CheckGood(w, check)
  }

  ghost predicate Inv(w: World)
  {
    && StoreInv(w.tables) && StoreInv(w.warehouses) && StoreInv(w.connections)
    && TablesGood(w.tables, w.validations, w.tableCommits)
    && WarehousesGood(w.warehouses, w.warehouseCommits)
    && ConnectionsGood(w.connections, w.connectionCommits)
    && ChecksGood(w)
  }

  // ---------------------------------------------------------------------------------------------
  // Every step keeps it
  // ---------------------------------------------------------------------------------------------

  /** Only the transient dependency reasons ask for the short retry. */
  lemma RetryIsTransient(
    spec: TableSpec, cspec: ConnectionSpec, wh: Option<Warehouse>, conn: Option<Connection>, token: Option<string>,
    schema: Validation<seq<Column>>, validator: Validation<string>)
    ensures var v := TableVerdict(spec, wh, conn, token, schema);
            RetryAfter(v) == DEPENDENCY_RETRY <==> v.Failed? && v.reason in RETRYABLE
    ensures var v := WarehouseVerdict(conn, token, validator);
            RetryAfter(v) == DEPENDENCY_RETRY <==> v.Failed? && v.reason in RETRYABLE
    ensures var v := ConnectionVerdict(cspec, token, validator);
            RetryAfter(v) == DEPENDENCY_RETRY <==> v.Failed? && v.reason in RETRYABLE
  {
  }

  /** When a reconcile comes back: soon, never by itself, or after five minutes. */
  lemma DelayIs(
    spec: TableSpec, cspec: ConnectionSpec, wh: Option<Warehouse>, conn: Option<Connection>, token: Option<string>,
    schema: Validation<seq<Column>>, validator: Validation<string>)
    ensures Delayed(TableVerdict(spec, wh, conn, token, schema), {ValidatorUnavailable, UnsupportedTableType})
    ensures Delayed(WarehouseVerdict(conn, token, validator), {ValidatorUnavailable})
    ensures Delayed(ConnectionVerdict(cspec, token, validator), {ValidatorUnavailable, AuthTypeUnsupported})
  {
  }

  predicate Delayed<T>(verdict: Verdict<T>, final: set<Reason>)
  {
    RetryAfter(verdict) ==
      if verdict.Passed? then 300
      else if verdict.reason in RETRYABLE then 15
      else if verdict.reason in final then 0
      else 300
  }

  /** Once a validator failure is committed, the portal shows "Retrying" exactly when the failure was transient. */
  lemma RetryingShownIffTransient(old_: TableStatus, generation: nat, f: ValidationFailure, now: int)
    requires generation >= 1
    ensures var reason := ClassifyValidationError(f);
      var status := TableStatusAfter(old_, generation, Failed(reason, TableRequeueForReason(reason)), now);
      StatusFromCondition(status.conditions, status.observedGeneration, generation, READY) == Retrying <==> Transient(f)
  {
    var reason := ClassifyValidationError(f);
    PutThenFind(old_.conditions, Condition(READY, False, reason, generation), READY);
  }

  lemma TableGoodGrows(
    tables: Store<TableSpec, TableStatus>, tables': Store<TableSpec, TableStatus>,
    checks: set<TableValidation>, checks': set<TableValidation>, v: Table, v': Table)
    requires TableGood(tables, checks, v)
    requires tables.history <= tables'.history && checks <= checks'
    requires v.uid == v'.uid && v.status == v'.status && v.generation <= v'.generation
    ensures TableGood(tables', checks', v')
  {
    if v.status.columns != [] {
      var source, check :| CachedFrom(tables, checks, v, source, check);
      assert CachedFrom(tables', checks', v', source, check);
    }
  }

  lemma TableEditKeepsGood(
    tables: Store<TableSpec, TableStatus>, tables': Store<TableSpec, TableStatus>,
    checks: set<TableValidation>, commits: map<nat, Commit>)
    requires TablesGood(tables, checks, commits) && EditShape(tables, tables', NO_TABLE_STATUS)
    ensures TablesGood(tables', checks, commits)
  {
    forall v | v in tables'.history
      ensures TableGood(tables', checks, v)
    {
      if v in tables.history {
        TableGoodGrows(tables, tables', checks, checks, v, v);
      } else if v.status != NO_TABLE_STATUS {
        var basis :| basis in tables.history && Carries(basis, v);
        TableGoodGrows(tables, tables', checks, checks, basis, v);
      }
    }
    forall n | n in tables'.live
      ensures TableMatches(commits, tables'.live[n])
    {
      if n in tables.live && Carries(tables.live[n], tables'.live[n]) {
        assert TableMatches(commits, tables.live[n]);
      }
    }
  }

  lemma WarehouseEditKeepsGood(
    warehouses: Store<WarehouseSpec, WarehouseStatus>, warehouses': Store<WarehouseSpec, WarehouseStatus>,
    commits: map<nat, Commit>)
    requires WarehousesGood(warehouses, commits) && EditShape(warehouses, warehouses', NO_WAREHOUSE_STATUS)
    ensures WarehousesGood(warehouses', commits)
  {
  }

  lemma ConnectionEditKeepsGood(
    connections: Store<ConnectionSpec, ConnectionStatus>, connections': Store<ConnectionSpec, ConnectionStatus>,
    commits: map<nat, Commit>)
    requires ConnectionsGood(connections, commits) && EditShape(connections, connections', NO_CONNECTION_STATUS)
    ensures ConnectionsGood(connections', commits)
  {
    forall v | v in connections'.history
      ensures ConnectionGood(v)
    {
      if v !in connections.history && v.status != NO_CONNECTION_STATUS {
        var basis :| basis in connections.history && Carries(basis, v);
        assert ConnectionGood(basis);
      }
    }
    forall n | n in connections'.live
      ensures ConnectionMatches(commits, connections'.live[n])
    {
      if n in connections.live && Carries(connections.live[n], connections'.live[n]) {
        assert ConnectionMatches(commits, connections.live[n]);
      }
    }
  }

  lemma WarehouseWriteKeepsGood(
    warehouses: Store<WarehouseSpec, WarehouseStatus>, warehouses': Store<WarehouseSpec, WarehouseStatus>,
    commits: map<nat, Commit>,
    read: Warehouse, verdict: Verdict<string>)
    requires WarehousesGood(warehouses, commits) && read in warehouses.history && read.generation >= 1
    requires WriteShape(warehouses, warehouses', read, WarehouseStatusAfter(read.status, read.generation, verdict))
    requires RetryAfter(verdict) == DEPENDENCY_RETRY <==> verdict.Failed? && verdict.reason in RETRYABLE
    ensures WarehousesGood(warehouses', Committed(commits, warehouses, read, RetryAfter(verdict)))
  {
    PutThenFind(read.status.conditions, VerdictCondition(READY, Healthy, verdict, read.generation), READY);
  }

  lemma ConnectionWriteKeepsGood(
    connections: Store<ConnectionSpec, ConnectionStatus>, connections': Store<ConnectionSpec, ConnectionStatus>,
    commits: map<nat, Commit>, read: Connection, verdict: Verdict<string>)
    requires ConnectionsGood(connections, commits) && read in connections.history && read.generation >= 1
    requires WriteShape(connections, connections', read, ConnectionStatusAfter(read.status, read.generation, verdict))
    requires RetryAfter(verdict) == DEPENDENCY_RETRY <==> verdict.Failed? && verdict.reason in RETRYABLE
    ensures ConnectionsGood(connections', Committed(commits, connections, read, RetryAfter(verdict)))
  {
    var validated := VerdictCondition(VALIDATED, Healthy, verdict, read.generation);
    var ready := VerdictCondition(READY, Healthy, verdict, read.generation);
    PutThenFind(read.status.conditions, validated, VALIDATED);
    PutThenFind(Put(read.status.conditions, validated), ready, VALIDATED);
    PutThenFind(Put(read.status.conditions, validated), ready, READY);
    var commits' := Committed(commits, connections, read, RetryAfter(verdict));
    forall n | n in connections'.live
      ensures ConnectionMatches(commits', connections'.live[n])
    {
      if !(Accepts(connections, read) && n == read.name) {
        assert ConnectionMatches(commits, connections.live[n]);
      }
    }
  }

  ghost predicate Recorded(checks: set<TableValidation>, spec: TableSpec, columns: seq<Column>)
  {
    exists check :: check in checks && check.spec == spec && check.columns == columns
  }

  lemma TableWriteGood(
    tables: Store<TableSpec, TableStatus>, checks: set<TableValidation>, read: Table, verdict: Verdict<seq<Column>>,
    now: int, v: Table)
    requires TableGood(tables, checks, read) && read in tables.history && read.generation >= 1
    requires verdict.Passed? ==> verdict.result != [] && Recorded(checks, read.spec, verdict.result)
    requires v.uid == read.uid && v.generation == read.generation
    requires v.status == TableStatusAfter(read.status, read.generation, verdict, now)
    ensures TableGood(tables, checks, v)
  {
    var reason := if verdict.Passed? then SchemaReason(verdict.result) else Healthy;
    PutThenFind(read.status.conditions, VerdictCondition(READY, reason, verdict, read.generation), READY);
    if verdict.Passed? {
      var check :| check in checks && check.spec == read.spec && check.columns == verdict.result;
      assert CachedFrom(tables, checks, v, read, check);
    } else if v.status.columns != [] {
      var source, basis :| CachedFrom(tables, checks, read, source, basis);
      assert CachedFrom(tables, checks, v, source, basis);
    }
  }

  lemma TableWriteKeepsGood(
    tables: Store<TableSpec, TableStatus>, tables': Store<TableSpec, TableStatus>,
    checks: set<TableValidation>, checks': set<TableValidation>, commits: map<nat, Commit>,
    read: Table, verdict: Verdict<seq<Column>>, now: int)
    requires TablesGood(tables, checks, commits) && read in tables.history && read.generation >= 1 && checks <= checks'
    requires WriteShape(tables, tables', read, TableStatusAfter(read.status, read.generation, verdict, now))
    requires verdict.Passed? ==> verdict.result != [] && Recorded(checks', read.spec, verdict.result)
    requires RetryAfter(verdict) == DEPENDENCY_RETRY <==> verdict.Failed? && verdict.reason in RETRYABLE
    ensures TablesGood(tables', checks', Committed(commits, tables, read, RetryAfter(verdict)))
  {
    forall v | v in tables'.history
      ensures TableGood(tables', checks', v)
    {
      if v in tables.history {
        TableGoodGrows(tables, tables', checks, checks', v, v);
      } else {
        TableGoodGrows(tables, tables', checks, checks', read, read);
        TableWriteGood(tables', checks', read, verdict, now, v);
      }
    }
    var reason := if verdict.Passed? then SchemaReason(verdict.result) else Healthy;
    PutThenFind(read.status.conditions, VerdictCondition(READY, reason, verdict, read.generation), READY);
    forall n | n in tables'.live
      ensures TableMatches(Committed(commits, tables, read, RetryAfter(verdict)), tables'.live[n])
    {
      if !(Accepts(tables, read) && n == read.name) {
        assert TableMatches(commits, tables.live[n]);
      }
    }
  }

  lemma ChecksGrow(w: World, w': World)
    requires ChecksGood(w) && w.warehouses.history <= w'.warehouses.history
      && w.connections.history <= w'.connections.history
    requires forall check :: check in w'.validations && check !in w.validations ==> CheckGood(w', check)
    ensures ChecksGood(w')
  {
    forall check | check in w'.validations
      ensures CheckGood(w', check)
    {
      if check in w.validations {
        assert CheckGood(w, check);
      }
    }
  }

  lemma EditStepKeepsInv(w: World, e: Event)
    requires Inv(w) && (e.EditTable? || e.EditWarehouse? || e.EditConnection?)
    ensures Inv(Next(w, e))
  {
    var w' := Next(w, e);
    match e
    case EditTable(edit) =>
      EditKeepsInv(w.tables, edit, NO_TABLE_STATUS);
      EditHasShape(w.tables, edit, NO_TABLE_STATUS);
      TableEditKeepsGood(w.tables, w'.tables, w.validations, w.tableCommits);
      ChecksGrow(w, w');
    case EditWarehouse(edit) =>
      EditKeepsInv(w.warehouses, edit, NO_WAREHOUSE_STATUS);
      EditHasShape(w.warehouses, edit, NO_WAREHOUSE_STATUS);
      WarehouseEditKeepsGood(w.warehouses, w'.warehouses, w.warehouseCommits);
      ChecksGrow(w, w');
    case EditConnection(edit) =>
      EditKeepsInv(w.connections, edit, NO_CONNECTION_STATUS);
      EditHasShape(w.connections, edit, NO_CONNECTION_STATUS);
      ConnectionEditKeepsGood(w.connections, w'.connections, w.connectionCommits);
      ChecksGrow(w, w');
  }

  lemma DependencyStepKeepsInv(w: World, e: Event)
    requires Inv(w) && Legal(w, e) && (e.ReconcileWarehouse? || e.ReconcileConnection?)
    ensures Inv(Next(w, e))
  {
    var w' := Next(w, e);
    var anySpec := TableSpec("", "", "", "", "");
    match e
    case ReconcileWarehouse(read, conn, token, validator) =>
      var verdict := WarehouseVerdict(conn, token, validator);
      var status := WarehouseStatusAfter(read.status, read.generation, verdict);
      WriteKeepsInv(w.warehouses, read, status);
      WriteHasShape(w.warehouses, read, status);
      RetryIsTransient(anySpec, ConnectionSpec("", ""), None, conn, token, NotConfigured, validator);
      WarehouseWriteKeepsGood(w.warehouses, w'.warehouses, w.warehouseCommits, read, verdict);
      ChecksGrow(w, w');
    case ReconcileConnection(read, token, validator) =>
      var verdict := ConnectionVerdict(read.spec, token, validator);
      var status := ConnectionStatusAfter(read.status, read.generation, verdict);
      WriteKeepsInv(w.connections, read, status);
      WriteHasShape(w.connections, read, status);
      RetryIsTransient(anySpec, read.spec, None, None, token, NotConfigured, validator);
      ConnectionWriteKeepsGood(w.connections, w'.connections, w.connectionCommits, read, verdict);
      ChecksGrow(w, w');
  }

  lemma TableStepKeepsChecks(w: World, e: Event)
    requires ChecksGood(w) && Legal(w, e) && e.ReconcileTable?
    ensures ChecksGood(Next(w, e))
  {
    ChecksGrow(w, Next(w, e));
  }

  lemma PassedIsRecorded(w: World, e: Event)
    requires Legal(w, e) && e.ReconcileTable?
    ensures var verdict := TableVerdict(e.tbl.spec, e.wh, e.conn, e.token, e.schema);
      verdict.Passed? ==> verdict.result != [] && Recorded(Next(w, e).validations, e.tbl.spec, verdict.result)
  {
    var verdict := TableVerdict(e.tbl.spec, e.wh, e.conn, e.token, e.schema);
    if verdict.Passed? {
      assert TableValidation(e.tbl.spec, e.wh.value, e.conn.value, verdict.result) in Next(w, e).validations;
    }
  }

  lemma TableStepKeepsInv(w: World, e: Event)
    requires Inv(w) && Legal(w, e) && e.ReconcileTable?
    ensures Inv(Next(w, e))
  {
    var w' := Next(w, e);
    var verdict := TableVerdict(e.tbl.spec, e.wh, e.conn, e.token, e.schema);
    var status := TableStatusAfter(e.tbl.status, e.tbl.generation, verdict, e.now);
    WriteKeepsInv(w.tables, e.tbl, status);
    TableStepKeepsChecks(w, e);
    assert TablesGood(w'.tables, w'.validations, w'.tableCommits) by {
      WriteHasShape(w.tables, e.tbl, status);
      RetryIsTransient(e.tbl.spec, ConnectionSpec("", ""), e.wh, e.conn, e.token, e.schema, NotConfigured);
      PassedIsRecorded(w, e);
      TableWriteKeepsGood(w.tables, w'.tables, w.validations, w'.validations, w.tableCommits, e.tbl, verdict, e.now);
    }
  }

  lemma StepKeepsInv(w: World, e: Event)
    requires Inv(w) && Legal(w, e)
    ensures Inv(Next(w, e))
  {
    if e.ReconcileTable? {
      TableStepKeepsInv(w, e);
    } else if e.ReconcileWarehouse? || e.ReconcileConnection? {
      DependencyStepKeepsInv(w, e);
    } else {
      EditStepKeepsInv(w, e);
    }
  }

  lemma {:induction false} RunKeepsInv(w: World, run: seq<Event>)
    requires Inv(w) && LegalRun(w, run)
    ensures Inv(After(w, run))
    decreases run
  {
    if run != [] {
      StepKeepsInv(w, run[0]);
      RunKeepsInv(Next(w, run[0]), run[1..]);
    }
  }

  lemma ReachableInv(w: World)
    requires Reachable(w)
    ensures Inv(w)
  {
    var run :| LegalRun(Init(), run) && After(Init(), run) == w;
    RunKeepsInv(Init(), run);
  }

  // ---------------------------------------------------------------------------------------------
  // What every run guarantees
  // ---------------------------------------------------------------------------------------------

  /**
   In every reachable world and for every version ever stored: cached columns are the first ones, up to 64, that
   the validator returned for the one spec that had generation `observedGeneration` under that uid.
   */
  lemma CachedColumnsAreValidated(w: World, v: Table)
    requires Reachable(w) && v in w.tables.history && v.status.columns != []
    ensures exists check ::
      && check in w.validations && v.status.columns <= check.columns
      && |v.status.columns| == (if |check.columns| > 64 then 64 else |check.columns|)
      && (forall u :: u in w.tables.history && u.uid == v.uid && u.generation == v.status.observedGeneration
            ==> u.spec == check.spec)
    ensures exists u :: u in w.tables.history && u.uid == v.uid && u.generation == v.status.observedGeneration
  {
    ReachableInv(w);
    assert TableGood(w.tables, w.validations, v);
    var source, check :| CachedFrom(w.tables, w.validations, v, source, check);
    assert check in w.validations && v.status.columns <= check.columns;
    assert source in w.tables.history && source.uid == v.uid;
  }

  /** A committed passing reconcile caches the first columns, says whether any were left out, and is ready. */
  lemma PassingReconcileCaches(w: World, e: Event)
    requires e.ReconcileTable? && Accepts(w.tables, e.tbl)
    requires TableVerdict(e.tbl.spec, e.wh, e.conn, e.token, e.schema).Passed?
    ensures var after, columns := Next(w, e).tables.live[e.tbl.name], e.schema.outcome.value;
      var reason := if |columns| > 64 then SchemaTruncated else Healthy;
      && after.status.observedGeneration == after.generation == e.tbl.generation && TableReady(after)
      && after.status.refreshedAt == Some(e.now) && FirstColumns(after.status.columns, columns)
      && Find(after.status.conditions, READY) == Some(Condition(READY, True, reason, after.generation))
  {
    var verdict := TableVerdict(e.tbl.spec, e.wh, e.conn, e.token, e.schema);
    var condition := VerdictCondition(READY, SchemaReason(verdict.result), verdict, e.tbl.generation);
    PutThenFind(e.tbl.status.conditions, condition, READY);
  }

  /** A failed reconcile that commits keeps the cache exactly when it was filled for the same generation. */
  lemma FailedReconcileKeepsOwnGeneration(w: World, e: Event)
    requires e.ReconcileTable? && Accepts(w.tables, e.tbl)
    requires TableVerdict(e.tbl.spec, e.wh, e.conn, e.token, e.schema).Failed?
    ensures var after, old_ := Next(w, e).tables.live[e.tbl.name], e.tbl.status;
      var reason := TableVerdict(e.tbl.spec, e.wh, e.conn, e.token, e.schema).reason;
      && after.status.observedGeneration == after.generation == e.tbl.generation && !TableReady(after)
      && after.status.columns == (if old_.observedGeneration == e.tbl.generation then old_.columns else [])
      && after.status.refreshedAt == (if old_.observedGeneration == e.tbl.generation then old_.refreshedAt else None)
      && Find(after.status.conditions, READY) == Some(Condition(READY, False, reason, after.generation))
  {
    var verdict := TableVerdict(e.tbl.spec, e.wh, e.conn, e.token, e.schema);
    PutThenFind(e.tbl.status.conditions, VerdictCondition(READY, Healthy, verdict, e.tbl.generation), READY);
  }

  /** A committed reconcile of a warehouse shows the validator's state, or nothing and why it failed. */
  lemma WarehouseReconcileShows(w: World, e: Event)
    requires e.ReconcileWarehouse? && Accepts(w.warehouses, e.warehouse)
    ensures var after, verdict :=
        Next(w, e).warehouses.live[e.warehouse.name], WarehouseVerdict(e.conn, e.token, e.validator);
      && after.status.observedGeneration == after.generation == e.warehouse.generation
      && (verdict.Passed? ==> WarehouseReady(after) && after.status.state == e.validator.outcome.value)
      && (verdict.Failed? ==> !WarehouseReady(after) && after.status.state == "")
      && (verdict.Failed? ==>
            Find(after.status.conditions, READY) == Some(Condition(READY, False, verdict.reason, after.generation)))
  {
    var verdict := WarehouseVerdict(e.conn, e.token, e.validator);
    var condition := VerdictCondition(READY, Healthy, verdict, e.warehouse.generation);
    PutThenFind(e.warehouse.status.conditions, condition, READY);
  }

  /** The same for a connection, under both of its conditions. */
  lemma ConnectionReconcileShows(w: World, e: Event)
    requires e.ReconcileConnection? && Accepts(w.connections, e.connection)
    ensures var after, verdict :=
        Next(w, e).connections.live[e.connection.name], ConnectionVerdict(e.connection.spec, e.token, e.validator);
      && after.status.observedGeneration == after.generation == e.connection.generation
      && (verdict.Passed? ==> ConnectionReady(after) && after.status.workspaceID == e.validator.outcome.value)
      && (verdict.Failed? ==> !ConnectionReady(after) && after.status.workspaceID == "")
      && (verdict.Failed? ==> forall kind :: kind in {VALIDATED, READY} ==>
            Find(after.status.conditions, kind) == Some(Condition(kind, False, verdict.reason, after.generation)))
  {
    var verdict := ConnectionVerdict(e.connection.spec, e.token, e.validator);
    var validated := VerdictCondition(VALIDATED, Healthy, verdict, e.connection.generation);
    var ready := VerdictCondition(READY, Healthy, verdict, e.connection.generation);
    PutThenFind(e.connection.status.conditions, validated, VALIDATED);
    PutThenFind(Put(e.connection.status.conditions, validated), ready, VALIDATED);
    PutThenFind(Put(e.connection.status.conditions, validated), ready, READY);
  }

  ghost predicate ValidatedThrough(w: World, v: Table, check: TableValidation)
  {
    && check in w.validations && check.spec == v.spec && CheckGood(w, check)
    && FirstColumns(v.status.columns, check.columns)
  }

  /**
   A version that passes the readiness gate was validated, as its very spec, through some stored warehouse
   that was ready and on the same connection, and some stored connection that was validated, ready and PAT.
   */
  lemma ReadyTableHasReadyChain(w: World, v: Table)
    requires Reachable(w) && v in w.tables.history && TableReady(v)
    ensures exists check :: ValidatedThrough(w, v, check)
  {
    ReachableInv(w);
    assert TableGood(w.tables, w.validations, v);
    var source, check :| CachedFrom(w.tables, w.validations, v, source, check);
    assert CheckGood(w, check);
    assert ValidatedThrough(w, v, check);
  }

  /**
   On reachable states the portal and the Go gate agree about tables: "Retrying" means the 15s retry, "Pending" that no
   reconcile of this generation has committed, and any other failure needs attention.
   */
  lemma TablePortalAgrees(w: World, name: string)
    requires Reachable(w) && name in w.tables.live
    ensures var v := w.tables.live[name];
      var shown := StatusFromCondition(v.status.conditions, v.status.observedGeneration, v.generation, READY);
      && (shown == Ready <==> TableReady(v))
      && (shown == Retrying <==>
        v.uid in w.tableCommits && w.tableCommits[v.uid] == Commit(v.generation, DEPENDENCY_RETRY))
      && (shown == Pending <==> v.uid !in w.tableCommits || w.tableCommits[v.uid].generation != v.generation)
      && (shown == NeedsAttention <==>
        !TableReady(v) && v.uid in w.tableCommits && w.tableCommits[v.uid].generation == v.generation
          && w.tableCommits[v.uid].retryAfter != DEPENDENCY_RETRY)
  {
    ReachableInv(w);
    assert w.tables.live[name] in w.tables.history;
    assert TableMatches(w.tableCommits, w.tables.live[name]);
  }

  lemma WarehousePortalAgrees(w: World, name: string)
    requires Reachable(w) && name in w.warehouses.live
    ensures var v := w.warehouses.live[name];
      var shown := StatusFromCondition(v.status.conditions, v.status.observedGeneration, v.generation, READY);
      && (shown == Ready <==> WarehouseReady(v))
      && (shown == Retrying <==>
        v.uid in w.warehouseCommits && w.warehouseCommits[v.uid] == Commit(v.generation, DEPENDENCY_RETRY))
      && (shown == Pending <==> v.uid !in w.warehouseCommits || w.warehouseCommits[v.uid].generation != v.generation)
      && (shown == NeedsAttention <==>
        !WarehouseReady(v) && v.uid in w.warehouseCommits && w.warehouseCommits[v.uid].generation == v.generation
          && w.warehouseCommits[v.uid].retryAfter != DEPENDENCY_RETRY)
  {
    ReachableInv(w);
    assert w.warehouses.live[name] in w.warehouses.history;
    assert WarehouseMatches(w.warehouseCommits, w.warehouses.live[name]);
  }

  /** For connections the portal reads only Validated, yet agrees with the gate on Validated and Ready. */
  lemma ConnectionPortalAgrees(w: World, name: string)
    requires Reachable(w) && name in w.connections.live
    ensures var v := w.connections.live[name];
      var shown := StatusFromCondition(v.status.conditions, v.status.observedGeneration, v.generation, VALIDATED);
      && (shown == Ready <==> ConnectionReady(v))
      && (shown == Retrying <==>
        v.uid in w.connectionCommits && w.connectionCommits[v.uid] == Commit(v.generation, DEPENDENCY_RETRY))
      && (shown == Pending <==> v.uid !in w.connectionCommits || w.connectionCommits[v.uid].generation != v.generation)
      && (shown == NeedsAttention <==>
        !ConnectionReady(v) && v.uid in w.connectionCommits && w.connectionCommits[v.uid].generation == v.generation
          && w.connectionCommits[v.uid].retryAfter != DEPENDENCY_RETRY)
  {
    ReachableInv(w);
    assert w.connections.live[name] in w.connections.history;
    assert ConnectionMatches(w.connectionCommits, w.connections.live[name]);
  }
}
