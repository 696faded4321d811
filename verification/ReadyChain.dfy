/**
 A second invariant of the readiness protocol: what a ready warehouse and a ready connection were made ready by. With it
 the chain behind a ready table reaches down to the connection.
 */
module ReadyChain {
  import opened Wrappers
  import opened Text
  import opened Conditions
  import opened ApiServer
  import opened Resources
  import opened Controllers
  import opened Readiness

  /** The status speaks of this very generation and holds the condition. */
  predicate HoldsNow(conditions: seq<Condition>, observed: nat, generation: nat, kind: ConditionKind)
  {
    observed == generation && Holds(conditions, kind)
  }

  /** Only PAT connections become ready. */
  predicate ConnectionBacked(v: Connection)
  {
    HoldsNow(v.status.conditions, v.status.observedGeneration, v.generation, READY) ==> v.spec.authType == AUTH_PAT
  }

  ghost predicate Backs(checks: set<WarehouseValidation>, spec: WarehouseSpec)
  {
    exists check :: check in checks && check.spec == spec
  }

  /** A ready warehouse was validated as its very spec. */
  ghost predicate WarehouseBacked(checks: set<WarehouseValidation>, v: Warehouse)
  {
    HoldsNow(v.status.conditions, v.status.observedGeneration, v.generation, READY) ==> Backs(checks, v.spec)
  }

  /** Every warehouse validation was made through a stored, ready PAT connection of the warehouse's reference. */
  ghost predicate WarehouseCheckGood(w: World, check: WarehouseValidation)
  {
    && ResolvedFrom(w.connections, check.spec.connectionRef, Some(check.connection))
    && ConnectionReady(check.connection) && check.connection.spec.authType == AUTH_PAT
  }

  ghost predicate ConnectionsBacked(connections: Store<ConnectionSpec, ConnectionStatus>)
  {
    forall v :: v in connections.history ==> ConnectionBacked(v)
  }

  ghost predicate WarehousesBacked(warehouses: Store<WarehouseSpec, WarehouseStatus>, checks: set<WarehouseValidation>)
  {
    forall v :: v in warehouses.history ==> WarehouseBacked(checks, v)
  }

  ghost predicate WarehouseChecksGood(w: World)
  {
    forall check :: check in w.warehouseValidations ==> WarehouseCheckGood(w, check)
  }

  ghost predicate ChainInv(w: World)
  {
    && ConnectionsBacked(w.connections) && WarehousesBacked(w.warehouses, w.warehouseValidations)
    && WarehouseChecksGood(w)
  }

  lemma ConnectionWriteBacked(
    s: Store<ConnectionSpec, ConnectionStatus>, t: Store<ConnectionSpec, ConnectionStatus>, read: Connection,
    token: Option<string>, validator: Validation<string>)
    requires ConnectionsBacked(s)
    requires var verdict := ConnectionVerdict(read.spec, token, validator);
      WriteShape(s, t, read, ConnectionStatusAfter(read.status, read.generation, verdict))
    ensures ConnectionsBacked(t)
  {
    var verdict := ConnectionVerdict(read.spec, token, validator);
    var validated := VerdictCondition(VALIDATED, Healthy, verdict, read.generation);
    PutThenFind(Put(read.status.conditions, validated), VerdictCondition(READY, Healthy, verdict, read.generation),
      READY);
  }

  lemma WarehouseWriteBacked(
    s: Store<WarehouseSpec, WarehouseStatus>, t: Store<WarehouseSpec, WarehouseStatus>, read: Warehouse,
    verdict: Verdict<string>, checks: set<WarehouseValidation>, checks': set<WarehouseValidation>)
    requires WarehousesBacked(s, checks) && checks <= checks'
    requires WriteShape(s, t, read, WarehouseStatusAfter(read.status, read.generation, verdict))
    requires verdict.Passed? ==> Backs(checks', read.spec)
    ensures WarehousesBacked(t, checks')
  {
    PutThenFind(read.status.conditions, VerdictCondition(READY, Healthy, verdict, read.generation), READY);
    forall v | v in t.history
      ensures WarehouseBacked(checks', v)
    {
      if v in s.history {
        assert WarehouseBacked(checks, v);
      }
    }
  }

  lemma WarehouseChecksGrow(w: World, w': World)
    requires WarehouseChecksGood(w) && w.connections.history <= w'.connections.history
    requires forall check :: check in w'.warehouseValidations && check !in w.warehouseValidations ==>
      WarehouseCheckGood(w', check)
    ensures WarehouseChecksGood(w')
  {
    forall check | check in w'.warehouseValidations
      ensures WarehouseCheckGood(w', check)
    {
      if check in w.warehouseValidations {
        assert WarehouseCheckGood(w, check);
      }
    }
  }

  lemma WarehouseStepKeepsChain(w: World, e: Event)
    requires Inv(w) && ChainInv(w) && Legal(w, e) && e.ReconcileWarehouse?
    ensures ChainInv(Next(w, e))
  {
    var w' := Next(w, e);
    var verdict := WarehouseVerdict(e.conn, e.token, e.validator);
    WriteHasShape(w.warehouses, e.warehouse, WarehouseStatusAfter(e.warehouse.status, e.warehouse.generation, verdict));
    if verdict.Passed? {
      assert WarehouseValidation(e.warehouse.spec, e.conn.value) in w'.warehouseValidations;
    }
    WarehouseWriteBacked(
      w.warehouses, w'.warehouses, e.warehouse, verdict, w.warehouseValidations, w'.warehouseValidations);
    WarehouseChecksGrow(w, w');
  }

  lemma StepKeepsChain(w: World, e: Event)
    requires Inv(w) && ChainInv(w) && Legal(w, e)
    ensures ChainInv(Next(w, e))
  {
    var w' := Next(w, e);
    match e
    case EditTable(_) => WarehouseChecksGrow(w, w');
    case EditWarehouse(edit) =>
      EditHasShape(w.warehouses, edit, NO_WAREHOUSE_STATUS);
      WarehouseChecksGrow(w, w');
    case EditConnection(edit) =>
      EditHasShape(w.connections, edit, NO_CONNECTION_STATUS);
      WarehouseChecksGrow(w, w');
    case ReconcileTable(_, _, _, _, _, _) => WarehouseChecksGrow(w, w');
    case ReconcileWarehouse(_, _, _, _) => WarehouseStepKeepsChain(w, e);
    case ReconcileConnection(read, token, validator) =>
      var verdict := ConnectionVerdict(read.spec, token, validator);
      WriteHasShape(w.connections, read, ConnectionStatusAfter(read.status, read.generation, verdict));
      ConnectionWriteBacked(w.connections, w'.connections, read, token, validator);
      WarehouseChecksGrow(w, w');
  }

  lemma {:induction false} RunKeepsChain(w: World, run: seq<Event>)
    requires Inv(w) && ChainInv(w) && LegalRun(w, run)
    ensures ChainInv(After(w, run))
    decreases run
  {
    if run != [] {
      StepKeepsInv(w, run[0]);
      StepKeepsChain(w, run[0]);
      RunKeepsChain(Next(w, run[0]), run[1..]);
    }
  }

  lemma ReachableChain(w: World)
    requires Reachable(w)
    ensures ChainInv(w)
  {
    var run :| LegalRun(Init(), run) && After(Init(), run) == w;
    RunKeepsChain(Init(), run);
  }

  /** In every reachable world a ready connection uses a personal access token. */
  lemma ReadyConnectionIsPat(w: World, v: Connection)
    requires Reachable(w) && v in w.connections.history && ConnectionReady(v)
    ensures v.spec.authType == AUTH_PAT
  {
    ReachableChain(w);
    assert ConnectionBacked(v);
  }

  /** So the exits for other auth types behind a readiness check are never taken by the table controller. */
  lemma TableAuthExitUnreachable(w: World, e: Event)
    requires Reachable(w) && Legal(w, e) && e.ReconcileTable?
    ensures TableVerdict(e.tbl.spec, e.wh, e.conn, e.token, e.schema) != Failed(AuthTypeUnsupported, VALIDATION_REFRESH)
  {
    if e.conn.Some? && ConnectionReady(e.conn.value) {
      ReadyConnectionIsPat(w, e.conn.value);
    }
  }

  /** A ready warehouse was validated, as its very spec, through a stored, ready PAT connection of its reference. */
  lemma ReadyWarehouseHasReadyConnection(w: World, v: Warehouse) returns (check: WarehouseValidation)
    requires Reachable(w) && v in w.warehouses.history && WarehouseReady(v)
    ensures check in w.warehouseValidations && check.spec == v.spec && WarehouseCheckGood(w, check)
  {
    ReachableChain(w);
    assert WarehouseBacked(w.warehouseValidations, v);
    check :| check in w.warehouseValidations && check.spec == v.spec;
  }

  /**
   The whole chain behind a ready table: validated as its very spec through a ready warehouse and a ready connection,
   where that warehouse version was itself validated, as its very spec, through a ready PAT connection of the same name.
   */
  lemma ReadyTableChain(w: World, v: Table) returns (check: TableValidation, below: WarehouseValidation)
    requires Reachable(w) && v in w.tables.history && TableReady(v)
    ensures ValidatedThrough(w, v, check)
    ensures below in w.warehouseValidations && below.spec == check.warehouse.spec && WarehouseCheckGood(w, below)
    ensures below.connection.name == check.connection.name == TrimSpace(v.spec.connectionRef)
  {
    ReadyTableHasReadyChain(w, v);
    check :| ValidatedThrough(w, v, check);
    below := ReadyWarehouseHasReadyConnection(w, check.warehouse);
  }
}
