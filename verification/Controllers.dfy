/** Resource shapes of the provider API (apis/databricks/v1alpha1/types.go). */
module Resources {
  import opened Wrappers
  import opened Conditions
  import opened ApiServer
  import opened QueryContract

  datatype Column = Column(name: string, dataType: string)

  datatype TableSpec =
    TableSpec(connectionRef: string, warehouseRef: string, catalog: string, schema: string, table: string)
  datatype WarehouseSpec = WarehouseSpec(connectionRef: string, warehouseID: string)
  datatype ConnectionSpec = ConnectionSpec(host: string, authType: string)

  datatype TableStatus = TableStatus(
    observedGeneration: nat, refreshedAt: Option<int>, columns: seq<Column>, conditions: seq<Condition>)
  datatype WarehouseStatus = WarehouseStatus(observedGeneration: nat, state: string, conditions: seq<Condition>)
  datatype ConnectionStatus = ConnectionStatus(observedGeneration: nat, workspaceID: string, conditions: seq<Condition>)

  type Table = Version<TableSpec, TableStatus>
  type Warehouse = Version<WarehouseSpec, WarehouseStatus>
  type Connection = Version<ConnectionSpec, ConnectionStatus>

  const AUTH_PAT := "pat"

  predicate WarehouseReady(wh: Warehouse)
  {
    CurrentConditionTrue(wh.status.conditions, wh.status.observedGeneration, wh.generation, READY)
  }

  predicate ConnectionReady(conn: Connection)
  {
    && CurrentConditionTrue(conn.status.conditions, conn.status.observedGeneration, conn.generation, VALIDATED)
    && CurrentConditionTrue(conn.status.conditions, conn.status.observedGeneration, conn.generation, READY)
  }

  predicate TableReady(tbl: Table)
  {
    CurrentConditionTrue(tbl.status.conditions, tbl.status.observedGeneration, tbl.generation, READY)
  }

  /** The first columns of a schema, as many as a status holds: all of them up to the limit. */
  predicate FirstColumns(cached: seq<Column>, columns: seq<Column>)
  {
    cached <= columns && |cached| == if |columns| > MAX_QUERY_COLUMNS then MAX_QUERY_COLUMNS else |columns|
  }

  /** The part of a validated schema that fits in a status. */
  function Cap(columns: seq<Column>): (r: seq<Column>)
    ensures FirstColumns(r, columns)
  {
    if |columns| > MAX_QUERY_COLUMNS then columns[..MAX_QUERY_COLUMNS] else columns
  }
}

/**
 The three reconcilers. Each is a decision over what was read (a verdict) followed by in-place status
 updates; the methods mirror the Go bodies and are proved against the verdict functions, which the step
 system in module Readiness then uses.
 */
module Controllers {
  import opened Wrappers
  import opened Conditions
  import opened Resources
  import opened QueryContract

  // Requeue delays in seconds.
  const NO_REQUEUE: nat := 0
  const DEPENDENCY_RETRY: nat := 15
  const VALIDATION_REFRESH: nat := 300

  /** What an error chain returned by a validator exposes to classification. */
  datatype ValidationFailure = ValidationFailure(
    canceled: bool, unsupportedTableType: bool, httpStatus: Option<int>, network: bool, deadline: bool)

  /** The configured validator's answer; a provider may also run without one. */
  datatype Validation<T> = NotConfigured | Answer(outcome: Result<T, ValidationFailure>)

  datatype Verdict<T> = Passed(result: T) | Failed(reason: Reason, retryAfter: nat)

  function ClassifyValidationError(f: ValidationFailure): (reason: Reason)
    ensures reason in {DatabricksUnavailable, AccessDenied, ResourceNotFound, UnsupportedTableType, ValidationFailed}
  {
    if f.canceled then ValidationFailed
    else if f.unsupportedTableType then UnsupportedTableType
    else if f.httpStatus.Some? then
      var status := f.httpStatus.value;
      if status == 408 || status == 429 || 500 <= status <= 599 then DatabricksUnavailable
      else if status == 401 || status == 403 then AccessDenied
      else if status == 404 then ResourceNotFound
      else ValidationFailed
    else if f.network || f.deadline then DatabricksUnavailable
    else ValidationFailed
  }

  function RequeueForReason(reason: Reason): nat
  {
    if reason == DatabricksUnavailable then DEPENDENCY_RETRY else VALIDATION_REFRESH
  }

  function TableRequeueForReason(reason: Reason): nat
  {
    if reason == UnsupportedTableType then NO_REQUEUE else RequeueForReason(reason)
  }

  /** A failure that says nothing about the configuration: a busy or broken service, or no answer at all. */
  predicate Transient(f: ValidationFailure)
  {
    && !f.canceled && !f.unsupportedTableType
    && match f.httpStatus
       case Some(status) => status == 408 || status == 429 || 500 <= status < 600
       case None => f.network || f.deadline
  }

  /** Exactly the transient failures are retried soon; only an unsupported table type is not retried at all. */
  lemma RetrySoonIffTransient(f: ValidationFailure)
    ensures RequeueForReason(ClassifyValidationError(f)) ==
      if Transient(f) then DEPENDENCY_RETRY else VALIDATION_REFRESH
    ensures TableRequeueForReason(ClassifyValidationError(f)) ==
      if f.unsupportedTableType && !f.canceled then NO_REQUEUE else RequeueForReason(ClassifyValidationError(f))
  {
  }

  /** What each reason says about the failure. */
  lemma ReasonIff(f: ValidationFailure)
    ensures var reason, status := ClassifyValidationError(f), f.httpStatus;
      var http := !f.canceled && !f.unsupportedTableType && status.Some?;
      && (reason == DatabricksUnavailable <==> Transient(f))
      && (reason == UnsupportedTableType <==> f.unsupportedTableType && !f.canceled)
      && (reason == AccessDenied <==> http && (status.value == 401 || status.value == 403))
      && (reason == ResourceNotFound <==> http && status.value == 404)
  {
  }

  function RetryAfter<T>(verdict: Verdict<T>): nat
  {
    if verdict.Passed? then VALIDATION_REFRESH else verdict.retryAfter
  }

  function ConnectionVerdict(
    spec: ConnectionSpec, token: Option<string>, validator: Validation<string>): Verdict<string>
  {
    if spec.authType != AUTH_PAT then Failed(AuthTypeUnsupported, NO_REQUEUE)
    else if token.None? then Failed(CredentialUnavailable, DEPENDENCY_RETRY)
    else match validator
      case NotConfigured => Failed(ValidatorUnavailable, NO_REQUEUE)
      case Answer(Err(f)) => Failed(ClassifyValidationError(f), RequeueForReason(ClassifyValidationError(f)))
      case Answer(Ok(workspaceID)) => Passed(workspaceID)
  }

  function WarehouseVerdict(
    conn: Option<Connection>, token: Option<string>, validator: Validation<string>): Verdict<string>
  {
    if conn.None? then Failed(ConnectionUnavailable, DEPENDENCY_RETRY)
    else if conn.value.spec.authType != AUTH_PAT then Failed(AuthTypeUnsupported, VALIDATION_REFRESH)
    else if !ConnectionReady(conn.value) then Failed(ConnectionNotReady, DEPENDENCY_RETRY)
    else if token.None? then Failed(CredentialUnavailable, DEPENDENCY_RETRY)
    else match validator
      case NotConfigured => Failed(ValidatorUnavailable, NO_REQUEUE)
      case Answer(Err(f)) => Failed(ClassifyValidationError(f), RequeueForReason(ClassifyValidationError(f)))
      case Answer(Ok(state)) => Passed(state)
  }

  function TableVerdict(
    spec: TableSpec, wh: Option<Warehouse>, conn: Option<Connection>, token: Option<string>,
    validator: Validation<seq<Column>>): Verdict<seq<Column>>
  {
    if wh.None? then Failed(WarehouseUnavailable, DEPENDENCY_RETRY)
    else if wh.value.spec.connectionRef != spec.connectionRef then
      Failed(WarehouseConnectionMismatch, VALIDATION_REFRESH)
    else if !WarehouseReady(wh.value) then Failed(WarehouseNotReady, DEPENDENCY_RETRY)
    else if conn.None? then Failed(ConnectionUnavailable, DEPENDENCY_RETRY)
    else if !ConnectionReady(conn.value) then Failed(ConnectionNotReady, DEPENDENCY_RETRY)
    else if conn.value.spec.authType != AUTH_PAT then Failed(AuthTypeUnsupported, VALIDATION_REFRESH)
    else if token.None? then Failed(CredentialUnavailable, DEPENDENCY_RETRY)
    else match validator
      case NotConfigured => Failed(ValidatorUnavailable, NO_REQUEUE)
      case Answer(Err(f)) => Failed(ClassifyValidationError(f), TableRequeueForReason(ClassifyValidationError(f)))
      case Answer(Ok(columns)) => Passed(columns)
  }

  /** What the validator contributes once every check ahead of it has passed. */
  predicate ValidatorSays<T>(validator: Validation<T>, reason: Reason)
  {
    match validator
    case NotConfigured => reason == ValidatorUnavailable
    case Answer(Ok(_)) => false
    case Answer(Err(f)) => reason == ClassifyValidationError(f)
  }

  /** A connection passes exactly when all its checks do, and otherwise the reason names the first that does not. */
  lemma ConnectionVerdictIff(spec: ConnectionSpec, token: Option<string>, validator: Validation<string>, r: Reason)
    ensures var verdict, pat := ConnectionVerdict(spec, token, validator), spec.authType == "pat";
      && (verdict.Passed? <==> pat && token.Some? && validator.Answer? && validator.outcome.Ok?)
      && (verdict.Passed? ==> verdict.result == validator.outcome.value)
      && (verdict.Failed? && verdict.reason == r <==>
            || (r == AuthTypeUnsupported && !pat)
            || (r == CredentialUnavailable && pat && token.None?)
            || (pat && token.Some? && ValidatorSays(validator, r)))
  {
  }

  lemma WarehouseVerdictIff(conn: Option<Connection>, token: Option<string>, validator: Validation<string>, r: Reason)
    ensures var verdict := WarehouseVerdict(conn, token, validator);
      var pat := conn.Some? && conn.value.spec.authType == "pat";
      var ready := pat && ConnectionReady(conn.value);
      && (verdict.Passed? <==> ready && token.Some? && validator.Answer? && validator.outcome.Ok?)
      && (verdict.Passed? ==> verdict.result == validator.outcome.value)
      && (verdict.Failed? && verdict.reason == r <==>
            || (r == ConnectionUnavailable && conn.None?)
            || (r == AuthTypeUnsupported && conn.Some? && !pat)
            || (r == ConnectionNotReady && pat && !ready)
            || (r == CredentialUnavailable && ready && token.None?)
            || (ready && token.Some? && ValidatorSays(validator, r)))
  {
  }

  lemma TableVerdictIff(
    spec: TableSpec, wh: Option<Warehouse>, conn: Option<Connection>, token: Option<string>,
    validator: Validation<seq<Column>>, r: Reason)
    ensures var verdict := TableVerdict(spec, wh, conn, token, validator);
      var matches := wh.Some? && wh.value.spec.connectionRef == spec.connectionRef;
      var whReady := matches && WarehouseReady(wh.value);
      var ready := whReady && conn.Some? && ConnectionReady(conn.value);
      var pat := ready && conn.value.spec.authType == "pat";
      && (verdict.Passed? <==> pat && token.Some? && validator.Answer? && validator.outcome.Ok?)
      && (verdict.Passed? ==> verdict.result == validator.outcome.value)
      && (verdict.Failed? && verdict.reason == r <==>
            || (r == WarehouseUnavailable && wh.None?)
            || (r == WarehouseConnectionMismatch && wh.Some? && !matches)
            || (r == WarehouseNotReady && matches && !whReady)
            || (r == ConnectionUnavailable && whReady && conn.None?)
            || (r == ConnectionNotReady && whReady && conn.Some? && !ready)
            || (r == AuthTypeUnsupported && ready && !pat)
            || (r == CredentialUnavailable && pat && token.None?)
            || (pat && token.Some? && ValidatorSays(validator, r)))
  {
  }

  /** The Ready (and, for connections, Validated) condition a verdict is recorded as. */
  function VerdictCondition<T>(
    kind: ConditionKind, passedReason: Reason, verdict: Verdict<T>, generation: nat): Condition
  {
    match verdict
    case Passed(_) => Condition(kind, True, passedReason, generation)
    case Failed(reason, _) => Condition(kind, False, reason, generation)
  }

  function ConnectionStatusAfter(old_: ConnectionStatus, generation: nat, verdict: Verdict<string>): ConnectionStatus
  {
    ConnectionStatus(
      generation,
      if verdict.Passed? then verdict.result else "",
      Put(Put(old_.conditions, VerdictCondition(VALIDATED, Healthy, verdict, generation)),
          VerdictCondition(READY, Healthy, verdict, generation)))
  }

  function WarehouseStatusAfter(old_: WarehouseStatus, generation: nat, verdict: Verdict<string>): WarehouseStatus
  {
    WarehouseStatus(
      generation,
      if verdict.Passed? then verdict.result else "",
      Put(old_.conditions, VerdictCondition(READY, Healthy, verdict, generation)))
  }

  function SchemaReason(columns: seq<Column>): Reason
  {
    if |columns| > MAX_QUERY_COLUMNS then SchemaTruncated else Healthy
  }

  function TableStatusAfter(old_: TableStatus, generation: nat, verdict: Verdict<seq<Column>>, now: int): TableStatus
  {
    match verdict
    case Passed(columns) =>
      TableStatus(generation, Some(now), Cap(columns),
        Put(old_.conditions, VerdictCondition(READY, SchemaReason(columns), verdict, generation)))
    case Failed(_, _) =>
      var current := old_.observedGeneration == generation;
      TableStatus(generation,
        if current then old_.refreshedAt else None,
        if current then old_.columns else [],
        Put(old_.conditions, VerdictCondition(READY, Healthy, verdict, generation)))
  }

  /** The connection object a reconcile holds in memory between its read and its status write. */
  class ConnectionObject {
    const generation: nat
    const spec: ConnectionSpec
    var observedGeneration: nat
    var workspaceID: string
    const conditions: ConditionList

    constructor (read: Connection)
      ensures generation == read.generation && spec == read.spec && Status() == read.status && fresh(conditions)
    {
      generation, spec := read.generation, read.spec;
      observedGeneration, workspaceID := read.status.observedGeneration, read.status.workspaceID;
      conditions := new ConditionList(read.status.conditions);
    }

    ghost function Status(): ConnectionStatus
      reads this, conditions
    {
      ConnectionStatus(observedGeneration, workspaceID, conditions.items)
    }

    method FailAfter(reason: Reason, requeueAfter: nat) returns (retry: nat)
      modifies this, conditions
      ensures retry == requeueAfter
      ensures Status() == ConnectionStatusAfter(old(Status()), generation, Failed(reason, requeueAfter))
    {
      observedGeneration := generation;
      workspaceID := "";
      conditions.Set(VALIDATED, False, reason, generation);
      conditions.Set(READY, False, reason, generation);
      retry := requeueAfter;
    }

    method Reconcile(token: Option<string>, validator: Validation<string>) returns (retry: nat)
      modifies this, conditions
      ensures Status() == ConnectionStatusAfter(old(Status()), generation, ConnectionVerdict(spec, token, validator))
      ensures retry == RetryAfter(ConnectionVerdict(spec, token, validator))
    {
      if spec.authType != AUTH_PAT {
        retry := FailAfter(AuthTypeUnsupported, NO_REQUEUE);
        return;
      }
      if token.None? {
        retry := FailAfter(CredentialUnavailable, DEPENDENCY_RETRY);
        return;
      }
      if validator.NotConfigured? {
        retry := FailAfter(ValidatorUnavailable, NO_REQUEUE);
        return;
      }
      if validator.outcome.Err? {
        var reason := ClassifyValidationError(validator.outcome.error);
        retry := FailAfter(reason, RequeueForReason(reason));
        return;
      }
      observedGeneration := generation;
      workspaceID := validator.outcome.value;
      conditions.Set(VALIDATED, True, Healthy, generation);
      conditions.Set(READY, True, Healthy, generation);
      retry := VALIDATION_REFRESH;
    }
  }

  class WarehouseObject {
    const generation: nat
    const spec: WarehouseSpec
    var observedGeneration: nat
    var state: string
    const conditions: ConditionList

    constructor (read: Warehouse)
      ensures generation == read.generation && spec == read.spec && Status() == read.status && fresh(conditions)
    {
      generation, spec := read.generation, read.spec;
      observedGeneration, state := read.status.observedGeneration, read.status.state;
      conditions := new ConditionList(read.status.conditions);
    }

    ghost function Status(): WarehouseStatus
      reads this, conditions
    {
      WarehouseStatus(observedGeneration, state, conditions.items)
    }

    method FailAfter(reason: Reason, requeueAfter: nat) returns (retry: nat)
      modifies this, conditions
      ensures retry == requeueAfter
      ensures Status() == WarehouseStatusAfter(old(Status()), generation, Failed(reason, requeueAfter))
    {
      observedGeneration := generation;
      state := "";
      conditions.Set(READY, False, reason, generation);
      retry := requeueAfter;
    }

    method Reconcile(conn: Option<Connection>, token: Option<string>, validator: Validation<string>)
      returns (retry: nat)
      modifies this, conditions
      ensures Status() == WarehouseStatusAfter(old(Status()), generation, WarehouseVerdict(conn, token, validator))
      ensures retry == RetryAfter(WarehouseVerdict(conn, token, validator))
    {
      if conn.None? {
        retry := FailAfter(ConnectionUnavailable, DEPENDENCY_RETRY);
        return;
      }
      if conn.value.spec.authType != AUTH_PAT {
        retry := FailAfter(AuthTypeUnsupported, VALIDATION_REFRESH);
        return;
      }
      if !ConnectionReady(conn.value) {
        retry := FailAfter(ConnectionNotReady, DEPENDENCY_RETRY);
        return;
      }
      if token.None? {
        retry := FailAfter(CredentialUnavailable, DEPENDENCY_RETRY);
        return;
      }
      if validator.NotConfigured? {
        retry := FailAfter(ValidatorUnavailable, NO_REQUEUE);
        return;
      }
      if validator.outcome.Err? {
        var reason := ClassifyValidationError(validator.outcome.error);
        retry := FailAfter(reason, RequeueForReason(reason));
        return;
      }
      observedGeneration := generation;
      state := validator.outcome.value;
      conditions.Set(READY, True, Healthy, generation);
      retry := VALIDATION_REFRESH;
    }
  }

  class TableObject {
    const generation: nat
    const spec: TableSpec
    var observedGeneration: nat
    var refreshedAt: Option<int>
    var columns: seq<Column>
    const conditions: ConditionList

    constructor (read: Table)
      ensures generation == read.generation && spec == read.spec && Status() == read.status && fresh(conditions)
    {
      generation, spec := read.generation, read.spec;
      observedGeneration, refreshedAt := read.status.observedGeneration, read.status.refreshedAt;
      columns := read.status.columns;
      conditions := new ConditionList(read.status.conditions);
    }

    ghost function Status(): TableStatus
      reads this, conditions
    {
      TableStatus(observedGeneration, refreshedAt, columns, conditions.items)
    }

    method FailAfter(reason: Reason, requeueAfter: nat) returns (retry: nat)
      modifies this, conditions
      ensures retry == requeueAfter
      ensures forall now :: Status() == TableStatusAfter(old(Status()), generation, Failed(reason, requeueAfter), now)
    {
      var cacheGenerationCurrent := observedGeneration == generation;
      observedGeneration := generation;
      if !cacheGenerationCurrent {
        refreshedAt := None;
        columns := [];
      }
      conditions.Set(READY, False, reason, generation);
      retry := requeueAfter;
    }

    method Reconcile(
      wh: Option<Warehouse>, conn: Option<Connection>, token: Option<string>, validator: Validation<seq<Column>>,
      now: int)
      returns (retry: nat)
      modifies this, conditions
      ensures var verdict := TableVerdict(spec, wh, conn, token, validator);
        Status() == TableStatusAfter(old(Status()), generation, verdict, now)
      ensures retry == RetryAfter(TableVerdict(spec, wh, conn, token, validator))
    {
      if wh.None? {
        retry := FailAfter(WarehouseUnavailable, DEPENDENCY_RETRY);
        return;
      }
      if wh.value.spec.connectionRef != spec.connectionRef {
        retry := FailAfter(WarehouseConnectionMismatch, VALIDATION_REFRESH);
        return;
      }
      if !WarehouseReady(wh.value) {
        retry := FailAfter(WarehouseNotReady, DEPENDENCY_RETRY);
        return;
      }
      if conn.None? {
        retry := FailAfter(ConnectionUnavailable, DEPENDENCY_RETRY);
        return;
      }
      if !ConnectionReady(conn.value) {
        retry := FailAfter(ConnectionNotReady, DEPENDENCY_RETRY);
        return;
      }
      if conn.value.spec.authType != AUTH_PAT {
        retry := FailAfter(AuthTypeUnsupported, VALIDATION_REFRESH);
        return;
      }
      if token.None? {
        retry := FailAfter(CredentialUnavailable, DEPENDENCY_RETRY);
        return;
      }
      if validator.NotConfigured? {
        retry := FailAfter(ValidatorUnavailable, NO_REQUEUE);
        return;
      }
      if validator.outcome.Err? {
        var reason := ClassifyValidationError(validator.outcome.error);
        retry := FailAfter(reason, TableRequeueForReason(reason));
        return;
      }
      var schema := validator.outcome.value;
      var reason := Healthy;
      observedGeneration := generation;
      refreshedAt := Some(now);
      columns := schema;
      if |schema| > MAX_QUERY_COLUMNS {
        columns := schema[..MAX_QUERY_COLUMNS];
        reason := SchemaTruncated;
      }
      conditions.Set(READY, True, reason, generation);
      retry := VALIDATION_REFRESH;
    }
  }
}
