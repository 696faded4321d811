/** The schema half of table validation (backend/validation.go). */
module SchemaProbe {
  import opened Wrappers
  import opened Text
  import opened Positions
  import opened Resources
  import opened Readiness
  import opened QuerySql

  datatype ManifestColumn = ManifestColumn(name: string, typeText: string, typeName: string)

  function TypeOf(c: ManifestColumn): string
  {
    if TrimSpace(c.typeText) == "" then TrimSpace(c.typeName) else TrimSpace(c.typeText)
  }

  function Listed(c: ManifestColumn): seq<Column>
  {
    if TrimSpace(c.name) == "" || TypeOf(c) == "" then [] else [Column(TrimSpace(c.name), TypeOf(c))]
  }

  function ManifestColumns(manifest: seq<ManifestColumn>): seq<Column>
  {
    if manifest == [] then [] else Listed(manifest[0]) + ManifestColumns(manifest[1..])
  }

  lemma ManifestStep(manifest: seq<ManifestColumn>, i: nat, columns: seq<Column>)
    requires i < |manifest|
    ensures columns + ManifestColumns(manifest[i..]) ==
      (columns + Listed(manifest[i])) + ManifestColumns(manifest[i + 1..])
  {
    assert manifest[i..][1..] == manifest[i + 1..];
  }

  /** Every listed column has a name that trimming leaves alone, and a type. */
  lemma {:induction false} ManifestNamesTrimmed(manifest: seq<ManifestColumn>)
    ensures forall c :: c in ManifestColumns(manifest) ==> TrimSpace(c.name) == c.name != "" && c.dataType != ""
  {
    if manifest != [] {
      ManifestNamesTrimmed(manifest[1..]);
    }
  }

  /** The manifest's columns as they would be listed, whether or not they have a name and a type. */
  ghost function Candidates(manifest: seq<ManifestColumn>): (columns: seq<Column>)
    ensures |columns| == |manifest|
  {
    seq(|manifest|, i requires 0 <= i < |manifest| => Column(TrimSpace(manifest[i].name),
      if TrimSpace(manifest[i].typeText) != "" then TrimSpace(manifest[i].typeText)
      else TrimSpace(manifest[i].typeName)))
  }

  /** The positions of the named and typed columns. */
  ghost function Listable(columns: seq<Column>, n: nat): set<nat>
    requires n <= |columns|
  {
    set i: nat | i < n && columns[i].name != "" && columns[i].dataType != ""
  }

  lemma ListableNext(columns: seq<Column>, n: nat)
    requires n < |columns|
    ensures Listable(columns, n + 1) ==
      Listable(columns, n) + (if columns[n].name == "" || columns[n].dataType == "" then {} else {n})
  {
  }

  lemma ListedCandidate(manifest: seq<ManifestColumn>, n: nat)
    requires n < |manifest|
    ensures var c := Candidates(manifest)[n];
      Listed(manifest[n]) == if c.name == "" || c.dataType == "" then [] else [c]
  {
  }

  lemma ListableMore(all: seq<Column>, n: nat, kept: seq<Column>)
    requires n < |all| && Picks(all, Listable(all, n), kept)
    ensures Picks(all, Listable(all, n + 1),
      kept + if all[n].name == "" || all[n].dataType == "" then [] else [all[n]])
  {
    var before := Listable(all, n);
    ListableNext(all, n);
    if all[n].name == "" || all[n].dataType == "" {
      assert before + {} == before && kept + [] == kept;
    } else {
      PicksOneMore(all, before, kept, n);
    }
  }

  lemma ManifestNext(manifest: seq<ManifestColumn>, n: nat)
    requires n < |manifest|
    ensures ManifestColumns(manifest[..n + 1]) == ManifestColumns(manifest[..n]) + Listed(manifest[n])
  {
    ManifestSnoc(manifest[..n], manifest[n]);
    assert manifest[..n + 1] == manifest[..n] + [manifest[n]];
  }

  lemma ManifestMore(manifest: seq<ManifestColumn>, n: nat, kept: seq<Column>, next: seq<Column>)
    requires n < |manifest| && Picks(Candidates(manifest), Listable(Candidates(manifest), n), kept)
    requires next == kept + Listed(manifest[n])
    ensures Picks(Candidates(manifest), Listable(Candidates(manifest), n + 1), next)
  {
    ListedCandidate(manifest, n);
    ListableMore(Candidates(manifest), n, kept);
  }

  lemma ManifestEmpty(manifest: seq<ManifestColumn>)
    ensures Picks(Candidates(manifest), Listable(Candidates(manifest), 0), ManifestColumns(manifest[..0]))
  {
    PicksNone(Candidates(manifest));
    assert Listable(Candidates(manifest), 0) == {};
  }

  /** Exactly the named and typed columns are listed, in manifest order. */
  lemma {:induction false} ManifestIsExact(manifest: seq<ManifestColumn>, n: nat)
    requires n <= |manifest|
    ensures Picks(Candidates(manifest), Listable(Candidates(manifest), n), ManifestColumns(manifest[..n]))
  {
    if n == 0 {
      ManifestEmpty(manifest);
    } else {
      var before, now := ManifestColumns(manifest[..n - 1]), ManifestColumns(manifest[..n]);
      ManifestIsExact(manifest, n - 1);
      ManifestNext(manifest, n - 1);
      ManifestMore(manifest, n - 1, before, now);
    }
  }

  lemma {:induction false} ManifestSnoc(manifest: seq<ManifestColumn>, c: ManifestColumn)
    ensures ManifestColumns(manifest + [c]) == ManifestColumns(manifest) + Listed(c)
  {
    if manifest != [] {
      assert (manifest + [c])[1..] == manifest[1..] + [c];
      ManifestSnoc(manifest[1..], c);
    }
  }

  method ListColumn(c: ManifestColumn) returns (r: seq<Column>)
    ensures r == Listed(c)
  {
    var name := TrimSpace(c.name);
    var dataType := TrimSpace(c.typeText);
    if dataType == "" {
      dataType := TrimSpace(c.typeName);
    }
    r := if name == "" || dataType == "" then [] else [Column(name, dataType)];
  }

  /** The named and typed columns of a zero-row SELECT manifest, in manifest order. */
  method ColumnsFromManifest(manifest: seq<ManifestColumn>) returns (columns: seq<Column>)
    ensures columns == ManifestColumns(manifest)
  {
    columns := [];
    for i := 0 to |manifest|
      invariant ManifestColumns(manifest) == columns + ManifestColumns(manifest[i..])
    {
      ManifestStep(manifest, i, columns);
      var listed := ListColumn(manifest[i]);
      columns := columns + listed;
    }
  }

  /**
   What ValidateTable does around the probe: no statement for an invalid reference, and an empty schema is a failure.
   What it returns is what the controller may cache.
   */
  method ValidateTable(ref: TableRef, manifest: seq<ManifestColumn>) returns (r: Option<seq<Column>>)
    ensures r.None? <==> !ValidRef(ref) || ManifestColumns(manifest) == []
    ensures r.Some? ==> r.value == ManifestColumns(manifest) && ValidSchema(r.value)
  {
    var catalog := QuoteIdent(ref.catalog);
    var schema := QuoteIdent(ref.schema);
    var table := QuoteIdent(ref.table);
    if catalog.None? || schema.None? || table.None? {
      return None;
    }
    var columns := ColumnsFromManifest(manifest);
    ManifestNamesTrimmed(manifest);
    r := if |columns| == 0 then None else Some(columns);
  }
}

/** QueryTable: the gate chain in front of the SQL backend (tenant/action.go). */
module QueryGate {
  import opened Wrappers
  import opened Text
  import opened Resources
  import opened Readiness
  import opened ReadyChain
  import opened QuerySql
  import opened QueryContract

  datatype QueryError =
    | ClientUnavailable
    | IdentityMissing
    | CallerTokenMissing
    | NameMissing
    | BadName
    | TableForbidden
    | ActionForbidden
    | AuthorityUnavailable
    | ExecutorUnavailable
    | BadRequest(reason: SqlError)
    | TableUnavailable
    | WarehouseUnavailable
    | ConnectionMismatch
    | TableNotReady
    | WarehouseNotReady
    | ConnectionUnavailable
    | ConnectionNotReady
    | AuthTypeUnsupported
    | CredentialUnavailable
    | SchemaUnavailable
    | BadStatement(reason: SqlError)

  function Names(columns: seq<Column>): seq<string>
  {
    seq(|columns|, i requires 0 <= i < |columns| => columns[i].name)
  }

  /** Request controls: limit, size, identifiers and duplicates, before any resource is read. */
  function RequestError(columns: seq<string>, limit: int): Option<SqlError>
  {
    var effective := EffectiveLimit(limit);
    if effective < 1 || effective > MAX_QUERY_LIMIT then Some(BadLimit)
    else if |columns| > MAX_QUERY_COLUMNS then Some(TooManyColumns)
    else FirstColumnError(columns, 0, {})
  }

  /**
   Who asks for which table, and what the process and the two access reviews answer; without an authorizer both
   reviews count as passed.
   */
  datatype Call = Call(
    configured: bool, clusterID: string, callerToken: string, name: string, mayRead: bool, mayAct: bool,
    authority: bool, executor: bool)

  /** The checks ahead of any read, in source order. */
  function CallError(call: Call, columns: seq<string>, limit: int): (error: Option<QueryError>)
    ensures error.None? ==> RequestError(columns, limit).None?
    ensures error.Some? ==> !error.value.BadStatement?
  {
    if !call.configured then Some(ClientUnavailable)
    else if TrimSpace(call.clusterID) == "" then Some(IdentityMissing)
    else if TrimSpace(call.callerToken) == "" then Some(CallerTokenMissing)
    else if TrimSpace(call.name) == "" then Some(NameMissing)
    else if !ValidTableRef(TrimSpace(call.name)) then Some(BadName)
    else if RequestError(columns, limit).Some? then Some(BadRequest(RequestError(columns, limit).value))
    else if !call.mayRead then Some(TableForbidden)
    else if !call.mayAct then Some(ActionForbidden)
    else if !call.authority then Some(AuthorityUnavailable)
    else None
  }

  /** The checks on what was read, in source order; the statement comes after them. */
  function ChainError(
    call: Call, tbl: Option<Table>, wh: Option<Warehouse>, conn: Option<Connection>, token: Option<string>,
    columns: seq<string>): (error: Option<QueryError>)
    ensures error.None? ==> tbl.Some? && TableReady(tbl.value)
    ensures error.Some? ==> !error.value.BadStatement?
  {
    if tbl.None? then Some(TableUnavailable)
    else if wh.None? then Some(WarehouseUnavailable)
    else if TrimSpace(tbl.value.spec.connectionRef) == "" then Some(ConnectionMismatch)
    else if tbl.value.spec.connectionRef != wh.value.spec.connectionRef then Some(ConnectionMismatch)
    else if !TableReady(tbl.value) then Some(TableNotReady)
    else if !WarehouseReady(wh.value) then Some(WarehouseNotReady)
    else if conn.None? then Some(ConnectionUnavailable)
    else if !ConnectionReady(conn.value) then Some(ConnectionNotReady)
    else if conn.value.spec.authType != AUTH_PAT then Some(AuthTypeUnsupported)
    else if token.None? then Some(CredentialUnavailable)
    else if !call.executor then Some(ExecutorUnavailable)
    else if columns != [] && tbl.value.status.columns == [] then Some(SchemaUnavailable)
    else None
  }

  /** What reaches the backend for a call, given what each read returned. */
  function QueryOutcome(
    call: Call, tbl: Option<Table>, wh: Option<Warehouse>, conn: Option<Connection>, token: Option<string>,
    columns: seq<string>, limit: int): Result<string, QueryError>
  {
    if CallError(call, columns, limit).Some? then Err(CallError(call, columns, limit).value)
    else
      var error := ChainError(call, tbl, wh, conn, token, columns);
      if error.Some? then Err(error.value)
      else
        var names := Names(tbl.value.status.columns);
        var sql := SelectOutcome(RefOf(tbl.value.spec), columns, EffectiveLimit(limit), names);
        if sql.Err? then Err(BadStatement(sql.error)) else Ok(sql.value)
  }

  /** The result of each check taken by itself, whatever the others say. */
  datatype Tests = Tests(
    configured: bool, identity: bool, callerToken: bool, named: bool, legalName: bool, request: Option<SqlError>,
    mayRead: bool, mayAct: bool, authority: bool, table: bool, warehouse: bool, sameConnection: bool, tableReady: bool,
    warehouseReady: bool, connection: bool, connectionReady: bool, pat: bool, credential: bool, executor: bool,
    schema: bool, statement: Option<SqlError>)

  ghost function TestsOf(
    call: Call, tbl: Option<Table>, wh: Option<Warehouse>, conn: Option<Connection>, token: Option<string>,
    columns: seq<string>, limit: int): Tests
  {
    Tests(
      call.configured, TrimSpace(call.clusterID) != "", TrimSpace(call.callerToken) != "", TrimSpace(call.name) != "",
      ValidTableRef(TrimSpace(call.name)), RequestError(columns, limit), call.mayRead, call.mayAct, call.authority,
      tbl.Some?, wh.Some?,
      tbl.Some? && wh.Some? && TrimSpace(tbl.value.spec.connectionRef) != ""
        && tbl.value.spec.connectionRef == wh.value.spec.connectionRef,
      tbl.Some? && TableReady(tbl.value), wh.Some? && WarehouseReady(wh.value),
      conn.Some?, conn.Some? && ConnectionReady(conn.value), conn.Some? && conn.value.spec.authType == AUTH_PAT,
      token.Some?, call.executor, columns == [] || (tbl.Some? && tbl.value.status.columns != []),
      if tbl.None? then None else
        var names := Names(tbl.value.status.columns);
        var sql := SelectOutcome(RefOf(tbl.value.spec), columns, EffectiveLimit(limit), names);
        if sql.Err? then Some(sql.error) else None)
  }

  /** The check behind this error fails. */
  predicate Fails(e: QueryError, t: Tests)
  {
    match e
    case ClientUnavailable => !t.configured
    case IdentityMissing => !t.identity
    case CallerTokenMissing => !t.callerToken
    case NameMissing => !t.named
    case BadName => !t.legalName
    case BadRequest(reason) => t.request == Some(reason)
    case TableForbidden => !t.mayRead
    case ActionForbidden => !t.mayAct
    case AuthorityUnavailable => !t.authority
    case TableUnavailable => !t.table
    case WarehouseUnavailable => !t.warehouse
    case ConnectionMismatch => !t.sameConnection
    case TableNotReady => !t.tableReady
    case WarehouseNotReady => !t.warehouseReady
    case ConnectionUnavailable => !t.connection
    case ConnectionNotReady => !t.connectionReady
    case AuthTypeUnsupported => !t.pat
    case CredentialUnavailable => !t.credential
    case ExecutorUnavailable => !t.executor
    case SchemaUnavailable => !t.schema
    case BadStatement(reason) => t.statement == Some(reason)
  }

  /** The place of each check in the documented order. */
  function Place(e: QueryError): nat
  {
    match e
    case ClientUnavailable => 0
    case IdentityMissing => 1
    case CallerTokenMissing => 2
    case NameMissing => 3
    case BadName => 4
    case BadRequest(_) => 5
    case TableForbidden => 6
    case ActionForbidden => 7
    case AuthorityUnavailable => 8
    case TableUnavailable => 9
    case WarehouseUnavailable => 10
    case ConnectionMismatch => 11
    case TableNotReady => 12
    case WarehouseNotReady => 13
    case ConnectionUnavailable => 14
    case ConnectionNotReady => 15
    case AuthTypeUnsupported => 16
    case CredentialUnavailable => 17
    case ExecutorUnavailable => 18
    case SchemaUnavailable => 19
    case BadStatement(_) => 20
  }

  /** No check ahead of this place fails. */
  ghost predicate PassesBefore(place: nat, t: Tests)
  {
    forall e: QueryError :: Place(e) < place ==> !Fails(e, t)
  }

  /** The first check to fail is the one behind this error. */
  ghost predicate FirstFailure(e: QueryError, t: Tests)
  {
    Fails(e, t) && PassesBefore(Place(e), t)
  }

  /** The two chains of checks over test results alone. */
  function FirstOfCall(t: Tests): Option<QueryError>
  {
    if !t.configured then Some(ClientUnavailable)
    else if !t.identity then Some(IdentityMissing)
    else if !t.callerToken then Some(CallerTokenMissing)
    else if !t.named then Some(NameMissing)
    else if !t.legalName then Some(BadName)
    else if t.request.Some? then Some(BadRequest(t.request.value))
    else if !t.mayRead then Some(TableForbidden)
    else if !t.mayAct then Some(ActionForbidden)
    else if !t.authority then Some(AuthorityUnavailable)
    else None
  }

  function FirstOfChain(t: Tests): Option<QueryError>
  {
    if !t.table then Some(TableUnavailable)
    else if !t.warehouse then Some(WarehouseUnavailable)
    else if !t.sameConnection then Some(ConnectionMismatch)
    else if !t.tableReady then Some(TableNotReady)
    else if !t.warehouseReady then Some(WarehouseNotReady)
    else if !t.connection then Some(ConnectionUnavailable)
    else if !t.connectionReady then Some(ConnectionNotReady)
    else if !t.pat then Some(AuthTypeUnsupported)
    else if !t.credential then Some(CredentialUnavailable)
    else if !t.executor then Some(ExecutorUnavailable)
    else if !t.schema then Some(SchemaUnavailable)
    else if t.statement.Some? then Some(BadStatement(t.statement.value))
    else None
  }

  function FirstOf(t: Tests): Option<QueryError>
  {
    if FirstOfCall(t).Some? then FirstOfCall(t) else FirstOfChain(t)
  }

  lemma FirstOfCallIsFirst(t: Tests)
    ensures if FirstOfCall(t).Some? then FirstFailure(FirstOfCall(t).value, t) else PassesBefore(9, t)
  {
  }

  lemma FirstOfChainIsFirst(t: Tests)
    requires PassesBefore(9, t)
    ensures if FirstOfChain(t).Some? then FirstFailure(FirstOfChain(t).value, t) else PassesBefore(21, t)
  {
  }

  lemma SamePlace(a: QueryError, b: QueryError, t: Tests)
    requires Fails(a, t) && Fails(b, t) && Place(a) == Place(b)
    ensures a == b
  {
  }

  lemma SomeFailure(e: QueryError, t: Tests)
    requires Fails(e, t)
    ensures !PassesBefore(21, t)
  {
    assert Place(e) < 21;
  }

  lemma OnlyFirst(a: QueryError, b: QueryError, t: Tests)
    requires FirstFailure(a, t) && FirstFailure(b, t)
    ensures a == b
  {
    assert Place(a) == Place(b);
    SamePlace(a, b, t);
  }

  lemma FirstIff(e: QueryError, first: Option<QueryError>, t: Tests)
    requires if first.Some? then FirstFailure(first.value, t) else PassesBefore(21, t)
    ensures (first == Some(e) <==> FirstFailure(e, t)) && (first.None? <==> PassesBefore(21, t))
  {
    if first.Some? {
      SomeFailure(first.value, t);
      if FirstFailure(e, t) {
        OnlyFirst(first.value, e, t);
      }
    } else if FirstFailure(e, t) {
      SomeFailure(e, t);
    }
  }

  lemma FirstOfIff(e: QueryError, t: Tests)
    ensures (FirstOf(t) == Some(e) <==> FirstFailure(e, t)) && (FirstOf(t).None? <==> PassesBefore(21, t))
  {
    FirstOfCallIsFirst(t);
    if FirstOfCall(t).None? {
      FirstOfChainIsFirst(t);
    }
    FirstIff(e, FirstOf(t), t);
  }

  lemma OutcomeOfTests(
    call: Call, tbl: Option<Table>, wh: Option<Warehouse>, conn: Option<Connection>, token: Option<string>,
    columns: seq<string>, limit: int)
    ensures var t := TestsOf(call, tbl, wh, conn, token, columns, limit);
      && (QueryOutcome(call, tbl, wh, conn, token, columns, limit).Ok? <==> FirstOf(t).None?)
      && (FirstOf(t).Some? ==> QueryOutcome(call, tbl, wh, conn, token, columns, limit) == Err(FirstOf(t).value))
  {
  }

  /** An error is reported exactly when its check is the first to fail, so each error means what it says. */
  lemma ReportsFirstFailure(
    e: QueryError, call: Call, tbl: Option<Table>, wh: Option<Warehouse>, conn: Option<Connection>,
    token: Option<string>, columns: seq<string>, limit: int)
    ensures var t := TestsOf(call, tbl, wh, conn, token, columns, limit);
      && (QueryOutcome(call, tbl, wh, conn, token, columns, limit) == Err(e) <==> FirstFailure(e, t))
      && (QueryOutcome(call, tbl, wh, conn, token, columns, limit).Ok? <==> PassesBefore(21, t))
  {
    var t := TestsOf(call, tbl, wh, conn, token, columns, limit);
    OutcomeOfTests(call, tbl, wh, conn, token, columns, limit);
    FirstOfIff(e, t);
  }

  /** Which error a request meets before anything is read: limit, number of columns, columns from the left. */
  lemma RequestErrorIff(columns: seq<string>, limit: int, e: SqlError)
    ensures RequestError(columns, limit) == Some(e) <==>
      match e
      case BadLimit => !(0 <= limit <= 100)
      case TooManyColumns => 0 <= limit <= 100 && |columns| > 64
      case BadTable => false
      case _ =>
        && 0 <= limit <= 100 && |columns| <= 64 && ColumnFault(columns, {}, e) && ColumnOf(e) < |columns|
        && forall j :: 0 <= j < ColumnOf(e) ==> GoodColumn(columns, j, {})
    ensures RequestError(columns, limit).None? <==> GoodRequest(columns, limit)
  {
    FirstColumnErrorIff(columns, 0, {}, e);
    ColumnsAcceptedIff(columns, {});
  }

  method CheckRequest(columns: seq<string>, limit: int) returns (r: Option<SqlError>)
    ensures r == RequestError(columns, limit)
  {
    var requested := limit;
    if requested == 0 {
      requested := DEFAULT_QUERY_LIMIT;
    }
    if requested < 1 || requested > MAX_QUERY_LIMIT {
      return Some(BadLimit);
    }
    if |columns| > MAX_QUERY_COLUMNS {
      return Some(TooManyColumns);
    }
    var list := SelectList(columns, {});
    r := if list.Err? then Some(list.error) else None;
  }

  method CheckCall(call: Call, columns: seq<string>, limit: int) returns (r: Option<QueryError>)
    ensures r == CallError(call, columns, limit)
  {
    if !call.configured {
      return Some(ClientUnavailable);
    }
    if TrimSpace(call.clusterID) == "" {
      return Some(IdentityMissing);
    }
    if TrimSpace(call.callerToken) == "" {
      return Some(CallerTokenMissing);
    }
    var name := TrimSpace(call.name);
    if name == "" {
      return Some(NameMissing);
    }
    if !ValidTableRef(name) {
      return Some(BadName);
    }
    var requestError := CheckRequest(columns, limit);
    if requestError.Some? {
      return Some(BadRequest(requestError.value));
    }
    if !call.mayRead {
      return Some(TableForbidden);
    }
    if !call.mayAct {
      return Some(ActionForbidden);
    }
    return if call.authority then None else Some(AuthorityUnavailable);
  }

  method AllowedNames(schema: seq<Column>) returns (allowed: seq<string>)
    ensures allowed == Names(schema)
  {
    allowed := [];
    for i := 0 to |schema|
      invariant allowed == Names(schema)[..i]
    {
      allowed := allowed + [schema[i].name];
    }
  }

  method QueryTable(
    call: Call, tbl: Option<Table>, wh: Option<Warehouse>, conn: Option<Connection>, token: Option<string>,
    columns: seq<string>, limit: int) returns (r: Result<string, QueryError>)
    ensures r == QueryOutcome(call, tbl, wh, conn, token, columns, limit)
  {
    var callError := CheckCall(call, columns, limit);
    if callError.Some? {
      return Err(callError.value);
    }
    if tbl.None? {
      return Err(TableUnavailable);
    }
    if wh.None? {
      return Err(WarehouseUnavailable);
    }
    if TrimSpace(tbl.value.spec.connectionRef) == "" || tbl.value.spec.connectionRef != wh.value.spec.connectionRef {
      return Err(ConnectionMismatch);
    }
    if !TableReady(tbl.value) {
      return Err(TableNotReady);
    }
    if !WarehouseReady(wh.value) {
      return Err(WarehouseNotReady);
    }
    if conn.None? {
      return Err(ConnectionUnavailable);
    }
    if !ConnectionReady(conn.value) {
      return Err(ConnectionNotReady);
    }
    if conn.value.spec.authType != AUTH_PAT {
      return Err(AuthTypeUnsupported);
    }
    if token.None? {
      return Err(CredentialUnavailable);
    }
    if !call.executor {
      return Err(ExecutorUnavailable);
    }
    var allowed := AllowedNames(tbl.value.status.columns);
    if |columns| > 0 && |allowed| == 0 {
      return Err(SchemaUnavailable);
    }
    var sql := SelectTableSQL(RefOf(tbl.value.spec), columns, EffectiveLimit(limit), allowed);
    if sql.Err? {
      return Err(BadStatement(sql.error));
    }
    return Ok(sql.value);
  }

  /** One of the first 64 columns that a validation returned has this name. */
  ghost predicate Returned(check: TableValidation, column: string)
  {
    exists i :: 0 <= i < |check.columns| && i < 64 && check.columns[i].name == column
  }

  /** A statement that reads back as a bounded projection of exactly the table that `check` validated. */
  ghost predicate Covers(check: TableValidation, sql: string, columns: seq<string>, limit: int)
  {
    && 0 <= limit <= 100
    && ReadSelect(sql) == Some(Select(columns, RefOf(check.spec), if limit == 0 then 100 else limit))
    && forall c :: c in columns ==> Returned(check, c)
  }

  lemma CachedIsReturned(check: TableValidation, cached: seq<Column>, column: string)
    requires FirstColumns(cached, check.columns)
    ensures column in Names(cached) <==> Returned(check, column)
  {
    if i :| 0 <= i < |check.columns| && i < 64 && check.columns[i].name == column {
      assert Names(cached)[i] == column;
    }
    if column in Names(cached) {
      var i :| 0 <= i < |cached| && Names(cached)[i] == column;
      assert check.columns[i] == cached[i];
    }
  }

  lemma StatementCovers(check: TableValidation, cached: seq<Column>, columns: seq<string>, limit: int)
    requires ValidSchema(check.columns) && FirstColumns(cached, check.columns)
    requires SelectOutcome(RefOf(check.spec), columns, EffectiveLimit(limit), Names(cached)).Ok?
    ensures Covers(check,
      SelectOutcome(RefOf(check.spec), columns, EffectiveLimit(limit), Names(cached)).value, columns, limit)
  {
    var names := Names(cached);
    AcceptedStatementReadsBack(RefOf(check.spec), columns, EffectiveLimit(limit), names);
    AcceptedIff(RefOf(check.spec), columns, EffectiveLimit(limit), names);
    assert cached[0] in check.columns;
    ProjectionWithinSchema(RefOf(check.spec), columns, EffectiveLimit(limit), names);
    forall c | c in columns
      ensures Returned(check, c)
    {
      CachedIsReturned(check, cached, c);
    }
  }

  /**
   End to end, over every run and whatever stale versions a query reads: a statement that reaches the
   backend names the table of a recorded validation of the same spec, made through a ready chain, and every
   column it projects is among the first 64 columns that validation returned.
   */
  lemma ProjectionIsValidated(
    w: World, call: Call, tbl: Table, wh: Option<Warehouse>, conn: Option<Connection>, token: Option<string>,
    columns: seq<string>, limit: int)
    requires Reachable(w) && ResolvedFrom(w.tables, call.name, Some(tbl))
    ensures tbl.name == TrimSpace(call.name)
    ensures var outcome := QueryOutcome(call, Some(tbl), wh, conn, token, columns, limit);
      outcome.Ok? ==> exists check :: ValidatedThrough(w, tbl, check) && Covers(check, outcome.value, columns, limit)
  {
    var outcome := QueryOutcome(call, Some(tbl), wh, conn, token, columns, limit);
    if outcome.Ok? {
      ReadyTableHasReadyChain(w, tbl);
      var check :| ValidatedThrough(w, tbl, check);
      assert Covers(check, outcome.value, columns, limit) by {
        StatementCovers(check, tbl.status.columns, columns, limit);
      }
    }
  }

  /** A request the controls accept: limit in range, few, valid and distinct columns. */
  predicate GoodRequest(columns: seq<string>, limit: int)
  {
    && 0 <= limit <= 100 && |columns| <= 64
    && (forall i :: 0 <= i < |columns| ==> ValidIdent(columns[i]))
    && (forall i, j :: 0 <= i < j < |columns| ==> columns[i] != columns[j])
  }

  /** A caller with an identity, a legal table name and both grants, in a process that can serve it. */
  predicate GoodCall(call: Call)
  {
    && TrimSpace(call.clusterID) != "" && TrimSpace(call.callerToken) != "" && ValidTableRef(TrimSpace(call.name))
    && call.mayRead && call.mayAct && call.configured && call.authority && call.executor
  }

  /**
   Table, warehouse and connection were read, belong together, are ready for their generations, and have a credential.
   */
  predicate ChainReady(tbl: Table, wh: Option<Warehouse>, conn: Option<Connection>, token: Option<string>)
  {
    && TableReady(tbl)
    && wh.Some? && WarehouseReady(wh.value)
    && TrimSpace(tbl.spec.connectionRef) != "" && tbl.spec.connectionRef == wh.value.spec.connectionRef
    && conn.Some? && ConnectionReady(conn.value)
    && token.Some?
  }

  /** The names of a reachable ready table are usable: there are some, and none is blank. */
  lemma ReadyNamesUsable(w: World, tbl: Table)
    requires Reachable(w) && tbl in w.tables.history && TableReady(tbl)
    ensures tbl.status.columns != [] && Allowed(Names(tbl.status.columns)) != {}
    ensures forall c :: c in Allowed(Names(tbl.status.columns)) <==> c in Names(tbl.status.columns)
  {
    ReadyTableHasReadyChain(w, tbl);
    var check :| ValidatedThrough(w, tbl, check);
    var columns, names := tbl.status.columns, Names(tbl.status.columns);
    forall i | 0 <= i < |names|
      ensures TrimSpace(names[i]) != ""
    {
      assert columns[i] == check.columns[i] && check.columns[i] in check.columns;
    }
    assert names[0] in Allowed(names);
  }

  lemma CallAcceptedIff(call: Call, columns: seq<string>, limit: int)
    ensures CallError(call, columns, limit).None? && call.executor <==> GoodCall(call) && GoodRequest(columns, limit)
  {
    ColumnsAcceptedIff(columns, {});
  }

  /** The checks on what was read, once ready connections are known to have the supported auth type. */
  lemma ChainAcceptedIff(
    call: Call, tbl: Table, wh: Option<Warehouse>, conn: Option<Connection>, token: Option<string>,
    columns: seq<string>)
    requires conn.Some? && ConnectionReady(conn.value) ==> conn.value.spec.authType == AUTH_PAT
    ensures ChainError(call, Some(tbl), wh, conn, token, columns).None? <==>
      ChainReady(tbl, wh, conn, token) && call.executor && (columns == [] || tbl.status.columns != [])
  {
  }

  lemma OutcomeOkIff(
    call: Call, tbl: Table, wh: Option<Warehouse>, conn: Option<Connection>, token: Option<string>,
    columns: seq<string>, limit: int)
    ensures QueryOutcome(call, Some(tbl), wh, conn, token, columns, limit).Ok? <==>
      && CallError(call, columns, limit).None? && ChainError(call, Some(tbl), wh, conn, token, columns).None?
      && SelectOutcome(RefOf(tbl.spec), columns, EffectiveLimit(limit), Names(tbl.status.columns)).Ok?
  {
  }

  /** A ready table of a reachable world has a reference that SQL can name. */
  lemma ReadyTableHasValidRef(w: World, tbl: Table)
    requires Reachable(w) && tbl in w.tables.history && TableReady(tbl)
    ensures ValidRef(RefOf(tbl.spec))
  {
    ReadyTableHasReadyChain(w, tbl);
    var check :| ValidatedThrough(w, tbl, check);
  }

  /** For a ready table of a reachable world, a statement is produced exactly for schema columns. */
  lemma StatementAcceptedIff(w: World, tbl: Table, columns: seq<string>, limit: int)
    requires Reachable(w) && tbl in w.tables.history && TableReady(tbl) && GoodRequest(columns, limit)
    ensures tbl.status.columns != []
    ensures SelectOutcome(RefOf(tbl.spec), columns, EffectiveLimit(limit), Names(tbl.status.columns)).Ok? <==>
      forall i :: 0 <= i < |columns| ==> columns[i] in Names(tbl.status.columns)
  {
    ReadyNamesUsable(w, tbl);
    ReadyTableHasValidRef(w, tbl);
    AcceptedIff(RefOf(tbl.spec), columns, EffectiveLimit(limit), Names(tbl.status.columns));
  }

  /**
   In every reachable world, a query reaches the backend exactly when caller, request, chain and schema allow it. The
   auth type and the table's SQL name need no mention: a ready connection and a ready table have good ones.
   */
  lemma ReachesBackendIff(
    w: World, call: Call, tbl: Table, wh: Option<Warehouse>, conn: Option<Connection>, token: Option<string>,
    columns: seq<string>, limit: int)
    requires Reachable(w) && ResolvedFrom(w.tables, call.name, Some(tbl))
    requires ResolvedFrom(w.connections, tbl.spec.connectionRef, conn)
    ensures QueryOutcome(call, Some(tbl), wh, conn, token, columns, limit).Ok? <==>
      && GoodCall(call) && GoodRequest(columns, limit) && ChainReady(tbl, wh, conn, token)
      && forall i :: 0 <= i < |columns| ==> columns[i] in Names(tbl.status.columns)
  {
    if conn.Some? && ConnectionReady(conn.value) {
      ReadyConnectionIsPat(w, conn.value);
    }
    CallAcceptedIff(call, columns, limit);
    ChainAcceptedIff(call, tbl, wh, conn, token, columns);
    OutcomeOkIff(call, tbl, wh, conn, token, columns, limit);
    if TableReady(tbl) && GoodRequest(columns, limit) {
      StatementAcceptedIff(w, tbl, columns, limit);
    }
  }

  /**
   And the other way round: for a ready table, behind good call, request and chain, a projection is served exactly when
   every column is among the first 64 of the validation behind the table.
   */
  lemma ValidatedColumnsAreServed(
    w: World, call: Call, tbl: Table, wh: Option<Warehouse>, conn: Option<Connection>, token: Option<string>,
    columns: seq<string>, limit: int)
    requires Reachable(w) && ResolvedFrom(w.tables, call.name, Some(tbl))
    requires ResolvedFrom(w.connections, tbl.spec.connectionRef, conn)
    requires GoodCall(call) && GoodRequest(columns, limit) && ChainReady(tbl, wh, conn, token)
    ensures exists check :: ValidatedThrough(w, tbl, check)
    ensures forall check :: ValidatedThrough(w, tbl, check) ==>
      (QueryOutcome(call, Some(tbl), wh, conn, token, columns, limit).Ok? <==>
        forall i :: 0 <= i < |columns| ==> Returned(check, columns[i]))
  {
    ReadyTableHasReadyChain(w, tbl);
    ReachesBackendIff(w, call, tbl, wh, conn, token, columns, limit);
    forall check, c | ValidatedThrough(w, tbl, check)
      ensures c in Names(tbl.status.columns) <==> Returned(check, c)
    {
      CachedIsReturned(check, tbl.status.columns, c);
    }
  }

  /** A column that passed the request checks can only fail for its schema. */
  lemma {:induction false} SchemaErrorOnly(columns: seq<string>, i: nat, allowed: set<string>)
    requires i <= |columns| && FirstColumnError(columns, i, {}).None?
    ensures var error := FirstColumnError(columns, i, allowed); error.Some? ==> error.value.NotInSchema?
    decreases |columns| - i
  {
    if i < |columns| {
      SchemaErrorOnly(columns, i + 1, allowed);
    }
  }

  /** So of all statement errors only a column outside the cached schema can reach a caller. */
  lemma OnlySchemaErrors(
    w: World, call: Call, tbl: Table, wh: Option<Warehouse>, conn: Option<Connection>, token: Option<string>,
    columns: seq<string>, limit: int, reason: SqlError)
    requires Reachable(w) && ResolvedFrom(w.tables, call.name, Some(tbl))
    ensures QueryOutcome(call, Some(tbl), wh, conn, token, columns, limit) == Err(BadStatement(reason)) ==>
      reason.NotInSchema?
  {
    if QueryOutcome(call, Some(tbl), wh, conn, token, columns, limit) == Err(BadStatement(reason)) {
      ReadyTableHasValidRef(w, tbl);
      SchemaErrorOnly(columns, 0, Allowed(Names(tbl.status.columns)));
    }
  }
}
