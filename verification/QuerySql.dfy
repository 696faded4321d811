/** Construction of the only statement query_table may run (queryapi/query.go), with a reader for it. */
module QuerySql {
  import opened Wrappers
  import opened Text
  import opened QueryContract

  datatype TableRef = TableRef(catalog: string, schema: string, table: string)

  /** Unicode category Cc, which Go's `unicode.IsControl` tests. */
  predicate IsControl(c: char)
  {
    c < ' ' || '\U{7F}' <= c <= '\U{9F}'
  }

  predicate IdentStart(c: char)
  {
    'A' <= c <= 'Z' || 'a' <= c <= 'z' || c == '_'
  }

  predicate PlainIdent(s: string)
  {
    && s != "" && IdentStart(s[0])
    && forall c :: c in s ==> IdentStart(c) || '0' <= c <= '9'
  }

  /** Go's `strings.ReplaceAll` for a one-character needle. */
  function ReplaceAll(s: string, needle: char, sub: string): string
  {
    if s == "" then "" else (if s[0] == needle then sub else [s[0]]) + ReplaceAll(s[1..], needle, sub)
  }

  predicate ValidIdent(s: string)
  {
    0 < |s| <= MAX_IDENTIFIER_LENGTH && forall c :: c in s ==> !IsControl(c)
  }

  function Quoted(s: string): string
  {
    "`" + ReplaceAll(s, '`', "``") + "`"
  }

  lemma {:induction false} ReplaceAbsent(s: string, needle: char, sub: string)
    requires needle !in s
    ensures ReplaceAll(s, needle, sub) == s
  {
    if s != "" {
      ReplaceAbsent(s[1..], needle, sub);
    }
  }

  /**
   Quote one identifier. The unescaped fast path for plain identifiers is the general doubling rule, and the
   acceptance test does not depend on which path is taken.
   */
  method QuoteIdent(value: string) returns (r: Option<string>)
    ensures r == if ValidIdent(value) then Some(Quoted(value)) else None
  {
    if value == "" || |value| > MAX_IDENTIFIER_LENGTH {
      return None;
    }
    if PlainIdent(value) {
      ReplaceAbsent(value, '`', "``");
      return Some("`" + value + "`");
    }
    for i := 0 to |value|
      invariant forall j :: 0 <= j < i ==> !IsControl(value[j])
    {
      if IsControl(value[i]) {
        return None;
      }
    }
    return Some(Quoted(value));
  }

  datatype SqlError =
    | BadLimit
    | TooManyColumns
    | BadTable
    | BadColumn(index: nat)
    | NotInSchema(index: nat)
    | Repeated(index: nat)

  predicate ValidRef(ref: TableRef)
  {
    ValidIdent(ref.catalog) && ValidIdent(ref.schema) && ValidIdent(ref.table)
  }

  function QualifiedTable(ref: TableRef): string
  {
    Quoted(ref.catalog) + "." + Quoted(ref.schema) + "." + Quoted(ref.table)
  }

  function EffectiveLimit(limit: int): int
  {
    if limit == 0 then DEFAULT_QUERY_LIMIT else limit
  }

  function Allowed(columns: seq<string>): set<string>
  {
    set c | c in columns && TrimSpace(c) != ""
  }

  /** What is wrong with the column at `i`, given the columns before it. */
  function ColumnError(projection: seq<string>, i: nat, allowed: set<string>): Option<SqlError>
    requires i < |projection|
  {
    if !ValidIdent(projection[i]) then Some(BadColumn(i))
    else if allowed != {} && projection[i] !in allowed then Some(NotInSchema(i))
    else if projection[i] in projection[..i] then Some(Repeated(i))
    else None
  }

  /** The first error from index `i` on. */
  function FirstColumnError(projection: seq<string>, i: nat, allowed: set<string>): Option<SqlError>
    requires i <= |projection|
    decreases |projection| - i
  {
    if i == |projection| then None
    else if ColumnError(projection, i, allowed).Some? then ColumnError(projection, i, allowed)
    else FirstColumnError(projection, i + 1, allowed)
  }

  function JoinQuoted(names: seq<string>): string
  {
    if names == [] then ""
    else if |names| == 1 then Quoted(names[0])
    else Quoted(names[0]) + ", " + JoinQuoted(names[1..])
  }

  lemma Assoc3(a: string, b: string, c: string, d: string)
    ensures a + (b + c + d) == a + b + c + d
  {
  }

  lemma AssocRight(a: string, b: string, c: string, d: string, e: string, f: string)
    ensures a + b + c + d + e + f == a + (b + (c + (d + (e + f))))
  {
  }

  lemma {:induction false} JoinQuotedSnoc(names: seq<string>, last: string)
    ensures JoinQuoted(names + [last]) == if names == [] then Quoted(last) else JoinQuoted(names) + ", " + Quoted(last)
  {
    if |names| > 1 {
      assert (names + [last])[1..] == names[1..] + [last];
      JoinQuotedSnoc(names[1..], last);
      Assoc3(Quoted(names[0]) + ", ", JoinQuoted(names[1..]), ", ", Quoted(last));
    } else if |names| == 1 {
      assert (names + [last])[1..] == [last];
    }
  }

  function Digit(d: nat): (c: char)
    requires d < 10
    ensures '0' <= c <= '9'
  {
    ('0' as int + d) as char
  }

  function Digits(n: nat): string
  {
    if n < 10 then [Digit(n)] else Digits(n / 10) + [Digit(n % 10)]
  }

  function Statement(ref: TableRef, projection: seq<string>, limit: nat): string
  {
    "SELECT " + (if projection == [] then "*" else JoinQuoted(projection)) + " FROM " + QualifiedTable(ref)
      + " LIMIT " + Digits(limit)
  }

  /** What SelectTableSQL returns: the first error its checks meet, or the statement. */
  function SelectOutcome(
    ref: TableRef, projection: seq<string>, limit: int, allowedColumns: seq<string>): Result<string, SqlError>
  {
    var effective := EffectiveLimit(limit);
    if effective < 1 || effective > MAX_QUERY_LIMIT then Err(BadLimit)
    else if |projection| > MAX_QUERY_COLUMNS then Err(TooManyColumns)
    else if !ValidRef(ref) then Err(BadTable)
    else
      var error := FirstColumnError(projection, 0, Allowed(allowedColumns));
      if error.Some? then Err(error.value) else Ok(Statement(ref, projection, effective))
  }

  method AllowedSet(columns: seq<string>) returns (allowed: set<string>)
    ensures allowed == Allowed(columns)
  {
    allowed := {};
    for i := 0 to |columns|
      invariant allowed == Allowed(columns[..i])
    {
      assert columns[..i + 1] == columns[..i] + [columns[i]];
      if TrimSpace(columns[i]) != "" {
        allowed := allowed + {columns[i]};
      }
    }
    assert columns[..|columns|] == columns;
  }

  /** The checks on one column; `seen` holds the columns before it. */
  method CheckColumn(projection: seq<string>, i: nat, allowed: set<string>, seen: set<string>)
    returns (error: Option<SqlError>)
    requires i < |projection| && seen == set c | c in projection[..i]
    ensures error == ColumnError(projection, i, allowed)
  {
    var quoted := QuoteIdent(projection[i]);
    if quoted.None? {
      return Some(BadColumn(i));
    }
    if allowed != {} && projection[i] !in allowed {
      return Some(NotInSchema(i));
    }
    if projection[i] in seen {
      return Some(Repeated(i));
    }
    return None;
  }

  lemma JoinQuotedStep(names: seq<string>, i: nat)
    requires i < |names|
    ensures JoinQuoted(names[..i + 1]) ==
      if i == 0 then Quoted(names[i]) else JoinQuoted(names[..i]) + ", " + Quoted(names[i])
  {
    assert names[..i + 1] == names[..i] + [names[i]];
    JoinQuotedSnoc(names[..i], names[i]);
  }

  method SelectList(projection: seq<string>, allowed: set<string>) returns (r: Result<string, SqlError>)
    ensures var error := FirstColumnError(projection, 0, allowed);
      r == if error.Some? then Err(error.value) else Ok(JoinQuoted(projection))
  {
    var parts, seen := "", {};
    for i := 0 to |projection|
      invariant seen == set c | c in projection[..i]
      invariant parts == JoinQuoted(projection[..i])
      invariant FirstColumnError(projection, 0, allowed) == FirstColumnError(projection, i, allowed)
    {
      var error := CheckColumn(projection, i, allowed, seen);
      if error.Some? {
        return Err(error.value);
      }
      seen := seen + {projection[i]};
      var quoted := QuoteIdent(projection[i]);
      JoinQuotedStep(projection, i);
      parts := if i == 0 then quoted.value else parts + ", " + quoted.value;
    }
    assert projection[..|projection|] == projection;
    return Ok(parts);
  }

  method SelectTableSQL(ref: TableRef, projection: seq<string>, limit: int, allowedColumns: seq<string>)
    returns (r: Result<string, SqlError>)
    ensures r == SelectOutcome(ref, projection, limit, allowedColumns)
  {
    var effective := limit;
    if effective == 0 {
      effective := DEFAULT_QUERY_LIMIT;
    }
    if effective < 1 || effective > MAX_QUERY_LIMIT {
      return Err(BadLimit);
    }
    if |projection| > MAX_QUERY_COLUMNS {
      return Err(TooManyColumns);
    }
    var catalog := QuoteIdent(ref.catalog);
    var schema := QuoteIdent(ref.schema);
    var table := QuoteIdent(ref.table);
    if catalog.None? || schema.None? || table.None? {
      return Err(BadTable);
    }
    var allowed := AllowedSet(allowedColumns);
    var selectList := "*";
    if |projection| > 0 {
      var list := SelectList(projection, allowed);
      if list.Err? {
        return list;
      }
      selectList := list.value;
    }
    var from := catalog.value + "." + schema.value + "." + table.value;
    return Ok("SELECT " + selectList + " FROM " + from + " LIMIT " + Digits(effective));
  }

  lemma ColumnsAcceptedIff(projection: seq<string>, allowed: set<string>)
    ensures FirstColumnError(projection, 0, allowed).None? <==>
      && (forall i :: 0 <= i < |projection| ==> ValidIdent(projection[i]))
      && (allowed != {} ==> forall i :: 0 <= i < |projection| ==> projection[i] in allowed)
      && (forall i, j :: 0 <= i < j < |projection| ==> projection[i] != projection[j])
  {
    NoColumnErrorIff(projection, 0, allowed);
    forall i | 0 <= i < |projection|
      ensures ColumnError(projection, i, allowed).None? <==>
        && ValidIdent(projection[i]) && (allowed != {} ==> projection[i] in allowed)
        && forall j :: 0 <= j < i ==> projection[j] != projection[i]
    {
      assert projection[i] in projection[..i] <==> exists j :: 0 <= j < i && projection[j] == projection[i];
    }
  }

  /** The statement is accepted exactly when limit, table and every projected column are. */
  lemma AcceptedIff(ref: TableRef, projection: seq<string>, limit: int, allowedColumns: seq<string>)
    ensures SelectOutcome(ref, projection, limit, allowedColumns).Ok? <==>
      && 0 <= limit <= 100 && |projection| <= 64 && ValidRef(ref)
      && (forall i :: 0 <= i < |projection| ==> ValidIdent(projection[i]))
      && (Allowed(allowedColumns) != {} ==> forall i :: 0 <= i < |projection| ==>
        projection[i] in Allowed(allowedColumns))
      && (forall i, j :: 0 <= i < j < |projection| ==> projection[i] != projection[j])
  {
    ColumnsAcceptedIff(projection, Allowed(allowedColumns));
  }

  lemma {:induction false} NoColumnErrorIff(projection: seq<string>, i: nat, allowed: set<string>)
    requires i <= |projection|
    ensures FirstColumnError(projection, i, allowed).None? <==>
      forall j :: i <= j < |projection| ==> ColumnError(projection, j, allowed).None?
    decreases |projection| - i
  {
    if i < |projection| {
      NoColumnErrorIff(projection, i + 1, allowed);
    }
  }

  /** The column at `i` can be quoted, is allowed, and is new. */
  ghost predicate GoodColumn(projection: seq<string>, i: nat, allowed: set<string>)
    requires i < |projection|
  {
    && ValidIdent(projection[i]) && (allowed != {} ==> projection[i] in allowed)
    && forall j :: 0 <= j < i ==> projection[j] != projection[i]
  }

  /** What an error about a column says about it. */
  ghost predicate ColumnFault(projection: seq<string>, allowed: set<string>, e: SqlError)
  {
    match e
    case BadColumn(i) => i < |projection| && !ValidIdent(projection[i])
    case NotInSchema(i) => i < |projection| && ValidIdent(projection[i]) && allowed != {} && projection[i] !in allowed
    case Repeated(i) =>
      && i < |projection| && ValidIdent(projection[i]) && (allowed != {} ==> projection[i] in allowed)
      && exists j :: 0 <= j < i && projection[j] == projection[i]
    case _ => false
  }

  function ColumnOf(e: SqlError): nat
  {
    match e case BadColumn(i) => i case NotInSchema(i) => i case Repeated(i) => i case _ => 0
  }

  lemma ColumnErrorIff(projection: seq<string>, i: nat, allowed: set<string>, e: SqlError)
    requires i < |projection|
    ensures ColumnError(projection, i, allowed) == Some(e) <==>
      ColumnFault(projection, allowed, e) && ColumnOf(e) == i
    ensures ColumnError(projection, i, allowed).None? <==> GoodColumn(projection, i, allowed)
  {
    assert projection[i] in projection[..i] <==> exists j :: 0 <= j < i && projection[j] == projection[i];
  }

  lemma {:induction false} FirstColumnErrorIff(projection: seq<string>, i: nat, allowed: set<string>, e: SqlError)
    requires i <= |projection|
    ensures FirstColumnError(projection, i, allowed) == Some(e) <==>
      && ColumnFault(projection, allowed, e) && i <= ColumnOf(e) < |projection|
      && forall j :: i <= j < ColumnOf(e) ==> GoodColumn(projection, j, allowed)
    decreases |projection| - i
  {
    if i < |projection| {
      ColumnErrorIff(projection, i, allowed, e);
      FirstColumnErrorIff(projection, i + 1, allowed, e);
      if ColumnError(projection, i, allowed).Some? {
        ColumnErrorIff(projection, i, allowed, ColumnError(projection, i, allowed).value);
      }
    }
  }

  /** Which error is returned: the first in the order limit, number of columns, table, columns from the left. */
  lemma RefusedIff(
    ref: TableRef, projection: seq<string>, limit: int, allowedColumns: seq<string>, e: SqlError)
    ensures var goodLimit := 0 <= limit <= 100;
      SelectOutcome(ref, projection, limit, allowedColumns) == Err(e) <==>
        match e
        case BadLimit => !goodLimit
        case TooManyColumns => goodLimit && |projection| > 64
        case BadTable => goodLimit && |projection| <= 64 && !ValidRef(ref)
        case _ =>
          && goodLimit && |projection| <= 64 && ValidRef(ref)
          && ColumnFault(projection, Allowed(allowedColumns), e) && ColumnOf(e) < |projection|
          && forall j :: 0 <= j < ColumnOf(e) ==> GoodColumn(projection, j, Allowed(allowedColumns))
  {
    FirstColumnErrorIff(projection, 0, Allowed(allowedColumns), e);
  }

  // ---------------------------------------------------------------------------------------------
  // Reading a statement back, by the lexical rules of backtick-quoted identifiers
  // ---------------------------------------------------------------------------------------------

  datatype Read<T> = Read(value: T, rest: string)

  datatype Select = Select(projection: seq<string>, ref: TableRef, limit: nat)

  /** The text after an opening backtick: a doubled backtick stands for one, a single one closes. */
  function ReadBody(s: string): (r: Option<Read<string>>)
    ensures r.Some? ==> |r.value.rest| < |s|
    decreases |s|
  {
    if s == "" then None
    else if s[0] != '`' then
      var tail := ReadBody(s[1..]);
      if tail.None? then None else Some(Read([s[0]] + tail.value.value, tail.value.rest))
    else if |s| >= 2 && s[1] == '`' then
      var tail := ReadBody(s[2..]);
      if tail.None? then None else Some(Read("`" + tail.value.value, tail.value.rest))
    else Some(Read("", s[1..]))
  }

  function ReadIdent(s: string): (r: Option<Read<string>>)
    ensures r.Some? ==> |r.value.rest| < |s|
  {
    if s == "" || s[0] != '`' then None else ReadBody(s[1..])
  }

  function ReadWord(s: string, word: string): Option<string>
  {
    if word <= s then Some(s[|word|..]) else None
  }

  /** Identifiers separated by a comma and a space. */
  function ReadList(s: string): Option<Read<seq<string>>>
    decreases |s|
  {
    var first := ReadIdent(s);
    if first.None? then None
    else if ReadWord(first.value.rest, ", ").None? then Some(Read([first.value.value], first.value.rest))
    else
      var tail := ReadList(ReadWord(first.value.rest, ", ").value);
      if tail.None? then None else Some(Read([first.value.value] + tail.value.value, tail.value.rest))
  }

  function ReadProjection(s: string): Option<Read<seq<string>>>
  {
    if ReadWord(s, "*").Some? then Some(Read([], ReadWord(s, "*").value)) else ReadList(s)
  }

  function ReadTable(s: string): Option<Read<TableRef>>
  {
    var catalog := ReadIdent(s);
    if catalog.None? || ReadWord(catalog.value.rest, ".").None? then None
    else
      var schema := ReadIdent(ReadWord(catalog.value.rest, ".").value);
      if schema.None? || ReadWord(schema.value.rest, ".").None? then None
      else
        var table := ReadIdent(ReadWord(schema.value.rest, ".").value);
        if table.None? then None
        else Some(Read(TableRef(catalog.value.value, schema.value.value, table.value.value), table.value.rest))
  }

  function ReadNumber(s: string): Option<nat>
  {
    if s == "" || !('0' <= s[|s| - 1] <= '9') then None
    else
      var digit := s[|s| - 1] as nat - '0' as nat;
      if |s| == 1 then Some(digit)
      else
        var high := ReadNumber(s[..|s| - 1]);
        if high.None? then None else Some(10 * high.value + digit)
  }

  /** The " FROM table LIMIT n" that ends a statement. */
  function ReadSource(s: string): Option<(TableRef, nat)>
  {
    var from := ReadWord(s, " FROM ");
    if from.None? then None
    else
      var table := ReadTable(from.value);
      if table.None? || ReadWord(table.value.rest, " LIMIT ").None? then None
      else
        var limit := ReadNumber(ReadWord(table.value.rest, " LIMIT ").value);
        if limit.None? then None else Some((table.value.value, limit.value))
  }

  function ReadSelect(sql: string): Option<Select>
  {
    var start := ReadWord(sql, "SELECT ");
    if start.None? then None
    else
      var projection := ReadProjection(start.value);
      if projection.None? || ReadSource(projection.value.rest).None? then None
      else
        var source := ReadSource(projection.value.rest).value;
        Some(Select(projection.value.value, source.0, source.1))
  }

  predicate Ends(rest: string)
  {
    rest == "" || rest[0] != '`'
  }

  lemma QuotedLayout(v: string, rest: string)
    requires v != ""
    ensures ReplaceAll(v, '`', "``") + "`" + rest ==
      (if v[0] == '`' then "``" else [v[0]]) + (ReplaceAll(v[1..], '`', "``") + "`" + rest)
  {
  }

  lemma ReadCharBack(c: char, tail: string, value: string, rest: string)
    requires ReadBody(tail) == Some(Read(value, rest))
    ensures ReadBody((if c == '`' then "``" else [c]) + tail) == Some(Read([c] + value, rest))
  {
    assert ("``" + tail)[2..] == tail && ([c] + tail)[1..] == tail;
  }

  lemma {:induction false} ReadBodyOfQuoted(v: string, rest: string)
    requires Ends(rest)
    ensures ReadBody(ReplaceAll(v, '`', "``") + "`" + rest) == Some(Read(v, rest))
  {
    if v == "" {
      assert "" + "`" + rest == "`" + rest;
    } else {
      ReadBodyOfQuoted(v[1..], rest);
      ReadCharBack(v[0], ReplaceAll(v[1..], '`', "``") + "`" + rest, v[1..], rest);
      QuotedLayout(v, rest);
      assert v == [v[0]] + v[1..];
    }
  }

  lemma ReadIdentOfQuoted(v: string, rest: string)
    requires Ends(rest)
    ensures ReadIdent(Quoted(v) + rest) == Some(Read(v, rest))
  {
    ReadBodyOfQuoted(v, rest);
    assert (Quoted(v) + rest)[1..] == ReplaceAll(v, '`', "``") + "`" + rest;
  }

  lemma JoinQuotedCons(names: seq<string>, rest: string)
    requires |names| > 1
    ensures JoinQuoted(names) + rest == Quoted(names[0]) + (", " + (JoinQuoted(names[1..]) + rest))
  {
    CommaLayout(Quoted(names[0]), JoinQuoted(names[1..]), rest);
  }

  lemma CommaLayout(first: string, more: string, rest: string)
    ensures first + ", " + more + rest == first + (", " + (more + rest))
  {
  }

  lemma ReadListLast(name: string, rest: string)
    requires Ends(rest) && ReadWord(rest, ", ").None?
    ensures ReadList(Quoted(name) + rest) == Some(Read([name], rest))
  {
    ReadIdentOfQuoted(name, rest);
  }

  lemma {:induction false} ReadListBack(names: seq<string>, rest: string)
    requires names != [] && Ends(rest) && ReadWord(rest, ", ").None?
    ensures ReadList(JoinQuoted(names) + rest) == Some(Read(names, rest))
  {
    if |names| == 1 {
      ReadListLast(names[0], rest);
      assert names == [names[0]];
    } else {
      assert names == [names[0]] + names[1..];
      ReadListBack(names[1..], rest);
      ReadListStep(names[0], JoinQuoted(names[1..]) + rest, names[1..], rest);
      JoinQuotedCons(names, rest);
    }
  }

  lemma ReadListStep(first: string, tail: string, others: seq<string>, rest: string)
    requires ReadList(tail) == Some(Read(others, rest))
    ensures ReadList(Quoted(first) + (", " + tail)) == Some(Read([first] + others, rest))
  {
    ReadIdentOfQuoted(first, ", " + tail);
  }

  lemma DottedIdentBack(v: string, rest: string)
    requires Ends(rest)
    ensures var text := "." + (Quoted(v) + rest);
      Ends(text) && ReadWord(text, ".").Some? && ReadIdent(ReadWord(text, ".").value) == Some(Read(v, rest))
  {
    ReadIdentOfQuoted(v, rest);
  }

  lemma ReadTableBack(ref: TableRef, rest: string)
    requires Ends(rest)
    ensures ReadTable(QualifiedTable(ref) + rest) == Some(Read(ref, rest))
  {
    var afterSchema := "." + (Quoted(ref.table) + rest);
    var afterCatalog := "." + (Quoted(ref.schema) + afterSchema);
    DottedIdentBack(ref.table, rest);
    DottedIdentBack(ref.schema, afterSchema);
    ReadIdentOfQuoted(ref.catalog, afterCatalog);
    AssocRight(Quoted(ref.catalog), ".", Quoted(ref.schema), ".", Quoted(ref.table), rest);
  }

  lemma {:induction false} ReadNumberBack(n: nat)
    ensures Digits(n) != "" && ReadNumber(Digits(n)) == Some(n)
  {
    if n >= 10 {
      ReadNumberBack(n / 10);
      assert Digits(n)[..|Digits(n)| - 1] == Digits(n / 10);
    }
  }

  lemma ReadProjectionBack(projection: seq<string>, rest: string)
    requires Ends(rest) && ReadWord(rest, ", ").None?
    ensures ReadProjection((if projection == [] then "*" else JoinQuoted(projection)) + rest) ==
      Some(Read(projection, rest))
  {
    if projection == [] {
    } else {
      ReadListBack(projection, rest);
      assert (JoinQuoted(projection) + rest)[0] == '`';
    }
  }

  function SourceText(ref: TableRef, limit: nat): string
  {
    " FROM " + (QualifiedTable(ref) + (" LIMIT " + Digits(limit)))
  }

  lemma ReadSourceBack(ref: TableRef, limit: nat)
    ensures ReadSource(SourceText(ref, limit)) == Some((ref, limit))
  {
    var limitText := " LIMIT " + Digits(limit);
    ReadTableBack(ref, limitText);
    ReadNumberBack(limit);
  }

  /**
   Printing loses nothing: whatever the identifiers contain (backticks, dots, commas, " FROM "), the
   statement reads back as the projection list, the three-part name and the limit it was built from.
   */
  lemma StatementReadsBack(ref: TableRef, projection: seq<string>, limit: nat)
    ensures ReadSelect(Statement(ref, projection, limit)) == Some(Select(projection, ref, limit))
  {
    var rest := SourceText(ref, limit);
    var list := if projection == [] then "*" else JoinQuoted(projection);
    AssocRight("SELECT ", list, " FROM ", QualifiedTable(ref), " LIMIT ", Digits(limit));
    ReadProjectionBack(projection, rest);
    ReadSourceBack(ref, limit);
  }

  /** Every accepted call is determined by its statement, and two accepted calls never share one by accident. */
  lemma AcceptedStatementReadsBack(ref: TableRef, projection: seq<string>, limit: int, allowedColumns: seq<string>)
    requires SelectOutcome(ref, projection, limit, allowedColumns).Ok?
    ensures ReadSelect(SelectOutcome(ref, projection, limit, allowedColumns).value)
            == Some(Select(projection, ref, if limit == 0 then 100 else limit))
  {
    StatementReadsBack(ref, projection, EffectiveLimit(limit));
  }

  /** With a schema that has a usable name, an accepted statement projects schema columns only. */
  lemma ProjectionWithinSchema(ref: TableRef, projection: seq<string>, limit: int, allowedColumns: seq<string>)
    requires SelectOutcome(ref, projection, limit, allowedColumns).Ok?
    requires allowedColumns != [] && TrimSpace(allowedColumns[0]) != ""
    ensures forall c :: c in projection ==> c in allowedColumns
  {
    AcceptedIff(ref, projection, limit, allowedColumns);
    assert allowedColumns[0] in Allowed(allowedColumns);
  }
}
