/**
 The JSON text that Go's encoder writes for a query result, and the size of messages that wrap it
 (mcpserver/tools.go). Strings follow section 7 of RFC 8259 plus Go's extra escapes.
 */
module JsonText {
  import opened Wrappers
  import opened QueryContract
  import opened ResultBound

  function Utf8Length(c: char): nat
  {
    if c < '\U{80}' then 1 else if c < '\U{800}' then 2 else if c < '\U{10000}' then 3 else 4
  }

  function SizeUpTo(s: string, n: nat): nat
    requires n <= |s|
  {
    if n == 0 then 0 else SizeUpTo(s, n - 1) + Utf8Length(s[n - 1])
  }

  /** Size in bytes. */
  function Size(s: string): nat
  {
    SizeUpTo(s, |s|)
  }

  function Hex(d: nat): (c: char)
    requires d < 16
    ensures c < '\U{80}'
  {
    if d < 10 then ('0' as int + d) as char else ('a' as int + (d - 10)) as char
  }

  /** Escaping of one character inside a JSON string, with Go's HTML and line-separator escapes. */
  function EscapeChar(c: char): string
  {
    if c == '"' || c == '\\' then ['\\', c]
    else if c == '\n' then "\\n"
    else if c == '\r' then "\\r"
    else if c == '\t' then "\\t"
    else if c == '\U{08}' then "\\b"
    else if c == '\U{0C}' then "\\f"
    else if c < ' ' || c == '<' || c == '>' || c == '&' then
      ['\\', 'u', '0', '0', Hex(c as int / 16), Hex(c as int % 16)]
    else if c == '\U{2028}' then "\\u2028"
    else if c == '\U{2029}' then "\\u2029"
    else [c]
  }

  function EscapeText(s: string): string
  {
    if s == "" then "" else EscapeChar(s[0]) + EscapeText(s[1..])
  }

  function JsonString(s: string): string
  {
    "\"" + EscapeText(s) + "\""
  }

  predicate Ascii(s: string)
  {
    forall i :: 0 <= i < |s| ==> s[i] < '\U{80}'
  }

  lemma {:induction false} SizeOfPrefix(a: string, b: string, n: nat)
    requires n <= |a|
    ensures SizeUpTo(a + b, n) == SizeUpTo(a, n)
  {
    if n > 0 {
      SizeOfPrefix(a, b, n - 1);
    }
  }

  lemma {:induction false} SizeOfSuffix(a: string, b: string, n: nat)
    requires n <= |b|
    ensures SizeUpTo(a + b, |a| + n) == Size(a) + SizeUpTo(b, n)
  {
    if n == 0 {
      SizeOfPrefix(a, b, |a|);
    } else {
      SizeOfSuffix(a, b, n - 1);
    }
  }

  lemma SizeConcat(a: string, b: string)
    ensures Size(a + b) == Size(a) + Size(b)
  {
    SizeOfSuffix(a, b, |b|);
  }

  lemma {:induction false} AsciiSizeUpTo(s: string, n: nat)
    requires Ascii(s) && n <= |s|
    ensures SizeUpTo(s, n) == n
  {
    if n > 0 {
      AsciiSizeUpTo(s, n - 1);
    }
  }

  lemma AsciiSize(s: string)
    requires Ascii(s)
    ensures Size(s) == |s|
  {
    AsciiSizeUpTo(s, |s|);
  }

  /** Escaping a character never makes it smaller, and multiplies ASCII by at most six. */
  lemma EscapeCharSize(c: char)
    ensures Utf8Length(c) <= Size(EscapeChar(c))
    ensures c < '\U{80}' ==> Ascii(EscapeChar(c)) && |EscapeChar(c)| <= 6
  {
    if Ascii(EscapeChar(c)) {
      AsciiSize(EscapeChar(c));
    } else {
      assert EscapeChar(c) == [c];
      assert SizeUpTo([c], 1) == SizeUpTo([c], 0) + Utf8Length(c);
    }
  }

  lemma {:induction false} EscapeNeverShrinks(s: string)
    ensures Size(s) <= Size(EscapeText(s))
  {
    if s != "" {
      EscapeCharSize(s[0]);
      EscapeNeverShrinks(s[1..]);
      SizeConcat(EscapeChar(s[0]), EscapeText(s[1..]));
      SizeConcat([s[0]], s[1..]);
      assert SizeUpTo([s[0]], 1) == SizeUpTo([s[0]], 0) + Utf8Length(s[0]);
      assert s == [s[0]] + s[1..];
    }
  }

  lemma {:induction false} EscapeAtMostSixfold(s: string)
    requires Ascii(s)
    ensures Ascii(EscapeText(s)) && |EscapeText(s)| <= 6 * |s|
  {
    if s != "" {
      EscapeCharSize(s[0]);
      EscapeAtMostSixfold(s[1..]);
    }
  }

  // ---------------------------------------------------------------------------------------------
  // Reading a string back, by the grammar of section 7 of RFC 8259
  // ---------------------------------------------------------------------------------------------

  datatype Read<T> = Read(value: T, rest: string)

  function HexValue(c: char): Option<nat>
  {
    if '0' <= c <= '9' then Some(c as int - '0' as int)
    else if 'a' <= c <= 'f' then Some(c as int - 'a' as int + 10)
    else if 'A' <= c <= 'F' then Some(c as int - 'A' as int + 10)
    else None
  }

  /** Four hexadecimal digits; half of a surrogate pair, which the writer never uses, is not read. */
  function ReadHex(s: string): (r: Option<Read<char>>)
    ensures r.Some? ==> |r.value.rest| < |s|
  {
    if |s| < 4 then None
    else
      var (a, b, c, d) := (HexValue(s[0]), HexValue(s[1]), HexValue(s[2]), HexValue(s[3]));
      if a.None? || b.None? || c.None? || d.None? then None
      else
        var code := ((a.value * 16 + b.value) * 16 + c.value) * 16 + d.value;
        if code < 0xD800 || 0xE000 <= code < 0x10000 then Some(Read(code as char, s[4..])) else None
  }

  /** What follows a backslash. */
  function ReadEscape(s: string): (r: Option<Read<char>>)
    ensures r.Some? ==> |r.value.rest| < |s|
  {
    if s == "" then None
    else match s[0]
      case '"' => Some(Read('"', s[1..]))
      case '\\' => Some(Read('\\', s[1..]))
      case '/' => Some(Read('/', s[1..]))
      case 'b' => Some(Read('\U{08}', s[1..]))
      case 'f' => Some(Read('\U{0C}', s[1..]))
      case 'n' => Some(Read('\n', s[1..]))
      case 'r' => Some(Read('\r', s[1..]))
      case 't' => Some(Read('\t', s[1..]))
      case 'u' => ReadHex(s[1..])
      case _ => None
  }

  function Prepend(c: char, r: Option<Read<string>>): Option<Read<string>>
  {
    if r.None? then None else Some(Read([c] + r.value.value, r.value.rest))
  }

  /** The text after an opening quotation mark, up to the one that closes it. */
  function ReadText(s: string): (r: Option<Read<string>>)
    ensures r.Some? ==> |r.value.rest| < |s|
    decreases |s|
  {
    if s == "" then None
    else if s[0] == '"' then Some(Read("", s[1..]))
    else if s[0] == '\\' then
      var c := ReadEscape(s[1..]);
      if c.None? then None else Prepend(c.value.value, ReadText(c.value.rest))
    else if s[0] < ' ' then None
    else Prepend(s[0], ReadText(s[1..]))
  }

  lemma HexReadsBack(d: nat)
    requires d < 16
    ensures HexValue(Hex(d)) == Some(d)
  {
  }

  lemma EscapeIsRead(s: string, c: char, rest: string)
    requires s != "" && s[0] == '\\' && ReadEscape(s[1..]) == Some(Read(c, rest))
    ensures ReadText(s) == Prepend(c, ReadText(rest))
  {
  }

  lemma PlainIsRead(c: char, rest: string)
    requires EscapeChar(c) == [c]
    ensures ReadText(EscapeChar(c) + rest) == Prepend(c, ReadText(rest))
  {
    assert ([c] + rest)[1..] == rest;
  }

  lemma ShortEscape(c: char, rest: string)
    requires |EscapeChar(c)| == 2
    ensures ReadText(EscapeChar(c) + rest) == Prepend(c, ReadText(rest))
  {
    var e := EscapeChar(c);
    assert (e + rest)[1..] == [e[1]] + rest && ([e[1]] + rest)[1..] == rest;
    EscapeIsRead(e + rest, c, rest);
  }

  lemma LongLayout(e: string, rest: string)
    requires |e| == 6
    ensures (e + rest)[1..][0] == e[1] && (e + rest)[1..][1..] == e[2..] + rest
  {
  }

  lemma LongEscape(e: string, c: char, rest: string)
    requires |e| == 6 && e[0] == '\\' && e[1] == 'u' && ReadHex(e[2..] + rest) == Some(Read(c, rest))
    ensures ReadText(e + rest) == Prepend(c, ReadText(rest))
  {
    LongLayout(e, rest);
    EscapeIsRead(e + rest, c, rest);
  }

  lemma HexEscape(c: char, rest: string)
    requires c < '\U{80}'
    ensures ReadHex(['0', '0', Hex(c as int / 16), Hex(c as int % 16)] + rest) == Some(Read(c, rest))
  {
    HexReadsBack(0);
    HexReadsBack(c as int / 16);
    HexReadsBack(c as int % 16);
    var s := ['0', '0', Hex(c as int / 16), Hex(c as int % 16)] + rest;
    assert s[4..] == rest;
  }

  lemma SeparatorEscape(rest: string)
    ensures ReadHex("2028" + rest) == Some(Read('\U{2028}', rest))
    ensures ReadHex("2029" + rest) == Some(Read('\U{2029}', rest))
  {
    assert ("2028" + rest)[4..] == rest && ("2029" + rest)[4..] == rest;
  }

  /** Whatever follows, an escaped character reads back as itself. */
  lemma CharReadsBack(c: char, rest: string)
    ensures ReadText(EscapeChar(c) + rest) == Prepend(c, ReadText(rest))
  {
    if |EscapeChar(c)| == 1 {
      PlainIsRead(c, rest);
    } else if |EscapeChar(c)| == 2 {
      ShortEscape(c, rest);
    } else {
      HexEscapeOrSeparator(c, rest);
      LongEscape(EscapeChar(c), c, rest);
    }
  }

  lemma HexEscapeOrSeparator(c: char, rest: string)
    requires |EscapeChar(c)| > 2
    ensures |EscapeChar(c)| == 6 && EscapeChar(c)[0] == '\\' && EscapeChar(c)[1] == 'u'
    ensures ReadHex(EscapeChar(c)[2..] + rest) == Some(Read(c, rest))
  {
    var e := EscapeChar(c);
    if c < '\U{80}' {
      HexEscape(c, rest);
      assert e[2..] == ['0', '0', Hex(c as int / 16), Hex(c as int % 16)];
    } else {
      SeparatorEscape(rest);
      assert e[2..] == "2028" || e[2..] == "2029";
    }
  }

  /** A written string reads back as what was written, and the text after it is left over. */
  lemma {:induction false} StringReadsBack(s: string, rest: string)
    ensures ReadText(EscapeText(s) + "\"" + rest) == Some(Read(s, rest))
  {
    if s == "" {
      assert ("" + "\"" + rest)[1..] == rest;
    } else {
      StringReadsBack(s[1..], rest);
      OneMoreChar(s, rest);
    }
  }

  lemma OneMoreChar(s: string, rest: string)
    requires s != "" && ReadText(EscapeText(s[1..]) + "\"" + rest) == Some(Read(s[1..], rest))
    ensures ReadText(EscapeText(s) + "\"" + rest) == Some(Read(s, rest))
  {
    var more := EscapeText(s[1..]) + "\"" + rest;
    CharReadsBack(s[0], more);
    EscapeLayout(s, rest);
    assert [s[0]] + s[1..] == s;
  }

  lemma EscapeLayout(s: string, rest: string)
    requires s != ""
    ensures EscapeText(s) + "\"" + rest == EscapeChar(s[0]) + (EscapeText(s[1..]) + "\"" + rest)
  {
  }

  /** A character that may stand in a written string: no control, and nothing that HTML or JavaScript would act on. */
  predicate Harmless(c: char)
  {
    c >= ' ' && c != '<' && c != '>' && c != '&' && c != '\U{2028}' && c != '\U{2029}'
  }

  lemma {:induction false} EscapedIsHarmless(s: string)
    ensures forall i :: 0 <= i < |EscapeText(s)| ==> Harmless(EscapeText(s)[i])
  {
    if s != "" {
      EscapedIsHarmless(s[1..]);
      CharIsHarmless(s[0]);
    }
  }

  lemma CharIsHarmless(c: char)
    ensures forall i :: 0 <= i < |EscapeChar(c)| ==> Harmless(EscapeChar(c)[i])
  {
  }

  // ---------------------------------------------------------------------------------------------
  // Results
  // ---------------------------------------------------------------------------------------------

  /** How the encoder prints one row; `None` when some cell cannot be marshalled. */
  type RowPrinter = Row -> Option<string>

  const NAME_KEY := "{\"name\":"
  const TYPE_KEY := ",\"type\":"

  function ColumnText(c: QueryColumn): string
  {
    NAME_KEY + JsonString(c.name) + (if c.dataType == "" then "" else TYPE_KEY + JsonString(c.dataType)) + "}"
  }

  function ColumnsText(columns: seq<QueryColumn>): string
  {
    if columns == [] then ""
    else if |columns| == 1 then ColumnText(columns[0])
    else ColumnText(columns[0]) + "," + ColumnsText(columns[1..])
  }

  function RowsText(rows: seq<Row>, printer: RowPrinter): Option<string>
  {
    if rows == [] then Some("")
    else
      var first, rest := printer(rows[0]), RowsText(rows[1..], printer);
      if first.None? || rest.None? then None
      else Some(if |rows| == 1 then first.value else first.value + "," + rest.value)
  }

  const VERSION_KEY := "{\"actionVersion\":"
  const TABLE_KEY := ",\"tableRef\":"
  const COLUMNS_KEY := ",\"columns\":["
  const ROWS_KEY := "],\"rows\":["

  function Tail(truncated: bool): string
  {
    if truncated then "],\"truncated\":true}" else "]}"
  }

  /** Everything up to the end of the rows. */
  function Body(r: QueryResult, rows: string): string
  {
    VERSION_KEY + JsonString(r.actionVersion) + (TABLE_KEY + JsonString(r.tableRef))
      + (COLUMNS_KEY + ColumnsText(r.columns)) + (ROWS_KEY + rows)
  }

  function Marshal(r: QueryResult, printer: RowPrinter): Option<string>
  {
    var rows := RowsText(r.rows, printer);
    if rows.None? then None else Some(Body(r, rows.value) + Tail(r.truncated))
  }

  function ResultEncoder(printer: RowPrinter): Encoder
  {
    (r: QueryResult) => var text := Marshal(r, printer); if text.None? then None else Some(Size(text.value))
  }

  /* ---- Reading a result back ---- */

  function Expect(key: string, s: string): (rest: Option<string>)
    ensures rest.Some? ==> |rest.value| + |key| == |s|
  {
    if key <= s then Some(s[|key|..]) else None
  }

  lemma Expected(key: string, rest: string)
    ensures Expect(key, key + rest) == Some(rest)
  {
    assert (key + rest)[..|key|] == key && (key + rest)[|key|..] == rest;
  }

  lemma Unexpected(key: string, s: string, i: nat)
    requires i < |key| && i < |s| && key[i] != s[i]
    ensures Expect(key, s).None?
  {
  }

  function ReadString(s: string): (r: Option<Read<string>>)
    ensures r.Some? ==> |r.value.rest| < |s|
  {
    if Expect("\"", s).None? then None else ReadText(Expect("\"", s).value)
  }

  lemma JsonStringReadsBack(s: string, rest: string)
    ensures ReadString(JsonString(s) + rest) == Some(Read(s, rest))
  {
    assert JsonString(s) + rest == "\"" + (EscapeText(s) + "\"" + rest);
    Expected("\"", EscapeText(s) + "\"" + rest);
    StringReadsBack(s, rest);
  }

  /** A keyed string. */
  function ReadKeyed(key: string, s: string): (r: Option<Read<string>>)
    ensures r.Some? ==> |r.value.rest| < |s|
  {
    if Expect(key, s).None? then None else ReadString(Expect(key, s).value)
  }

  lemma KeyedReadsBack(key: string, value: string, rest: string)
    ensures ReadKeyed(key, key + JsonString(value) + rest) == Some(Read(value, rest))
  {
    assert key + JsonString(value) + rest == key + (JsonString(value) + rest);
    Expected(key, JsonString(value) + rest);
    JsonStringReadsBack(value, rest);
  }

  /** A column; a missing type reads as the empty one. */
  function ReadColumn(s: string): (r: Option<Read<QueryColumn>>)
    ensures r.Some? ==> |r.value.rest| < |s|
  {
    var name := ReadKeyed(NAME_KEY, s);
    if name.None? then None
    else
      var dataType := ReadKeyed(TYPE_KEY, name.value.rest);
      var (text, rest) := if dataType.None? then ("", name.value.rest) else (dataType.value.value, dataType.value.rest);
      if Expect("}", rest).None? then None
      else Some(Read(QueryColumn(name.value.value, text), Expect("}", rest).value))
  }

  lemma ColumnLayout(c: QueryColumn, rest: string)
    ensures ColumnText(c) + rest == NAME_KEY + JsonString(c.name) +
      if c.dataType == "" then "}" + rest else TYPE_KEY + JsonString(c.dataType) + ("}" + rest)
  {
  }

  lemma ColumnReadsBack(c: QueryColumn, rest: string)
    ensures ReadColumn(ColumnText(c) + rest) == Some(Read(c, rest))
  {
    Expected("}", rest);
    ColumnLayout(c, rest);
    if c.dataType == "" {
      KeyedReadsBack(NAME_KEY, c.name, "}" + rest);
      assert ("}" + rest)[0] == '}' && TYPE_KEY[0] == ',';
    } else {
      KeyedReadsBack(NAME_KEY, c.name, TYPE_KEY + JsonString(c.dataType) + ("}" + rest));
      KeyedReadsBack(TYPE_KEY, c.dataType, "}" + rest);
    }
  }

  /** Columns separated by commas, up to the bracket that closes their list. */
  function ReadColumns(s: string): Option<Read<seq<QueryColumn>>>
    decreases |s|
  {
    if s != "" && s[0] == ']' then Some(Read([], s)) else
      var first := ReadColumn(s);
      if first.None? then None
      else if Expect(",", first.value.rest).None? then Some(Read([first.value.value], first.value.rest))
      else
        var more := ReadColumns(Expect(",", first.value.rest).value);
        if more.None? then None else Some(Read([first.value.value] + more.value.value, more.value.rest))
  }

  lemma LastColumn(c: QueryColumn, rest: string)
    requires rest != "" && rest[0] == ']'
    ensures ReadColumns(ColumnText(c) + rest) == Some(Read([c], rest))
  {
    ColumnReadsBack(c, rest);
    assert (ColumnText(c) + rest)[0] == '{';
  }

  lemma MoreColumns(c: QueryColumn, tail: string, more: Read<seq<QueryColumn>>)
    requires ReadColumns(tail) == Some(more)
    ensures ReadColumns(ColumnText(c) + ("," + tail)) == Some(Read([c] + more.value, more.rest))
  {
    ColumnReadsBack(c, "," + tail);
    Expected(",", tail);
    assert (ColumnText(c) + ("," + tail))[0] == '{';
  }

  lemma CommaLayout(first: string, more: string, rest: string)
    ensures first + "," + more + rest == first + ("," + (more + rest))
  {
  }

  lemma {:induction false} ColumnsReadBack(columns: seq<QueryColumn>, rest: string)
    requires rest != "" && rest[0] == ']'
    ensures ReadColumns(ColumnsText(columns) + rest) == Some(Read(columns, rest))
  {
    if columns == [] {
      assert ColumnsText(columns) + rest == rest;
    } else if |columns| == 1 {
      LastColumn(columns[0], rest);
      assert columns == [columns[0]];
    } else {
      ColumnsReadBack(columns[1..], rest);
      MoreColumns(columns[0], ColumnsText(columns[1..]) + rest, Read(columns[1..], rest));
      CommaLayout(ColumnText(columns[0]), ColumnsText(columns[1..]), rest);
      assert [columns[0]] + columns[1..] == columns;
    }
  }

  datatype Head = Head(actionVersion: string, tableRef: string, columns: seq<QueryColumn>)

  function ReadHead(s: string): Option<Read<Head>>
  {
    var version := ReadKeyed(VERSION_KEY, s);
    if version.None? then None else
    var table := ReadKeyed(TABLE_KEY, version.value.rest);
    if table.None? || Expect(COLUMNS_KEY, table.value.rest).None? then None else
    var columns := ReadColumns(Expect(COLUMNS_KEY, table.value.rest).value);
    if columns.None? || Expect(ROWS_KEY, columns.value.rest).None? then None else
    var rest := Expect(ROWS_KEY, columns.value.rest).value;
    Some(Read(Head(version.value.value, table.value.value, columns.value.value), rest))
  }

  /** The text from the columns on, up to and including the rows. */
  lemma RowsReadBack(columns: seq<QueryColumn>, rest: string)
    ensures ReadColumns(ColumnsText(columns) + (ROWS_KEY + rest)) == Some(Read(columns, ROWS_KEY + rest))
    ensures Expect(ROWS_KEY, ROWS_KEY + rest) == Some(rest)
  {
    ColumnsReadBack(columns, ROWS_KEY + rest);
    Expected(ROWS_KEY, rest);
  }

  lemma HeadTextReadsBack(head: Head, rest: string)
    ensures var fromColumns := COLUMNS_KEY + (ColumnsText(head.columns) + (ROWS_KEY + rest));
      ReadHead(VERSION_KEY + JsonString(head.actionVersion) + (TABLE_KEY + JsonString(head.tableRef) + fromColumns))
      == Some(Read(head, rest))
  {
    var fromRows := ROWS_KEY + rest;
    var fromColumns := COLUMNS_KEY + (ColumnsText(head.columns) + fromRows);
    KeyedReadsBack(VERSION_KEY, head.actionVersion, TABLE_KEY + JsonString(head.tableRef) + fromColumns);
    KeyedReadsBack(TABLE_KEY, head.tableRef, fromColumns);
    Expected(COLUMNS_KEY, ColumnsText(head.columns) + fromRows);
    RowsReadBack(head.columns, rest);
  }

  lemma Regroup(v: string, t: string, ck: string, c: string, rk: string, rows: string, tail: string)
    ensures v + t + (ck + c) + (rk + rows) + tail == v + (t + (ck + (c + (rk + (rows + tail)))))
  {
  }

  /** Version, table and every column read back from the text of any result, followed by exactly its rows and flag. */
  lemma HeadReadsBack(r: QueryResult, printer: RowPrinter)
    requires Marshal(r, printer).Some?
    ensures ReadHead(Marshal(r, printer).value) == Some(Read(
      Head(r.actionVersion, r.tableRef, r.columns), RowsText(r.rows, printer).value + Tail(r.truncated)))
  {
    var rows, tail := RowsText(r.rows, printer).value, Tail(r.truncated);
    Regroup(VERSION_KEY + JsonString(r.actionVersion), TABLE_KEY + JsonString(r.tableRef), COLUMNS_KEY,
      ColumnsText(r.columns), ROWS_KEY, rows, tail);
    HeadTextReadsBack(Head(r.actionVersion, r.tableRef, r.columns), rows + tail);
  }

  lemma KeysAscii()
    ensures Ascii(VERSION_KEY) && Ascii(TABLE_KEY) && Ascii(COLUMNS_KEY) && Ascii(ROWS_KEY)
    ensures Ascii(Tail(true)) && Ascii(Tail(false)) && |Tail(true)| == 19 && |Tail(false)| == 2
    ensures |VERSION_KEY| + |TABLE_KEY| + |COLUMNS_KEY| + |ROWS_KEY| <= 60
  {
  }

  lemma TailGrows(body: string, truncated: bool)
    ensures Size(body + Tail(truncated)) <= Size(body + Tail(true))
  {
    SizeConcat(body, Tail(truncated));
    SizeConcat(body, Tail(true));
    KeysAscii();
    AsciiSize(Tail(true));
    AsciiSize(Tail(truncated));
  }

  /** The flag only adds bytes. */
  lemma FlagGrows(r: QueryResult, printer: RowPrinter)
    requires Marshal(r, printer).Some?
    ensures var flagged := Marshal(r.(truncated := true), printer);
      flagged.Some? && Size(Marshal(r, printer).value) <= Size(flagged.value)
  {
    TailGrows(Body(r, RowsText(r.rows, printer).value), r.truncated);
  }

  lemma JsonStringSize(s: string, n: nat)
    requires Ascii(s) && |s| <= n
    ensures Ascii(JsonString(s)) && |JsonString(s)| <= 6 * n + 2
  {
    EscapeAtMostSixfold(s);
  }

  /** An empty result about a legal table name is short ASCII text. */
  lemma EmptyResultSize(r: QueryResult, printer: RowPrinter)
    requires r.columns == [] && r.rows == []
    requires Ascii(r.tableRef) && |r.tableRef| <= MAX_TABLE_REF && r.actionVersion == ACTION_VERSION
    ensures Marshal(r, printer).Some? && Ascii(Marshal(r, printer).value) && |Marshal(r, printer).value| <= 1700
  {
    KeysAscii();
    JsonStringSize(r.actionVersion, 2);
    JsonStringSize(r.tableRef, MAX_TABLE_REF);
    AsciiConcat4(
      VERSION_KEY + JsonString(r.actionVersion), TABLE_KEY + JsonString(r.tableRef), COLUMNS_KEY + "", ROWS_KEY + "");
  }

  lemma AsciiConcat4(a: string, b: string, c: string, d: string)
    ensures Ascii(a) && Ascii(b) && Ascii(c) && Ascii(d) ==> Ascii(a + b + c + d)
    ensures |a + b + c + d| == |a| + |b| + |c| + |d|
  {
  }

  // ---------------------------------------------------------------------------------------------
  // Messages
  // ---------------------------------------------------------------------------------------------

  const RESERVE: nat := 8 * 1024 + 4 * 1024

  const CONTENT_KEY := "{\"content\":[{\"type\":\"text\",\"text\":"
  const STRUCTURED_KEY := "}],\"structuredContent\":"

  /** The tool result: the JSON escaped once more as text, and the same JSON as structured content. */
  function ToolResult(json: string): string
  {
    (CONTENT_KEY + JsonString(json)) + (STRUCTURED_KEY + json) + "}"
  }

  /** Measured MCP message for a result reported under `tableRef`. */
  function McpEncoder(printer: RowPrinter, tableRef: string): Encoder
  {
    (r: QueryResult) =>
      var text := Marshal(r.(actionVersion := ACTION_VERSION, tableRef := tableRef), printer);
      if text.None? then None else Some(Size(ToolResult(text.value)) + RESERVE)
  }

  /** Measured action response: some envelope text around the result, and a newline. */
  function ActionEncoder(printer: RowPrinter, before: string, after: string): Encoder
  {
    (r: QueryResult) =>
      var text := Marshal(r, printer); if text.None? then None else Some(Size(before + text.value + after) + 1)
  }

  lemma FrameSize(a: string, quoted: string, b: string, json: string, c: string)
    ensures Size((a + quoted) + (b + json) + c) == Size(a) + Size(quoted) + Size(b) + Size(json) + Size(c)
  {
    SizeConcat((a + quoted) + (b + json), c);
    SizeConcat(a + quoted, b + json);
    SizeConcat(a, quoted);
    SizeConcat(b, json);
  }

  lemma AsciiFrameSize(a: string, quoted: string, b: string, json: string, c: string)
    requires Ascii(a) && Ascii(quoted) && Ascii(b) && Ascii(json) && Ascii(c)
    ensures Size((a + quoted) + (b + json) + c) == |a| + |quoted| + |b| + |json| + |c|
  {
    FrameSize(a, quoted, b, json, c);
    AsciiSize(a);
    AsciiSize(quoted);
    AsciiSize(b);
    AsciiSize(json);
    AsciiSize(c);
  }

  lemma MessageKeys()
    ensures Ascii(CONTENT_KEY) && Ascii(STRUCTURED_KEY) && Ascii("}")
    ensures |CONTENT_KEY| + |STRUCTURED_KEY| <= 80
  {
  }

  lemma ToolResultSize(json: string)
    ensures Size(json) <= Size(ToolResult(json))
    ensures Ascii(json) ==> Size(ToolResult(json)) <= 7 * |json| + 100
  {
    FrameSize(CONTENT_KEY, JsonString(json), STRUCTURED_KEY, json, "}");
    if Ascii(json) {
      MessageKeys();
      JsonStringSize(json, |json|);
      AsciiFrameSize(CONTENT_KEY, JsonString(json), STRUCTURED_KEY, json, "}");
    }
  }

  /** The text copy in a tool result reads back as the very JSON that follows as structured content. */
  lemma ToolResultReadsBack(json: string)
    ensures ReadKeyed(CONTENT_KEY, ToolResult(json)) == Some(Read(json, STRUCTURED_KEY + json + "}"))
  {
    assert ToolResult(json) == CONTENT_KEY + JsonString(json) + (STRUCTURED_KEY + json + "}");
    KeyedReadsBack(CONTENT_KEY, json, STRUCTURED_KEY + json + "}");
  }

  /** Rows are written one after the other, separated by commas; one that cannot be written fails them all. */
  lemma {:induction false} RowsTextSnoc(rows: seq<Row>, row: Row, printer: RowPrinter)
    ensures RowsText(rows + [row], printer) ==
      if RowsText(rows, printer).None? || printer(row).None? then None
      else if rows == [] then printer(row)
      else Some(RowsText(rows, printer).value + "," + printer(row).value)
  {
    var more := rows + [row];
    if rows == [] {
      assert more[1..] == [];
    } else {
      assert more[1..] == rows[1..] + [row];
      RowsTextSnoc(rows[1..], row, printer);
      if printer(rows[0]).Some? && RowsText(rows[1..], printer).Some? && printer(row).Some? && |rows| > 1 {
        CommaJoin(printer(rows[0]).value, RowsText(rows[1..], printer).value, printer(row).value);
      }
    }
  }

  lemma CommaJoin(first: string, middle: string, last: string)
    ensures first + "," + (middle + "," + last) == first + "," + middle + "," + last
  {
  }
}

/** MCP query output: always within the response budget, and never the defensive fallback. */
module McpBound {
  import opened Wrappers
  import opened QueryContract
  import opened ResultBound
  import opened JsonText

  /** The message for an empty result always fits, whatever its flag. */
  lemma EmptyMessageFits(printer: RowPrinter, tableRef: string, r: QueryResult)
    requires ValidTableRef(tableRef) && r.columns == [] && r.rows == []
    ensures Fits(McpEncoder(printer, tableRef), MAX_QUERY_BYTES, r)
  {
    var shown := r.(actionVersion := ACTION_VERSION, tableRef := tableRef);
    EmptyResultSize(shown, printer);
    ToolResultSize(Marshal(shown, printer).value);
  }

  lemma {:induction false} ShrinkWrappedTotal(enc: Encoder, wrap: Encoder, r: QueryResult)
    requires forall x: QueryResult :: x.columns == [] && x.rows == [] ==> Fits(wrap, MAX_QUERY_BYTES, x)
    ensures var b := ShrinkWrapped(enc, wrap, r); b.Some? && Fits(wrap, MAX_QUERY_BYTES, b.value)
    decreases |r.columns| + |r.rows|
  {
    if !Fits(wrap, MAX_QUERY_BYTES, r) {
      if r.rows != [] {
        ShrinkWrappedTotal(enc, wrap, DropRow(r));
      } else {
        var fewer := DropColumn(r).(truncated := r.truncated);
        ShrinkWrappedTotal(enc, wrap, Bound(enc, fewer, MAX_QUERY_BYTES).(truncated := true));
      }
    }
  }

  /**
   The MCP adapter's bound. For a legal table name the measured message (result JSON, its doubly escaped text
   copy and the 12 KiB reserve) is within 65536 bytes on every exit, and the result is a shrunk one, not the
   defensive fallback.
   */
  method BoundMcpQueryOutput(printer: RowPrinter, tableRef: string, result: QueryResult) returns (output: QueryResult)
    requires ValidTableRef(tableRef)
    ensures output.actionVersion == ACTION_VERSION && output.tableRef == tableRef
    ensures Fits(McpEncoder(printer, tableRef), MAX_QUERY_BYTES, output)
    ensures var bounded := Bound(ResultEncoder(printer), result, MAX_QUERY_BYTES);
      var kept := ShrinkWrapped(ResultEncoder(printer), McpEncoder(printer, tableRef), bounded);
      kept.Some? && output == kept.value.(actionVersion := ACTION_VERSION, tableRef := tableRef)
  {
    var enc, wrap := ResultEncoder(printer), McpEncoder(printer, tableRef);
    var bounded := BoundQueryResultWithin(enc, result, MAX_QUERY_BYTES);
    forall x: QueryResult | x.columns == [] && x.rows == []
      ensures Fits(wrap, MAX_QUERY_BYTES, x)
    {
      EmptyMessageFits(printer, tableRef, x);
    }
    ShrinkWrappedTotal(enc, wrap, bounded);
    var kept := BoundWrapped(enc, wrap, bounded);
    if kept.None? {
      assert false;
    }
    output := kept.value.(actionVersion := ACTION_VERSION, tableRef := tableRef);
  }

  lemma McpContains(printer: RowPrinter, n: QueryResult)
    requires n.actionVersion == ACTION_VERSION
    ensures Contains(ResultEncoder(printer), McpEncoder(printer, n.tableRef), n)
  {
    forall x: QueryResult | x.actionVersion == n.actionVersion && x.tableRef == n.tableRef
        && Fits(McpEncoder(printer, n.tableRef), MAX_QUERY_BYTES, x.(truncated := true))
      ensures Fits(ResultEncoder(printer), MAX_QUERY_BYTES, x)
    {
      var flagged := x.(truncated := true);
      assert flagged.(actionVersion := ACTION_VERSION, tableRef := n.tableRef) == flagged;
      ToolResultSize(Marshal(flagged, printer).value);
      FlagGrows(x, printer);
    }
  }

  lemma ActionContains(printer: RowPrinter, before: string, after: string, n: QueryResult)
    ensures Contains(ResultEncoder(printer), ActionEncoder(printer, before, after), n)
  {
    forall x: QueryResult | Fits(ActionEncoder(printer, before, after), MAX_QUERY_BYTES, x.(truncated := true))
      ensures Fits(ResultEncoder(printer), MAX_QUERY_BYTES, x)
    {
      var text := Marshal(x.(truncated := true), printer).value;
      SizeConcat(before + text, after);
      SizeConcat(before, text);
      FlagGrows(x, printer);
    }
  }

  lemma LegalNameEmptyFits(printer: RowPrinter, n: QueryResult)
    requires n.actionVersion == ACTION_VERSION && ValidTableRef(n.tableRef)
    ensures EmptyFits(ResultEncoder(printer), n)
  {
    var open := n.(columns := [], rows := [], truncated := false);
    var flagged := n.(columns := [], rows := [], truncated := true);
    EmptyResultSize(open, printer);
    AsciiSize(Marshal(open, printer).value);
    EmptyResultSize(flagged, printer);
    AsciiSize(Marshal(flagged, printer).value);
  }

  /** Under the real encoder, both adapters keep the longest row prefix, then the longest column prefix, that fits. */
  lemma AdaptersKeepLongest(printer: RowPrinter, input: QueryResult, before: string, after: string)
    requires input.actionVersion == ACTION_VERSION && ValidTableRef(input.tableRef)
    ensures var enc, n := ResultEncoder(printer), Bound(ResultEncoder(printer), input, MAX_QUERY_BYTES);
      && KeepsLongest(McpEncoder(printer, input.tableRef), n,
        ShrinkWrapped(enc, McpEncoder(printer, input.tableRef), n))
      && KeepsLongest(ActionEncoder(printer, before, after), n,
        ShrinkWrapped(enc, ActionEncoder(printer, before, after), n))
  {
    var enc := ResultEncoder(printer);
    var n := Bound(enc, input, MAX_QUERY_BYTES);
    BoundShape(enc, input, MAX_QUERY_BYTES);
    assert n.actionVersion == ACTION_VERSION && n.tableRef == input.tableRef;
    LegalNameEmptyFits(printer, n);
    McpContains(printer, n);
    ActionContains(printer, before, after, n);
    WrappedIsLongest(enc, McpEncoder(printer, input.tableRef), n);
    WrappedIsLongest(enc, ActionEncoder(printer, before, after), n);
  }

  ghost predicate KeepsLongest(wrap: Encoder, n: QueryResult, b: Option<QueryResult>)
  {
    || (b.Some? && exists k: nat :: LongestRows(wrap, MAX_QUERY_BYTES, n, b.value, k))
    || (b.Some? && exists k: nat :: LongestColumns(wrap, MAX_QUERY_BYTES, n, b.value, k))
    || (b.None? && NothingFits(wrap, MAX_QUERY_BYTES, n))
  }
}

/** The list_tables message under the same JSON writer. */
module ListMessage {
  import opened Wrappers
  import QuerySql
  import opened JsonText
  import opened ListTables

  const TABLES_KEY := "{\"tables\":"
  const CATALOG_KEY := ",\"catalog\":"
  const SCHEMA_KEY := ",\"schema\":"
  const TABLE_NAME_KEY := ",\"table\":"
  const FLAG := ",\"truncated\":true"

  function SummaryText(s: Summary): string
  {
    NAME_KEY + JsonString(s.name) + (CATALOG_KEY + JsonString(s.ref.catalog) + (SCHEMA_KEY + JsonString(s.ref.schema)
      + (TABLE_NAME_KEY + JsonString(s.ref.table) + "}")))
  }

  function SummariesText(list: seq<Summary>): string
  {
    if list == [] then ""
    else if |list| == 1 then SummaryText(list[0])
    else SummaryText(list[0]) + "," + SummariesText(list[1..])
  }

  /** Go writes an empty list as `[]` or, when it is a nil slice, as `null`. */
  datatype Empty = Nil | NonNil

  function EmptyText(empty: Empty): string
  {
    if empty == Nil then "null" else "[]"
  }

  function ListJson(out: ListOutput, empty: Empty): string
  {
    var tables := if out.tables == [] then EmptyText(empty) else "[" + SummariesText(out.tables) + "]";
    TABLES_KEY + tables + (if out.truncated then FLAG else "") + "}"
  }

  /* ---- Reading it back ---- */

  function ReadSummary(s: string): (r: Option<Read<Summary>>)
    ensures r.Some? ==> |r.value.rest| < |s|
  {
    var name := ReadKeyed(NAME_KEY, s);
    if name.None? then None else
    var catalog := ReadKeyed(CATALOG_KEY, name.value.rest);
    if catalog.None? then None else
    var schema := ReadKeyed(SCHEMA_KEY, catalog.value.rest);
    if schema.None? then None else
    var table := ReadKeyed(TABLE_NAME_KEY, schema.value.rest);
    if table.None? || Expect("}", table.value.rest).None? then None else
    var ref := QuerySql.TableRef(catalog.value.value, schema.value.value, table.value.value);
    Some(Read(Summary(name.value.value, ref), Expect("}", table.value.rest).value))
  }

  lemma SummaryLayout(name: string, catalog: string, schema: string, table: string, rest: string)
    ensures name + (catalog + (schema + (table + "}"))) + rest
      == name + (catalog + (schema + (table + ("}" + rest))))
  {
  }

  lemma SummaryReadsBack(s: Summary, rest: string)
    ensures ReadSummary(SummaryText(s) + rest) == Some(Read(s, rest))
  {
    var name, catalog := NAME_KEY + JsonString(s.name), CATALOG_KEY + JsonString(s.ref.catalog);
    var schema, table := SCHEMA_KEY + JsonString(s.ref.schema), TABLE_NAME_KEY + JsonString(s.ref.table);
    SummaryLayout(name, catalog, schema, table, rest);
    KeyedReadsBack(NAME_KEY, s.name, catalog + (schema + (table + ("}" + rest))));
    KeyedReadsBack(CATALOG_KEY, s.ref.catalog, schema + (table + ("}" + rest)));
    KeyedReadsBack(SCHEMA_KEY, s.ref.schema, table + ("}" + rest));
    KeyedReadsBack(TABLE_NAME_KEY, s.ref.table, "}" + rest);
    Expected("}", rest);
  }

  /** One or more summaries separated by commas. */
  function ReadSummaries(s: string): Option<Read<seq<Summary>>>
    decreases |s|
  {
    var first := ReadSummary(s);
    if first.None? then None
    else if Expect(",", first.value.rest).None? then Some(Read([first.value.value], first.value.rest))
    else
      var more := ReadSummaries(Expect(",", first.value.rest).value);
      if more.None? then None else Some(Read([first.value.value] + more.value.value, more.value.rest))
  }

  lemma LastSummary(list: seq<Summary>, rest: string, text: string)
    requires |list| == 1 && ReadSummary(text) == Some(Read(list[0], rest)) && rest != "" && rest[0] == ']'
    ensures ReadSummaries(text) == Some(Read(list, rest))
  {
    assert [list[0]] == list;
  }

  lemma OneMoreSummary(list: seq<Summary>, rest: string, tail: string, text: string)
    requires |list| > 1 && ReadSummary(text) == Some(Read(list[0], "," + tail))
    requires ReadSummaries(tail) == Some(Read(list[1..], rest))
    ensures ReadSummaries(text) == Some(Read(list, rest))
  {
    Expected(",", tail);
    assert [list[0]] + list[1..] == list;
  }

  lemma FirstSummary(list: seq<Summary>, rest: string)
    requires list != []
    ensures ReadSummary(SummariesText(list) + rest) ==
      Some(Read(list[0], if |list| == 1 then rest else "," + (SummariesText(list[1..]) + rest)))
  {
    if |list| == 1 {
      SummaryReadsBack(list[0], rest);
    } else {
      CommaLayout(SummaryText(list[0]), SummariesText(list[1..]), rest);
      SummaryReadsBack(list[0], "," + (SummariesText(list[1..]) + rest));
    }
  }

  lemma {:induction false} SummariesReadBack(list: seq<Summary>, rest: string)
    requires list != [] && rest != "" && rest[0] == ']'
    ensures ReadSummaries(SummariesText(list) + rest) == Some(Read(list, rest))
  {
    FirstSummary(list, rest);
    if |list| == 1 {
      LastSummary(list, rest, SummariesText(list) + rest);
    } else {
      SummariesReadBack(list[1..], rest);
      OneMoreSummary(list, rest, SummariesText(list[1..]) + rest, SummariesText(list) + rest);
    }
  }

  /** The list and its flag, from the text after the key. */
  function ReadTables(s: string): Option<Read<seq<Summary>>>
  {
    if Expect("null", s).Some? then Some(Read([], Expect("null", s).value))
    else if Expect("[]", s).Some? then Some(Read([], Expect("[]", s).value))
    else if Expect("[", s).None? then None
    else
      var list := ReadSummaries(Expect("[", s).value);
      if list.None? || Expect("]", list.value.rest).None? then None
      else Some(Read(list.value.value, Expect("]", list.value.rest).value))
  }

  function ReadList(s: string): Option<ListOutput>
  {
    if Expect(TABLES_KEY, s).None? then None
    else
      var tables := ReadTables(Expect(TABLES_KEY, s).value);
      if tables.None? then None
      else if tables.value.rest == FLAG + "}" then Some(ListOutput(tables.value.value, true))
      else if tables.value.rest == "}" then Some(ListOutput(tables.value.value, false))
      else None
  }

  lemma EmptyReadsBack(empty: Empty, rest: string)
    ensures ReadTables(EmptyText(empty) + rest) == Some(Read([], rest))
  {
    Expected(EmptyText(empty), rest);
    if empty == NonNil {
      Unexpected("null", "[]" + rest, 0);
    }
  }

  lemma OpensWithBrace(list: seq<Summary>)
    requires list != []
    ensures SummariesText(list) != "" && SummariesText(list)[0] == '{'
  {
  }

  lemma TablesReadBack(list: seq<Summary>, rest: string)
    requires list != []
    ensures ReadTables("[" + (SummariesText(list) + ("]" + rest))) == Some(Read(list, rest))
  {
    var inner := SummariesText(list) + ("]" + rest);
    OpensWithBrace(list);
    Unexpected("null", "[" + inner, 0);
    Unexpected("[]", "[" + inner, 1);
    Expected("[", inner);
    Expected("]", rest);
    SummariesReadBack(list, "]" + rest);
  }

  lemma TailReadsBack(truncated: bool)
    ensures var rest := (if truncated then FLAG else "") + "}";
      rest == (if truncated then FLAG + "}" else "}") && FLAG + "}" != "}"
  {
    assert (FLAG + "}")[0] == ',';
  }

  lemma ListLayout(tables: string, rest: string)
    ensures "[" + tables + "]" + rest == "[" + (tables + ("]" + rest))
  {
  }

  lemma KeyLayout(tables: string, flag: string)
    ensures TABLES_KEY + tables + flag + "}" == TABLES_KEY + (tables + (flag + "}"))
  {
  }

  /** However an empty list is written, the JSON of a listing reads back as that listing, flag included. */
  lemma ListReadsBack(out: ListOutput, empty: Empty)
    ensures ReadList(ListJson(out, empty)) == Some(out)
  {
    var tables := if out.tables == [] then EmptyText(empty) else "[" + SummariesText(out.tables) + "]";
    var rest := (if out.truncated then FLAG else "") + "}";
    KeyLayout(tables, if out.truncated then FLAG else "");
    Expected(TABLES_KEY, tables + rest);
    TailReadsBack(out.truncated);
    if out.tables == [] {
      EmptyReadsBack(empty, rest);
    } else {
      ListLayout(SummariesText(out.tables), rest);
      TablesReadBack(out.tables, rest);
    }
  }

  function MessageEncoder(empty: Empty): ListEncoder
  {
    (out: ListOutput) => Some(Size(ToolResult(ListJson(out, empty))) + RESERVE)
  }

  /** The last resort always fits. */
  lemma EmptyListFits(empty: Empty)
    ensures ListTables.Fits(MessageEncoder(empty), ListOutput([], true))
  {
    var json := ListJson(ListOutput([], true), empty);
    assert Ascii(json) && |json| <= 40;
    ToolResultSize(json);
  }

  /**
   So the list message is within the byte budget on every exit, whatever the tables and however an empty list is
   written.
   */
  lemma {:induction false} ListMessageFits(empty: Empty, out: ListOutput)
    ensures ListTables.Fits(MessageEncoder(empty), ShrinkList(MessageEncoder(empty), out))
    decreases |out.tables|
  {
    EmptyListFits(empty);
    if !ListTables.Fits(MessageEncoder(empty), out) && out.tables != [] {
      ListMessageFits(empty, ListOutput(out.tables[..|out.tables| - 1], true));
    }
  }
}
