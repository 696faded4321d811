/** Shape and size bounds on query results (queryapi/query.go, actions/actions.go). */
module ResultBound {
  import opened Wrappers
  import opened Positions
  import opened QueryContract

  const ACTION_VERSION := "v1"

  datatype QueryColumn = QueryColumn(name: string, dataType: string)

  /** A decoded cell; `Null` is what a row lacking the key gets. */
  datatype Cell = Null | Value(json: string)

  type Row = map<string, Cell>

  datatype QueryResult = QueryResult(
    actionVersion: string, tableRef: string, columns: seq<QueryColumn>, rows: seq<Row>, truncated: bool)

  /** Marshalled size of something that holds a result; `None` when marshalling fails. */
  type Encoder = QueryResult -> Option<nat>

  predicate Fits(enc: Encoder, max: nat, r: QueryResult)
  {
    enc(r).Some? && enc(r).value <= max
  }

  // ---------------------------------------------------------------------------------------------
  // Shape normalisation
  // ---------------------------------------------------------------------------------------------

  function NameSet(columns: seq<QueryColumn>): set<string>
  {
    set c | c in columns :: c.name
  }

  lemma NameSetSnoc(columns: seq<QueryColumn>, c: QueryColumn)
    ensures NameSet(columns + [c]) == NameSet(columns) + {c.name}
  {
    assert forall d :: d in columns + [c] <==> d in columns || d == c;
  }

  predicate Distinct(columns: seq<QueryColumn>)
  {
    forall i, j :: 0 <= i < j < |columns| ==> columns[i].name != columns[j].name
  }

  /** Keep the first column of each name. */
  function Dedup(columns: seq<QueryColumn>): (r: seq<QueryColumn>)
    ensures |r| <= |columns|
    ensures |r| == |columns| ==> r == columns
  {
    if columns == [] then []
    else
      var n := |columns| - 1;
      var init := Dedup(columns[..n]);
      if columns[n].name in NameSet(init) then init else init + [columns[n]]
  }

  lemma {:induction false} DedupKeepsNames(columns: seq<QueryColumn>)
    ensures Distinct(Dedup(columns)) && NameSet(Dedup(columns)) == NameSet(columns)
  {
    if columns != [] {
      var n := |columns| - 1;
      var init := Dedup(columns[..n]);
      DedupKeepsNames(columns[..n]);
      NameSetSnoc(columns[..n], columns[n]);
      assert columns == columns[..n] + [columns[n]];
      if columns[n].name !in NameSet(init) {
        NameSetSnoc(init, columns[n]);
      }
    }
  }

  lemma DedupStep(columns: seq<QueryColumn>, i: nat)
    requires i < |columns|
    ensures var init := Dedup(columns[..i]);
      Dedup(columns[..i + 1]) == if columns[i].name in NameSet(init) then init else init + [columns[i]]
  {
    assert columns[..i + 1][..i] == columns[..i];
  }

  lemma DistinctFront(columns: seq<QueryColumn>, c: QueryColumn)
    requires Distinct(columns + [c])
    ensures Distinct(columns) && c.name !in NameSet(columns)
  {
    var longer := columns + [c];
    assert longer[|columns|] == c;
    assert forall i :: 0 <= i < |columns| ==> longer[i] == columns[i];
  }

  lemma {:induction false} DedupDistinct(columns: seq<QueryColumn>)
    requires Distinct(columns)
    ensures Dedup(columns) == columns
  {
    if columns != [] {
      var front, last := columns[..|columns| - 1], columns[|columns| - 1];
      assert columns == front + [last];
      DistinctFront(front, last);
      DedupDistinct(front);
    }
  }

  /** The positions at which a name occurs for the first time. */
  ghost function FirstNames(columns: seq<QueryColumn>): set<nat>
  {
    set i: nat | i < |columns| && forall j :: 0 <= j < i ==> columns[j].name != columns[i].name
  }

  lemma FirstNamesSnoc(columns: seq<QueryColumn>, c: QueryColumn)
    ensures FirstNames(columns + [c]) ==
      FirstNames(columns) + if c.name in NameSet(columns) then {} else {|columns|}
  {
    var longer := columns + [c];
    assert forall j :: 0 <= j < |columns| ==> longer[j] == columns[j] && columns[j] in columns;
    if c.name in NameSet(columns) {
      var d :| d in columns && d.name == c.name;
      var j :| 0 <= j < |columns| && columns[j] == d;
      assert longer[j].name == c.name;
    }
  }

  lemma DedupMore(columns: seq<QueryColumn>, c: QueryColumn, kept: seq<QueryColumn>)
    requires Picks(columns, FirstNames(columns), kept) && NameSet(kept) == NameSet(columns)
    ensures Picks(columns + [c], FirstNames(columns + [c]), if c.name in NameSet(kept) then kept else kept + [c])
  {
    FirstNamesSnoc(columns, c);
    PicksLonger(columns, FirstNames(columns), kept, c);
    if c.name in NameSet(kept) {
      assert FirstNames(columns + [c]) == FirstNames(columns);
    } else {
      PicksOneMore(columns + [c], FirstNames(columns), kept, |columns|);
    }
  }

  /** Exactly the first column of each name is kept, in input order. */
  lemma {:induction false} DedupIsExact(columns: seq<QueryColumn>)
    ensures Picks(columns, FirstNames(columns), Dedup(columns))
  {
    if columns == [] {
      PicksNone(columns);
      assert FirstNames(columns) == {};
    } else {
      var front, last := columns[..|columns| - 1], columns[|columns| - 1];
      DedupIsExact(front);
      DedupKeepsNames(front);
      assert front + [last] == columns;
      DedupMore(front, last, Dedup(front));
    }
  }

  lemma {:induction false} DistinctSize(columns: seq<QueryColumn>)
    requires Distinct(columns)
    ensures |NameSet(columns)| == |columns|
  {
    if columns != [] {
      var front, last := columns[..|columns| - 1], columns[|columns| - 1];
      assert columns == front + [last];
      DistinctFront(front, last);
      DistinctSize(front);
      NameSetSnoc(front, last);
    }
  }

  function Take<T>(s: seq<T>, n: nat): (r: seq<T>)
    ensures r <= s && |r| == if |s| > n then n else |s|
  {
    if |s| > n then s[..n] else s
  }

  function RowFor(row: Row, columns: seq<QueryColumn>): Row
  {
    map k | k in NameSet(columns) :: if k in row then row[k] else Null
  }

  function RowsFor(rows: seq<Row>, columns: seq<QueryColumn>): seq<Row>
  {
    seq(|rows|, i requires 0 <= i < |rows| => RowFor(rows[i], columns))
  }

  predicate HasExtraKey(rows: seq<Row>, columns: seq<QueryColumn>)
  {
    exists i :: 0 <= i < |rows| && !(rows[i].Keys <= NameSet(columns))
  }

  function Normalize(r: QueryResult): QueryResult
  {
    var columns := Take(Dedup(r.columns), MAX_QUERY_COLUMNS);
    var rows := Take(r.rows, MAX_QUERY_ROWS);
    QueryResult(r.actionVersion, r.tableRef, columns, RowsFor(rows, columns),
      r.truncated || columns != r.columns || rows != r.rows || HasExtraKey(rows, columns))
  }

  method DedupColumns(columns: seq<QueryColumn>) returns (kept: seq<QueryColumn>, dropped: bool)
    ensures kept == Dedup(columns) && (dropped <==> kept != columns)
  {
    var seen := {};
    kept, dropped := [], false;
    for i := 0 to |columns|
      invariant kept == Dedup(columns[..i]) && seen == NameSet(kept)
      invariant dropped <==> |kept| < i
    {
      DedupStep(columns, i);
      if columns[i].name in seen {
        dropped := true;
      } else {
        NameSetSnoc(kept, columns[i]);
        seen := seen + {columns[i].name};
        kept := kept + [columns[i]];
      }
    }
    assert columns[..|columns|] == columns;
  }

  method FindExtraKey(rows: seq<Row>, columns: seq<QueryColumn>) returns (extra: bool)
    ensures extra <==> HasExtraKey(rows, columns)
  {
    extra := false;
    for i := 0 to |rows|
      invariant extra <==> exists j :: 0 <= j < i && !(rows[j].Keys <= NameSet(columns))
    {
      if !(rows[i].Keys <= NameSet(columns)) {
        extra := true;
      }
    }
  }

  method RowsForColumns(rows: seq<Row>, columns: seq<QueryColumn>) returns (r: seq<Row>)
    ensures r == RowsFor(rows, columns)
  {
    r := [];
    for i := 0 to |rows|
      invariant r == RowsFor(rows, columns)[..i]
    {
      var normalized: Row := map[];
      for j := 0 to |columns|
        invariant normalized == RowFor(rows[i], columns[..j])
      {
        assert columns[..j + 1] == columns[..j] + [columns[j]];
        var key := columns[j].name;
        normalized := normalized[key := if key in rows[i] then rows[i][key] else Null];
      }
      assert columns[..|columns|] == columns;
      r := r + [normalized];
    }
  }

  method NormalizeResultShape(result: QueryResult) returns (r: QueryResult)
    ensures r == Normalize(result) && ShapeOf(result, r)
  {
    NormalizeIsShape(result);
    var columns, truncated := DedupColumns(result.columns);
    truncated := truncated || result.truncated;
    if |columns| > MAX_QUERY_COLUMNS {
      columns, truncated := columns[..MAX_QUERY_COLUMNS], true;
    }
    var rows := result.rows;
    if |rows| > MAX_QUERY_ROWS {
      rows, truncated := rows[..MAX_QUERY_ROWS], true;
    }
    var extra := FindExtraKey(rows, columns);
    var normalized := RowsForColumns(rows, columns);
    r := QueryResult(result.actionVersion, result.tableRef, columns, normalized, truncated || extra);
  }

  // ---------------------------------------------------------------------------------------------
  // Shrinking to a byte budget
  // ---------------------------------------------------------------------------------------------

  function EffectiveBudget(max: int): nat
  {
    if max < 1 || max > MAX_QUERY_BYTES then MAX_QUERY_BYTES else max
  }

  function Smallest(r: QueryResult): (s: QueryResult)
    ensures s.actionVersion == "v1" && s.columns == [] && s.rows == [] && s.truncated
    ensures s.tableRef <= r.tableRef && |s.tableRef| == if |r.tableRef| > 253 then 253 else |r.tableRef|
  {
    QueryResult(ACTION_VERSION, Take(r.tableRef, MAX_TABLE_REF), [], [], true)
  }

  function DropRow(r: QueryResult): QueryResult
    requires r.rows != []
  {
    r.(rows := r.rows[..|r.rows| - 1], truncated := true)
  }

  function DropColumn(r: QueryResult): QueryResult
    requires r.rows == [] && r.columns != []
  {
    r.(columns := r.columns[..|r.columns| - 1], truncated := true)
  }

  /** Drop rows from the end, then columns, until the encoding fits. */
  function Shrink(enc: Encoder, max: nat, r: QueryResult): (s: QueryResult)
    ensures |s.columns| <= |r.columns| && |s.rows| <= |r.rows|
    decreases |r.columns| + |r.rows|
  {
    if Fits(enc, max, r) then r
    else if r.rows != [] then Shrink(enc, max, DropRow(r))
    else if r.columns != [] then Shrink(enc, max, DropColumn(r))
    else Smallest(r)
  }

  function Bound(enc: Encoder, r: QueryResult, max: int): QueryResult
  {
    Shrink(enc, EffectiveBudget(max), Normalize(r))
  }

  method BoundQueryResultWithin(enc: Encoder, input: QueryResult, max: int) returns (result: QueryResult)
    ensures result == Bound(enc, input, max)
  {
    var budget := max;
    if budget < 1 || budget > MAX_QUERY_BYTES {
      budget := MAX_QUERY_BYTES;
    }
    result := NormalizeResultShape(input);
    while true
      invariant Shrink(enc, budget, result) == Bound(enc, input, max)
      decreases |result.columns| + |result.rows|
    {
      var encoded := enc(result);
      if encoded.Some? && encoded.value <= budget {
        return;
      }
      if |result.rows| > 0 {
        result := result.(rows := result.rows[..|result.rows| - 1], truncated := true);
        continue;
      }
      if |result.columns| > 0 {
        var columns := result.columns[..|result.columns| - 1];
        var rows := RowsForColumns(result.rows, columns);
        result := result.(columns := columns, rows := rows, truncated := true);
        continue;
      }
      result := QueryResult(ACTION_VERSION, Take(result.tableRef, MAX_TABLE_REF), [], [], true);
      return;
    }
  }

  /** `n` with its first `k` rows. */
  function RowPrefix(n: QueryResult, k: nat): QueryResult
    requires k <= |n.rows|
  {
    if k == |n.rows| then n else n.(rows := n.rows[..k], truncated := true)
  }

  /** `n` with no rows and its first `k` columns. */
  function ColumnPrefix(n: QueryResult, k: nat): QueryResult
    requires k <= |n.columns|
  {
    n.(columns := n.columns[..k], rows := [], truncated := true)
  }

  ghost predicate LongestRows(enc: Encoder, max: nat, n: QueryResult, b: QueryResult, k: nat)
  {
    && k <= |n.rows| && b == RowPrefix(n, k) && Fits(enc, max, b)
    && forall j :: k < j <= |n.rows| ==> !Fits(enc, max, RowPrefix(n, j))
  }

  ghost predicate NoRowsFit(enc: Encoder, max: nat, n: QueryResult)
  {
    forall j :: 0 <= j <= |n.rows| ==> !Fits(enc, max, RowPrefix(n, j))
  }

  ghost predicate LongestColumns(enc: Encoder, max: nat, n: QueryResult, b: QueryResult, k: nat)
  {
    && k < |n.columns| && b == ColumnPrefix(n, k) && Fits(enc, max, b) && NoRowsFit(enc, max, n)
    && forall j :: k < j < |n.columns| ==> !Fits(enc, max, ColumnPrefix(n, j))
  }

  ghost predicate NothingFits(enc: Encoder, max: nat, n: QueryResult)
  {
    NoRowsFit(enc, max, n) && forall j :: 0 <= j < |n.columns| ==> !Fits(enc, max, ColumnPrefix(n, j))
  }

  /** From the `k`-row prefix on, shrinking finds the longest fitting row prefix, or moves on to columns. */
  lemma {:induction false} ShrinkRows(enc: Encoder, max: nat, n: QueryResult, k: nat) returns (found: Option<nat>)
    requires k <= |n.rows|
    requires forall j :: k < j <= |n.rows| ==> !Fits(enc, max, RowPrefix(n, j))
    ensures found.Some? ==> LongestRows(enc, max, n, Shrink(enc, max, RowPrefix(n, k)), found.value)
    ensures found.None? ==> NoRowsFit(enc, max, n)
    ensures found.None? ==>
      (Shrink(enc, max, RowPrefix(n, k)) ==
       if n.columns == [] then Smallest(n) else Shrink(enc, max, ColumnPrefix(n, |n.columns| - 1)))
  {
    var r := RowPrefix(n, k);
    if Fits(enc, max, r) {
      found := Some(k);
    } else if k > 0 {
      assert DropRow(r) == RowPrefix(n, k - 1);
      found := ShrinkRows(enc, max, n, k - 1);
    } else {
      found := None;
      if n.columns != [] {
        assert DropColumn(r) == ColumnPrefix(n, |n.columns| - 1);
      }
    }
  }

  lemma {:induction false} ShrinkColumns(enc: Encoder, max: nat, n: QueryResult, k: nat) returns (found: Option<nat>)
    requires k < |n.columns| && NoRowsFit(enc, max, n)
    requires forall j :: k < j < |n.columns| ==> !Fits(enc, max, ColumnPrefix(n, j))
    ensures found.Some? ==> LongestColumns(enc, max, n, Shrink(enc, max, ColumnPrefix(n, k)), found.value)
    ensures found.None? ==> NothingFits(enc, max, n) && Shrink(enc, max, ColumnPrefix(n, k)) == Smallest(n)
  {
    var r := ColumnPrefix(n, k);
    if Fits(enc, max, r) {
      found := Some(k);
    } else if k > 0 {
      assert DropColumn(r) == ColumnPrefix(n, k - 1);
      found := ShrinkColumns(enc, max, n, k - 1);
    } else {
      found := None;
    }
  }

  /** The longest row prefix that fits, else the longest column prefix, else the fixed smallest result. */
  ghost predicate Longest(enc: Encoder, max: nat, n: QueryResult, b: QueryResult)
  {
    || (exists k: nat :: LongestRows(enc, max, n, b, k))
    || (exists k: nat :: LongestColumns(enc, max, n, b, k))
    || (NothingFits(enc, max, n) && b == Smallest(n))
  }

  lemma BoundOfNormal(enc: Encoder, input: QueryResult, max: int)
    ensures Longest(enc, EffectiveBudget(max), Normalize(input), Bound(enc, input, max))
  {
    var n, b, budget := Normalize(input), Bound(enc, input, max), EffectiveBudget(max);
    var rows := ShrinkRows(enc, budget, n, |n.rows|);
    assert rows.Some? ==> LongestRows(enc, budget, n, b, rows.value);
    if rows.None? && n.columns != [] {
      var columns := ShrinkColumns(enc, budget, n, |n.columns| - 1);
      assert columns.Some? ==> LongestColumns(enc, budget, n, b, columns.value);
    }
  }

  // ---------------------------------------------------------------------------------------------
  // Shape, the truncation flag, and repetition
  // ---------------------------------------------------------------------------------------------

  /** Columns distinct and few, rows few, every row keyed by exactly the columns. */
  predicate Shaped(r: QueryResult)
  {
    && Distinct(r.columns) && |r.columns| <= MAX_QUERY_COLUMNS && |r.rows| <= MAX_QUERY_ROWS
    && forall i :: 0 <= i < |r.rows| ==> r.rows[i].Keys == NameSet(r.columns)
  }

  /** The rows of `b` hold input cells unchanged, row by row, with nulls for missing keys. */
  ghost predicate CellsFrom(b: QueryResult, input: QueryResult)
  {
    && |b.rows| <= |input.rows|
    && forall i, k :: 0 <= i < |b.rows| && k in b.rows[i] ==>
         b.rows[i][k] == if k in input.rows[i] then input.rows[i][k] else Null
  }

  /** Some column, row or cell of the input is not in `b`. */
  predicate Lost(b: QueryResult, input: QueryResult)
  {
    b.columns != input.columns || |b.rows| != |input.rows| || HasExtraKey(input.rows, b.columns)
  }

  lemma NormalizeShape(input: QueryResult)
    ensures var n := Normalize(input);
      Shaped(n) && CellsFrom(n, input) && (n.truncated <==> input.truncated || Lost(n, input))
  {
    var n := Normalize(input);
    DedupKeepsNames(input.columns);
    if |input.rows| <= MAX_QUERY_ROWS {
      assert HasExtraKey(Take(input.rows, MAX_QUERY_ROWS), n.columns) == HasExtraKey(input.rows, n.columns);
    }
  }

  /** The first column of each name, in input order; when there are more than 64 names, the first 64 of these. */
  ghost predicate FirstDistinct(columns: seq<QueryColumn>, kept: seq<QueryColumn>)
  {
    && |kept| == (if |NameSet(columns)| > 64 then 64 else |NameSet(columns)|)
    && exists all :: Picks(columns, FirstNames(columns), all) && kept <= all
  }

  /** What shaping makes of the input, down to the flag. */
  ghost predicate ShapeOf(input: QueryResult, n: QueryResult)
  {
    && n.actionVersion == input.actionVersion && n.tableRef == input.tableRef
    && FirstDistinct(input.columns, n.columns) && Shaped(n) && CellsFrom(n, input)
    && |n.rows| == (if |input.rows| > 100 then 100 else |input.rows|)
    && (n.truncated <==> input.truncated || Lost(n, input))
  }

  lemma NormalizeIsShape(input: QueryResult)
    ensures ShapeOf(input, Normalize(input))
  {
    NormalizeShape(input);
    DedupIsExact(input.columns);
    DedupKeepsNames(input.columns);
    DistinctSize(Dedup(input.columns));
  }

  lemma SameCells(input: QueryResult, a: QueryResult, b: QueryResult)
    requires Shaped(a) && Shaped(b) && CellsFrom(a, input) && CellsFrom(b, input)
    requires a.columns == b.columns && |a.rows| == |b.rows|
    ensures a.rows == b.rows
  {
    forall i | 0 <= i < |a.rows|
      ensures a.rows[i] == b.rows[i]
    {
      assert a.rows[i].Keys == b.rows[i].Keys;
      assert forall k :: k in a.rows[i] ==> a.rows[i][k] == b.rows[i][k];
    }
  }

  lemma SameColumns(columns: seq<QueryColumn>, a: seq<QueryColumn>, b: seq<QueryColumn>)
    requires FirstDistinct(columns, a) && FirstDistinct(columns, b)
    ensures a == b
  {
    var all :| Picks(columns, FirstNames(columns), all) && a <= all;
    var other :| Picks(columns, FirstNames(columns), other) && b <= other;
    PicksUnique(columns, FirstNames(columns), all, other);
    assert a == all[..|a|] && b == other[..|b|];
  }

  /** There is only one such result. */
  lemma ShapeIsUnique(input: QueryResult, a: QueryResult, b: QueryResult)
    requires ShapeOf(input, a) && ShapeOf(input, b)
    ensures a == b
  {
    SameColumns(input.columns, a.columns, b.columns);
    SameCells(input, a, b);
  }

  /**
   The bound keeps the longest row prefix of the shaped input that fits; with no rows, the longest column prefix; and
   only when nothing at all fits does it fall back to the fixed smallest result. No monotonicity of the encoder is used.
   */
  lemma BoundIsLongest(enc: Encoder, input: QueryResult, max: int)
    ensures var budget := if 1 <= max <= 65536 then max else 65536;
      exists n :: ShapeOf(input, n) && Longest(enc, budget, n, Bound(enc, input, max))
  {
    NormalizeIsShape(input);
    BoundOfNormal(enc, input, max);
  }

  /**
   Every bounded result is shaped and made of input cells; unless it is the smallest result, it carries the
   input's identity and is marked truncated exactly when the input was or something of it was lost.
   */
  lemma BoundShape(enc: Encoder, input: QueryResult, max: int)
    ensures var b := Bound(enc, input, max);
      && Shaped(b) && CellsFrom(b, input)
      && (!b.truncated ==> !input.truncated && !Lost(b, input))
      && (b == Smallest(Normalize(input)) || (b.truncated <==> input.truncated || Lost(b, input)))
      && (b == Smallest(Normalize(input)) || (b.actionVersion == input.actionVersion && b.tableRef == input.tableRef))
  {
    NormalizeShape(input);
    BoundOfNormal(enc, input, max);
    var n, b, budget := Normalize(input), Bound(enc, input, max), EffectiveBudget(max);
    if k: nat :| LongestRows(enc, budget, n, b, k) {
      if k < |n.rows| {
        assert Lost(b, input);
      }
    } else if k: nat :| LongestColumns(enc, budget, n, b, k) {
      assert |b.columns| < |n.columns| <= |Dedup(input.columns)|;
    }
  }

  lemma RowsAreNormal(rows: seq<Row>, columns: seq<QueryColumn>)
    requires forall i :: 0 <= i < |rows| ==> rows[i].Keys == NameSet(columns)
    ensures RowsFor(rows, columns) == rows && !HasExtraKey(rows, columns)
  {
    forall i | 0 <= i < |rows|
      ensures RowFor(rows[i], columns) == rows[i]
    {
    }
  }

  lemma ShapedIsNormal(r: QueryResult)
    requires Shaped(r)
    ensures Normalize(r) == r
  {
    DedupDistinct(r.columns);
    RowsAreNormal(r.rows, r.columns);
  }

  /** Bounding again, at the same or a larger budget, changes nothing. */
  lemma BoundIdempotent(enc: Encoder, input: QueryResult, first: int, second: int)
    requires EffectiveBudget(first) <= EffectiveBudget(second)
    ensures Bound(enc, Bound(enc, input, first), second) == Bound(enc, input, first)
  {
    var b := Bound(enc, input, first);
    BoundShape(enc, input, first);
    ShapedIsNormal(b);
    BoundOfNormal(enc, input, first);
    if b == Smallest(Normalize(input)) {
      assert Smallest(b) == b;
    }
  }

  // ---------------------------------------------------------------------------------------------
  // Bounding a result inside a larger message
  // ---------------------------------------------------------------------------------------------

  /** The loop of the action envelope and of the MCP adapter; `None` when even the empty result is too large. */
  function ShrinkWrapped(enc: Encoder, wrap: Encoder, r: QueryResult): Option<QueryResult>
    decreases |r.columns| + |r.rows|
  {
    if Fits(wrap, MAX_QUERY_BYTES, r) then Some(r)
    else if r.rows != [] then ShrinkWrapped(enc, wrap, DropRow(r))
    else if r.columns != [] then
      ShrinkWrapped(enc, wrap,
        Bound(enc, DropColumn(r).(truncated := r.truncated), MAX_QUERY_BYTES).(truncated := true))
    else None
  }

  method BoundWrapped(enc: Encoder, wrap: Encoder, input: QueryResult) returns (r: Option<QueryResult>)
    ensures r == ShrinkWrapped(enc, wrap, input)
  {
    var result := input;
    while true
      invariant ShrinkWrapped(enc, wrap, result) == ShrinkWrapped(enc, wrap, input)
      decreases |result.columns| + |result.rows|
    {
      var size := wrap(result);
      if size.Some? && size.value <= MAX_QUERY_BYTES {
        return Some(result);
      }
      if |result.rows| > 0 {
        result := result.(rows := result.rows[..|result.rows| - 1], truncated := true);
        continue;
      }
      if |result.columns| > 0 {
        var fewer := result.(columns := result.columns[..|result.columns| - 1]);
        var bounded := BoundQueryResultWithin(enc, fewer, MAX_QUERY_BYTES);
        result := bounded.(truncated := true);
        continue;
      }
      return None;
    }
  }

  /** The wrapped message holds the result, so it fits only when the result alone does, whatever its flag. */
  ghost predicate Contains(enc: Encoder, wrap: Encoder, n: QueryResult)
  {
    forall x: QueryResult | x.actionVersion == n.actionVersion && x.tableRef == n.tableRef ::
      Fits(wrap, MAX_QUERY_BYTES, x.(truncated := true)) ==> Fits(enc, MAX_QUERY_BYTES, x)
  }

  /** The fixed metadata of `n` alone is within budget. */
  predicate EmptyFits(enc: Encoder, n: QueryResult)
  {
    && Fits(enc, MAX_QUERY_BYTES, n.(columns := [], rows := [], truncated := true))
    && Fits(enc, MAX_QUERY_BYTES, n.(columns := [], rows := [], truncated := false))
  }

  /** Re-bounding a row-less result jumps only over column prefixes that the wrapped message could not hold. */
  lemma ReboundSkips(enc: Encoder, wrap: Encoder, n: QueryResult, fewer: QueryResult) returns (m: nat)
    requires Shaped(n) && Contains(enc, wrap, n) && EmptyFits(enc, n)
    requires fewer.columns <= n.columns && fewer.rows == []
      && fewer == n.(columns := fewer.columns, rows := [], truncated := fewer.truncated)
    ensures m <= |fewer.columns| && Bound(enc, fewer, MAX_QUERY_BYTES).(truncated := true) == ColumnPrefix(n, m)
    ensures forall j :: m < j <= |fewer.columns| ==> !Fits(wrap, MAX_QUERY_BYTES, ColumnPrefix(n, j))
  {
    ShapedIsNormal(fewer);
    var rows := ShrinkRows(enc, MAX_QUERY_BYTES, fewer, 0);
    m := |fewer.columns|;
    if rows.None? {
      EmptyIsLast(enc, n, fewer);
      var columns := ShrinkColumns(enc, MAX_QUERY_BYTES, fewer, |fewer.columns| - 1);
      m := columns.value;
      forall j | m < j <= |fewer.columns|
        ensures !Fits(wrap, MAX_QUERY_BYTES, ColumnPrefix(n, j))
      {
        var x := if j == |fewer.columns| then RowPrefix(fewer, 0) else ColumnPrefix(fewer, j);
        assert x.columns == n.columns[..j];
        assert x.(truncated := true) == ColumnPrefix(n, j);
        NotContained(enc, wrap, n, x);
      }
    }
  }

  lemma NotContained(enc: Encoder, wrap: Encoder, n: QueryResult, x: QueryResult)
    requires Contains(enc, wrap, n) && !Fits(enc, MAX_QUERY_BYTES, x)
    requires x.actionVersion == n.actionVersion && x.tableRef == n.tableRef
    ensures !Fits(wrap, MAX_QUERY_BYTES, x.(truncated := true))
  {
  }

  /** Some column prefix of a row-less result fits: at worst the empty one. */
  lemma EmptyIsLast(enc: Encoder, n: QueryResult, fewer: QueryResult)
    requires EmptyFits(enc, n) && fewer == n.(columns := fewer.columns, rows := [], truncated := fewer.truncated)
    requires NoRowsFit(enc, MAX_QUERY_BYTES, fewer)
    ensures fewer.columns != [] && !NothingFits(enc, MAX_QUERY_BYTES, fewer)
  {
    assert !Fits(enc, MAX_QUERY_BYTES, RowPrefix(fewer, 0));
    if fewer.columns != [] {
      assert Fits(enc, MAX_QUERY_BYTES, ColumnPrefix(fewer, 0));
    }
  }

  lemma {:induction false} WrapColumns(enc: Encoder, wrap: Encoder, n: QueryResult, k: nat, s: QueryResult)
    returns (found: Option<nat>)
    requires Shaped(n) && Contains(enc, wrap, n) && EmptyFits(enc, n) && NoRowsFit(wrap, MAX_QUERY_BYTES, n)
    requires k <= |n.columns| && s == if k == |n.columns| then RowPrefix(n, 0) else ColumnPrefix(n, k)
    requires forall j :: k < j < |n.columns| ==> !Fits(wrap, MAX_QUERY_BYTES, ColumnPrefix(n, j))
    ensures found.Some? ==>
      ShrinkWrapped(enc, wrap, s).Some?
        && LongestColumns(wrap, MAX_QUERY_BYTES, n, ShrinkWrapped(enc, wrap, s).value, found.value)
    ensures found.None? ==> NothingFits(wrap, MAX_QUERY_BYTES, n) && ShrinkWrapped(enc, wrap, s).None?
    decreases k
  {
    assert k == |n.columns| ==> !Fits(wrap, MAX_QUERY_BYTES, s);
    if Fits(wrap, MAX_QUERY_BYTES, s) {
      found := Some(k);
    } else if k == 0 {
      found := None;
    } else {
      var fewer := DropColumn(s).(truncated := s.truncated);
      var m := ReboundSkips(enc, wrap, n, fewer);
      found := WrapColumns(enc, wrap, n, m, ColumnPrefix(n, m));
    }
  }

  lemma {:induction false} WrapRows(enc: Encoder, wrap: Encoder, n: QueryResult, k: nat) returns (found: Option<nat>)
    requires k <= |n.rows|
    requires forall j :: k < j <= |n.rows| ==> !Fits(wrap, MAX_QUERY_BYTES, RowPrefix(n, j))
    ensures found.Some? ==>
      && ShrinkWrapped(enc, wrap, RowPrefix(n, k)).Some?
      && LongestRows(wrap, MAX_QUERY_BYTES, n, ShrinkWrapped(enc, wrap, RowPrefix(n, k)).value, found.value)
    ensures found.None? ==>
      NoRowsFit(wrap, MAX_QUERY_BYTES, n)
        && ShrinkWrapped(enc, wrap, RowPrefix(n, k)) == ShrinkWrapped(enc, wrap, RowPrefix(n, 0))
  {
    if Fits(wrap, MAX_QUERY_BYTES, RowPrefix(n, k)) {
      found := Some(k);
    } else if k > 0 {
      assert DropRow(RowPrefix(n, k)) == RowPrefix(n, k - 1);
      found := WrapRows(enc, wrap, n, k - 1);
    } else {
      found := None;
    }
  }

  /**
   The wrapped loops also keep the longest row prefix, then the longest column prefix: the re-bounding they do
   after each dropped column loses nothing that would have fitted.
   */
  lemma WrappedIsLongest(enc: Encoder, wrap: Encoder, n: QueryResult)
    requires Shaped(n) && Contains(enc, wrap, n) && EmptyFits(enc, n)
    ensures var b := ShrinkWrapped(enc, wrap, n);
      || (b.Some? && exists k: nat :: LongestRows(wrap, MAX_QUERY_BYTES, n, b.value, k))
      || (b.Some? && exists k: nat :: LongestColumns(wrap, MAX_QUERY_BYTES, n, b.value, k))
      || (b.None? && NothingFits(wrap, MAX_QUERY_BYTES, n))
  {
    var b := ShrinkWrapped(enc, wrap, n);
    var rows := WrapRows(enc, wrap, n, |n.rows|);
    if rows.Some? {
      assert LongestRows(wrap, MAX_QUERY_BYTES, n, b.value, rows.value);
    } else {
      var columns := WrapColumns(enc, wrap, n, |n.columns|, RowPrefix(n, 0));
      assert columns.Some? ==> LongestColumns(wrap, MAX_QUERY_BYTES, n, b.value, columns.value);
    }
  }
}
