/** The list_tables output (mcpserver/tools.go): deterministic although table maps have no order. */
module ListTables {
  import opened Wrappers
  import opened Text
  import opened QueryContract
  import opened Sorting
  import QuerySql

  datatype Summary = Summary(name: string, ref: QuerySql.TableRef)

  datatype ListOutput = ListOutput(tables: seq<Summary>, truncated: bool)

  type ListEncoder = ListOutput -> Option<nat>

  type TableMap = map<string, QuerySql.TableRef>

  predicate StrictlySorted(list: seq<Summary>)
  {
    forall i, j :: 0 <= i < j < |list| ==> Less(list[i].name, list[j].name)
  }

  /** `list` is the name-sorted listing of `tables`. */
  ghost predicate Lists(list: seq<Summary>, tables: TableMap)
  {
    StrictlySorted(list) && forall s: Summary :: s in list <==> s.name in tables && tables[s.name] == s.ref
  }

  lemma HeadNotInTail(list: seq<Summary>)
    requires list != [] && StrictlySorted(list)
    ensures list[0] !in list[1..]
  {
    LessIrreflexive(list[0].name);
  }

  /** There is only one such listing. */
  lemma {:induction false} ListingUnique(a: seq<Summary>, b: seq<Summary>)
    requires StrictlySorted(a) && StrictlySorted(b)
    requires forall s: Summary :: s in a <==> s in b
    ensures a == b
  {
    if b != [] {
      assert b[0] in a;
    }
    if a != [] {
      assert a[0] in b;
      var k :| 0 <= k < |b| && b[k] == a[0];
      if k > 0 {
        assert b[0] in a;
        var m :| 0 <= m < |a| && a[m] == b[0];
        assert Less(b[0].name, a[0].name);
        LessIrreflexive(a[0].name);
        LessTransitive(a[0].name, b[0].name, a[0].name);
      }
      HeadNotInTail(a);
      HeadNotInTail(b);
      assert a == [a[0]] + a[1..] && b == [b[0]] + b[1..];
      forall s: Summary
        ensures s in a[1..] <==> s in b[1..]
      {
        assert s in a <==> s == a[0] || s in a[1..];
        assert s in b <==> s == b[0] || s in b[1..];
      }
      ListingUnique(a[1..], b[1..]);
    }
  }

  // ---------------------------------------------------------------------------------------------
  // Sorting
  // ---------------------------------------------------------------------------------------------

  function NameOrder(): Order<Summary>
  {
    (a: Summary, b: Summary) => !Less(b.name, a.name)
  }

  function SameName(): Order<Summary>
  {
    (a: Summary, b: Summary) => a.name == b.name
  }

  function SortByName(list: seq<Summary>): seq<Summary>
  {
    Sort(list, NameOrder())
  }

  predicate DistinctNames(list: seq<Summary>)
  {
    forall i, j :: 0 <= i < j < |list| ==> list[i].name != list[j].name
  }

  lemma NameOrderTotal()
    ensures TotalPreorder(NameOrder())
  {
    var before := NameOrder();
    forall a: Summary, b: Summary
      ensures before(a, b) || before(b, a)
    {
      if Less(a.name, b.name) && Less(b.name, a.name) {
        LessTransitive(a.name, b.name, a.name);
        LessIrreflexive(a.name);
      }
    }
    forall a: Summary, b: Summary, c: Summary | before(a, b) && before(b, c)
      ensures before(a, c)
    {
      if Less(c.name, a.name) {
        LessTotal(b.name, c.name);
        LessTotal(a.name, b.name);
        if Less(b.name, c.name) {
          LessTransitive(b.name, c.name, a.name);
        }
      }
    }
  }

  lemma SortSorted(list: seq<Summary>)
    requires DistinctNames(list)
    ensures StrictlySorted(SortByName(list)) && |SortByName(list)| == |list|
    ensures forall s: Summary :: s in SortByName(list) <==> s in list
  {
    var sorted := SortByName(list);
    NameOrderTotal();
    SortIsSorted(list, NameOrder());
    SortApart(list, NameOrder(), SameName());
    forall i, j | 0 <= i < j < |sorted|
      ensures Less(sorted[i].name, sorted[j].name)
    {
      LessTotal(sorted[i].name, sorted[j].name);
      assert NameOrder()(sorted[i], sorted[j]);
    }
    forall s: Summary
      ensures s in sorted <==> s in list
    {
      assert s in sorted <==> s in multiset(sorted);
      assert s in list <==> s in multiset(list);
    }
  }

  // ---------------------------------------------------------------------------------------------
  // The tool
  // ---------------------------------------------------------------------------------------------

  function Prefix(list: seq<Summary>, n: nat): (r: seq<Summary>)
    ensures r <= list && |r| == if |list| > n then n else |list|
  {
    if |list| > n then list[..n] else list
  }

  /** Ranges over a map in whatever order the runtime picks. */
  method Collect(tables: TableMap) returns (list: seq<Summary>)
    ensures DistinctNames(list) && |list| == |tables|
    ensures forall s: Summary :: s in list <==> s.name in tables && tables[s.name] == s.ref
  {
    list := [];
    var remaining := tables.Keys;
    while remaining != {}
      invariant remaining <= tables.Keys && |list| + |remaining| == |tables|
      invariant DistinctNames(list) && forall i :: 0 <= i < |list| ==> list[i].name !in remaining
      invariant forall s: Summary :: s in list <==> s.name in tables.Keys - remaining && tables[s.name] == s.ref
      decreases |remaining|
    {
      var name :| name in remaining;
      list := list + [Summary(name, tables[name])];
      remaining := remaining - {name};
    }
  }

  method FromListing(list: seq<Summary>) returns (tables: TableMap)
    requires StrictlySorted(list)
    ensures Lists(list, tables)
  {
    tables := map[];
    for i := 0 to |list|
      invariant Lists(list[..i], tables)
    {
      assert list[..i + 1] == list[..i] + [list[i]];
      ListsSnoc(list[..i], list[i], tables);
      tables := tables[list[i].name := list[i].ref];
    }
    assert list[..|list|] == list;
  }

  /** The `limit` smallest names, with whether any were left out. */
  method BoundedTableMap(tables: TableMap, limit: nat, ghost all: seq<Summary>)
    returns (bounded: TableMap, truncated: bool)
    requires Lists(all, tables)
    ensures Lists(Prefix(all, ItemLimit(limit)), bounded)
    ensures truncated <==> |all| > ItemLimit(limit)
  {
    var effective := limit;
    if effective < 1 {
      effective := MAX_TABLE_LIST_ITEMS;
    }
    var listed := Collect(tables);
    SortSorted(listed);
    ListingUnique(SortByName(listed), all);
    if |tables| <= effective {
      return tables, false;
    }
    bounded := FromListing(SortByName(listed)[..effective]);
    truncated := true;
  }

  function ItemLimit(limit: nat): nat
  {
    if limit < 1 then MAX_TABLE_LIST_ITEMS else limit
  }

  lemma ListsSnoc(list: seq<Summary>, x: Summary, tables: TableMap)
    requires Lists(list, tables) && StrictlySorted(list + [x])
    ensures Lists(list + [x], tables[x.name := x.ref])
  {
    forall i | 0 <= i < |list|
      ensures list[i].name != x.name
    {
      assert Less((list + [x])[i].name, (list + [x])[|list|].name);
      LessIrreflexive(x.name);
    }
  }

  predicate Fits(enc: ListEncoder, out: ListOutput)
  {
    enc(out).Some? && enc(out).value <= MAX_QUERY_BYTES
  }

  function ShrinkList(enc: ListEncoder, out: ListOutput): ListOutput
    decreases |out.tables|
  {
    if Fits(enc, out) then out
    else if out.tables == [] then ListOutput([], true)
    else ShrinkList(enc, ListOutput(out.tables[..|out.tables| - 1], true))
  }

  method BoundListOutput(enc: ListEncoder, tables: seq<Summary>, truncated: bool) returns (result: ListOutput)
    ensures result == ShrinkList(enc, ListOutput(SortByName(tables), truncated))
  {
    result := ListOutput(SortByName(tables), truncated);
    while true
      invariant ShrinkList(enc, result) == ShrinkList(enc, ListOutput(SortByName(tables), truncated))
      decreases |result.tables|
    {
      var size := enc(result);
      if size.Some? && size.value <= MAX_QUERY_BYTES {
        return;
      }
      if |result.tables| == 0 {
        return ListOutput([], true);
      }
      result := ListOutput(result.tables[..|result.tables| - 1], true);
    }
  }

  /** `k` tables of the listing, flagged when that is not all of them. */
  function Shown(all: seq<Summary>, k: nat, truncated: bool): ListOutput
    requires k <= |all|
  {
    ListOutput(all[..k], truncated || k < |all|)
  }

  predicate NoLongerFits(enc: ListEncoder, all: seq<Summary>, k: nat, truncated: bool)
  {
    forall j :: k < j <= |all| ==> !Fits(enc, Shown(all, j, truncated))
  }

  /** Shrinking keeps the longest prefix that fits; the empty list is the last resort. */
  lemma {:induction false} ShrinkListLongest(enc: ListEncoder, all: seq<Summary>, k: nat, truncated: bool)
    returns (m: nat)
    requires k <= |all| && NoLongerFits(enc, all, k, truncated)
    ensures m <= k && ShrinkList(enc, Shown(all, k, truncated)).tables == all[..m]
    ensures NoLongerFits(enc, all, m, truncated)
    ensures Fits(enc, Shown(all, m, truncated)) ==>
      ShrinkList(enc, Shown(all, k, truncated)) == Shown(all, m, truncated)
    ensures !Fits(enc, Shown(all, m, truncated)) ==>
      m == 0 && ShrinkList(enc, Shown(all, k, truncated)) == ListOutput([], true)
  {
    if Fits(enc, Shown(all, k, truncated)) {
      m := k;
    } else if k == 0 {
      m := 0;
    } else {
      assert all[..k][..k - 1] == all[..k - 1];
      m := ShrinkListLongest(enc, all, k - 1, truncated);
    }
  }

  /**
   The whole tool. `all` is the one name-sorted listing of the resolved tables: the output is its longest
   prefix, of at most 256 tables, that fits; it is flagged whenever a table is missing or the resolver said so.
   No map order can influence it.
   */
  method ListTablesTool(enc: ListEncoder, tables: TableMap, resolverTruncated: bool, ghost all: seq<Summary>)
    returns (out: ListOutput)
    requires Lists(all, tables)
    ensures out.tables <= Prefix(all, MAX_TABLE_LIST_ITEMS)
    ensures |out.tables| < |all| || resolverTruncated ==> out.truncated
    ensures NoLongerFits(enc, Prefix(all, MAX_TABLE_LIST_ITEMS), |out.tables|,
      resolverTruncated || |all| > MAX_TABLE_LIST_ITEMS)
    ensures out == ShrinkList(enc,
      ListOutput(Prefix(all, MAX_TABLE_LIST_ITEMS), resolverTruncated || |all| > MAX_TABLE_LIST_ITEMS))
  {
    var bounded, itemTruncated := BoundedTableMap(tables, MAX_TABLE_LIST_ITEMS, all);
    var truncated := resolverTruncated || itemTruncated;
    var listed := Collect(bounded);
    out := BoundListOutput(enc, listed, truncated);
    ghost var kept := Prefix(all, MAX_TABLE_LIST_ITEMS);
    SortSorted(listed);
    ListingUnique(SortByName(listed), kept);
    assert Shown(kept, |kept|, truncated) == ListOutput(kept, truncated);
    ghost var m := ShrinkListLongest(enc, kept, |kept|, truncated);
  }

  /** The listing the tool is specified by always exists. */
  lemma ListingExists(tables: TableMap) returns (all: seq<Summary>)
    ensures Lists(all, tables)
  {
    var some := AnyListing(tables, tables.Keys);
    SortSorted(some);
    all := SortByName(some);
  }

  lemma {:induction false} AnyListing(tables: TableMap, names: set<string>) returns (list: seq<Summary>)
    requires names <= tables.Keys
    ensures DistinctNames(list) && forall s: Summary :: s in list <==> s.name in names && tables[s.name] == s.ref
    decreases |names|
  {
    if names == {} {
      list := [];
    } else {
      var name :| name in names;
      var rest := AnyListing(tables, names - {name});
      assert forall i :: 0 <= i < |rest| ==> rest[i] in rest;
      list := rest + [Summary(name, tables[name])];
    }
  }
}
