/** Small vocabulary shared by the model: optional values, results, and Go's string trimming. */
module Wrappers {
  datatype Option<+T> = None | Some(value: T)

  datatype Result<+T, +E> = Ok(value: T) | Err(error: E)

  lemma {:induction false} SubsetSize<T>(a: set<T>, b: set<T>)
    requires a <= b
    ensures |a| <= |b|
  {
    if a != {} {
      var x :| x in a;
      SubsetSize(a - {x}, b - {x});
    }
  }
}

/** The fixed limits of the query contract, and what may name a table (queryapi/query.go). */
module QueryContract {
  const DEFAULT_QUERY_LIMIT: int := 100
  const MAX_QUERY_LIMIT: int := 100
  const MAX_QUERY_ROWS: nat := 100
  const MAX_QUERY_COLUMNS: nat := 64
  const MAX_IDENTIFIER_LENGTH: nat := 255
  const MAX_QUERY_BYTES: nat := 65536
  const MAX_TABLE_LIST_ITEMS: nat := 256
  const MAX_TABLE_REF: nat := 253

  predicate NameChar(c: char)
  {
    'a' <= c <= 'z' || '0' <= c <= '9'
  }

  /** A DNS label of at most 253 characters. */
  predicate ValidTableRef(name: string)
  {
    && 0 < |name| <= MAX_TABLE_REF && NameChar(name[0]) && NameChar(name[|name| - 1])
    && forall i :: 0 <= i < |name| ==> NameChar(name[i]) || name[i] == '-'
  }
}

module Text {
  /** Go's `unicode.IsSpace`. */
  predicate IsSpace(c: char)
  {
    || '\t' <= c <= '\r' || c == ' ' || c == '\U{85}' || c == '\U{A0}' || c == '\U{1680}'
    || '\U{2000}' <= c <= '\U{200A}' || c == '\U{2028}' || c == '\U{2029}'
    || c == '\U{202F}' || c == '\U{205F}' || c == '\U{3000}'
  }

  function TrimLeft(s: string): (r: string)
    ensures r != "" ==> !IsSpace(r[0])
  {
    if s != "" && IsSpace(s[0]) then TrimLeft(s[1..]) else s
  }

  function TrimRight(s: string): (r: string)
    ensures r != "" ==> !IsSpace(r[|r| - 1])
    ensures r <= s
  {
    if s != "" && IsSpace(s[|s| - 1]) then TrimRight(s[..|s| - 1]) else s
  }

  /** Go's `strings.TrimSpace`: neither end of a non-empty result is a space. */
  function TrimSpace(s: string): (r: string)
    ensures r != "" ==> !IsSpace(r[0]) && !IsSpace(r[|r| - 1])
  {
    TrimRight(TrimLeft(s))
  }

  /** It removes spaces only, and only at the ends. */
  lemma TrimRemovesSpaces(s: string) returns (from: nat, to: nat)
    ensures from <= to <= |s| && TrimSpace(s) == s[from..to]
    ensures forall i :: 0 <= i < |s| && !(from <= i < to) ==> IsSpace(s[i])
  {
    from := TrimLeftDrops(s);
    var n := TrimRightDrops(s[from..]);
    to := from + n;
    assert s[from..][..n] == s[from..to];
    assert forall i :: n <= i < |s| - from ==> s[from..][i] == s[from + i];
    assert forall i :: to <= i < |s| ==> s[i] == s[from..][i - from];
  }

  lemma {:induction false} TrimLeftDrops(s: string) returns (n: nat)
    ensures n <= |s| && TrimLeft(s) == s[n..] && forall i :: 0 <= i < n ==> IsSpace(s[i])
  {
    n := 0;
    if s != "" && IsSpace(s[0]) {
      var m := TrimLeftDrops(s[1..]);
      n := m + 1;
      assert s[1..][m..] == s[n..];
      assert forall i :: 1 <= i < n ==> s[i] == s[1..][i - 1];
    }
  }

  lemma {:induction false} TrimRightDrops(s: string) returns (n: nat)
    ensures n <= |s| && TrimRight(s) == s[..n] && forall i :: n <= i < |s| ==> IsSpace(s[i])
  {
    n := |s|;
    if s != "" && IsSpace(s[|s| - 1]) {
      n := TrimRightDrops(s[..|s| - 1]);
      assert s[..|s| - 1][..n] == s[..n];
    }
  }

  /** Lexicographic order on code points, which is the byte order Go's `<` uses on UTF-8 strings. */
  predicate Less(a: string, b: string)
  {
    b != "" && (a == "" || a[0] < b[0] || (a[0] == b[0] && Less(a[1..], b[1..])))
  }

  /** `b` continues `a`, or at the first difference, at `k`, it has the greater character. */
  ghost predicate Precedes(a: string, b: string, k: nat)
  {
    k <= |a| && k < |b| && a[..k] == b[..k] && (k == |a| || a[k] < b[k])
  }

  lemma SameHead(a: string, b: string, k: nat)
    requires Precedes(a, b, k)
    ensures k > 0 ==> a != "" && a[0] == b[0]
  {
    if k > 0 {
      assert a[..k][0] == b[..k][0];
    }
  }

  /** So a prefix comes first, and otherwise the first difference decides. */
  lemma {:induction false} LessIff(a: string, b: string)
    ensures Less(a, b) <==> exists k: nat :: Precedes(a, b, k)
  {
    if a != "" && b != "" && a[0] == b[0] {
      LessIff(a[1..], b[1..]);
      if k: nat :| Precedes(a[1..], b[1..], k) {
        assert a[..k + 1] == [a[0]] + a[1..][..k] && b[..k + 1] == [b[0]] + b[1..][..k];
        assert Precedes(a, b, k + 1);
      }
      if k: nat :| Precedes(a, b, k) {
        assert k > 0 && a[1..][..k - 1] == a[..k][1..] && b[1..][..k - 1] == b[..k][1..];
        assert Precedes(a[1..], b[1..], k - 1);
      }
    } else if Less(a, b) {
      assert Precedes(a, b, 0);
    } else if k: nat :| Precedes(a, b, k) {
      SameHead(a, b, k);
    }
  }

  lemma {:induction false} LessIrreflexive(a: string)
    ensures !Less(a, a)
  {
    if a != "" {
      LessIrreflexive(a[1..]);
    }
  }

  lemma {:induction false} LessTransitive(a: string, b: string, c: string)
    requires Less(a, b) && Less(b, c)
    ensures Less(a, c)
  {
    if a != "" && a[0] == b[0] && b[0] == c[0] {
      LessTransitive(a[1..], b[1..], c[1..]);
    }
  }

  lemma {:induction false} LessTotal(a: string, b: string)
    ensures a == b || Less(a, b) || Less(b, a)
  {
    if a != "" && b != "" && a[0] == b[0] {
      LessTotal(a[1..], b[1..]);
      assert a == [a[0]] + a[1..] && b == [b[0]] + b[1..];
    }
  }
}

/** Lists that keep some elements of another one, each at most once per position and in their order. */
module Positions {
  /** `at` lists these positions in increasing order. */
  ghost predicate InOrder(at: seq<nat>, s: set<nat>)
  {
    (forall i, j :: 0 <= i < j < |at| ==> at[i] < at[j]) && forall i: nat :: i in at <==> i in s
  }

  ghost predicate PicksAt<T>(all: seq<T>, s: set<nat>, kept: seq<T>, at: seq<nat>)
  {
    InOrder(at, s) && |kept| == |at| && forall k :: 0 <= k < |at| ==> at[k] < |all| && kept[k] == all[at[k]]
  }

  /** `kept` holds exactly the elements of `all` at these positions, in order. */
  ghost predicate Picks<T>(all: seq<T>, s: set<nat>, kept: seq<T>)
  {
    exists at :: PicksAt(all, s, kept, at)
  }

  /** The position holds an element that no earlier one does. */
  ghost predicate New<T>(all: seq<T>, i: nat)
    requires i < |all|
  {
    forall j :: 0 <= j < i ==> all[j] != all[i]
  }

  lemma PicksNone<T>(all: seq<T>)
    ensures Picks(all, {}, [])
  {
    assert PicksAt(all, {}, [], []);
  }

  lemma OneLater(at: seq<nat>, s: set<nat>, n: nat)
    requires InOrder(at, s) && forall i :: i in s ==> i < n
    ensures InOrder(at + [n], s + {n})
  {
    assert forall k :: 0 <= k < |at| ==> at[k] in at;
  }

  lemma PicksOneMore<T>(all: seq<T>, s: set<nat>, kept: seq<T>, n: nat)
    requires Picks(all, s, kept) && n < |all| && forall i :: i in s ==> i < n
    ensures Picks(all, s + {n}, kept + [all[n]])
  {
    var at :| PicksAt(all, s, kept, at);
    OneLater(at, s, n);
    assert PicksAt(all, s + {n}, kept + [all[n]], at + [n]);
  }

  lemma LastIsGreatest(at: seq<nat>, s: set<nat>)
    requires InOrder(at, s) && at != []
    ensures var front, last := at[..|at| - 1], at[|at| - 1];
      at == front + [last] && last in s && InOrder(front, s - {last}) && forall i :: i in s ==> i <= last
  {
    var n := |at| - 1;
    assert at[n] in at;
    assert forall i :: i in at[..n] <==> i in at && i != at[n];
  }

  lemma NoneListed(s: set<nat>)
    requires InOrder([], s)
    ensures s == {}
  {
    assert forall i: nat :: i !in s;
  }

  lemma {:induction false} OrderUnique(a: seq<nat>, b: seq<nat>, s: set<nat>)
    requires InOrder(a, s) && InOrder(b, s)
    ensures a == b && |a| == |s|
  {
    if a == [] || b == [] {
      NoneListed(s);
      if a != [] {
        LastIsGreatest(a, s);
      } else if b != [] {
        LastIsGreatest(b, s);
      }
    } else {
      LastIsGreatest(a, s);
      LastIsGreatest(b, s);
      OrderUnique(a[..|a| - 1], b[..|b| - 1], s - {a[|a| - 1]});
    }
  }

  /** The positions determine the list, and there are as many of them as it has elements. */
  lemma PicksUnique<T>(all: seq<T>, s: set<nat>, a: seq<T>, b: seq<T>)
    requires Picks(all, s, a) && Picks(all, s, b)
    ensures a == b && |a| == |s|
  {
    var at :| PicksAt(all, s, a, at);
    var bt :| PicksAt(all, s, b, bt);
    OrderUnique(at, bt, s);
  }

  /** The positions of the elements that are not in `ids` and occur for the first time. */
  ghost function Fresh<T>(ids: seq<T>, listed: seq<T>): set<nat>
  {
    set i: nat | i < |listed| && listed[i] !in ids && New(listed, i)
  }

  /** `r` is `ids` followed by the elements of `listed` not yet there, each where it first occurs. */
  ghost predicate Appended<T>(ids: seq<T>, listed: seq<T>, r: seq<T>)
  {
    ids <= r && Picks(listed, Fresh(ids, listed), r[|ids|..])
  }

  lemma AppendedNothing<T>(ids: seq<T>)
    ensures Appended(ids, [], ids)
  {
    PicksNone<T>([]);
    assert Fresh(ids, []) == {} && ids[|ids|..] == [];
  }

  lemma PicksLonger<T>(all: seq<T>, s: set<nat>, kept: seq<T>, x: T)
    requires Picks(all, s, kept)
    ensures Picks(all + [x], s, kept)
  {
    var at :| PicksAt(all, s, kept, at);
    assert PicksAt(all + [x], s, kept, at);
  }

  /** Nothing else is in `r`, and nothing is lost. */
  lemma AppendedHas<T>(ids: seq<T>, listed: seq<T>, r: seq<T>)
    requires Appended(ids, listed, r)
    ensures forall x :: x in r <==> x in ids || x in listed
  {
    var kept := r[|ids|..];
    var at :| PicksAt(listed, Fresh(ids, listed), kept, at);
    assert r == ids + kept;
    forall x | x in listed && x !in ids
      ensures x in kept
    {
      var i := FirstPosition(listed, x);
      assert i in at;
      var k :| 0 <= k < |at| && at[k] == i;
      assert kept[k] == x;
    }
  }

  lemma {:induction false} FirstPosition<T>(all: seq<T>, x: T) returns (i: nat)
    requires x in all
    ensures i < |all| && all[i] == x && New(all, i)
  {
    if x in all[..|all| - 1] {
      i := FirstPosition(all[..|all| - 1], x);
    } else {
      i := |all| - 1;
      assert forall j :: 0 <= j < i ==> all[j] == all[..i][j];
    }
  }

  lemma FreshMore<T>(ids: seq<T>, listed: seq<T>, x: T)
    ensures Fresh(ids, listed + [x]) ==
      Fresh(ids, listed) + if x in ids || x in listed then {} else {|listed|}
  {
    var longer := listed + [x];
    forall i: nat | i < |listed|
      ensures New(longer, i) <==> New(listed, i)
    {
      assert forall j :: 0 <= j < i ==> longer[j] == listed[j];
    }
    assert forall j :: 0 <= j < |listed| ==> longer[j] == listed[j];
  }

  lemma AppendedMore<T>(ids: seq<T>, listed: seq<T>, r: seq<T>, x: T)
    requires Appended(ids, listed, r)
    ensures Appended(ids, listed + [x], if x in r then r else r + [x])
  {
    AppendedHas(ids, listed, r);
    FreshMore(ids, listed, x);
    PicksLonger(listed, Fresh(ids, listed), r[|ids|..], x);
    if x !in r {
      PicksOneMore(listed + [x], Fresh(ids, listed), r[|ids|..], |listed|);
      assert (r + [x])[|ids|..] == r[|ids|..] + [x];
    } else {
      assert Fresh(ids, listed + [x]) == Fresh(ids, listed);
    }
  }

  /** No element is appended twice. */
  lemma AppendedApart<T>(ids: seq<T>, listed: seq<T>, r: seq<T>, i: nat, j: nat)
    requires Appended(ids, listed, r) && |ids| <= j < |r| && i < j
    ensures r[i] != r[j]
  {
    var kept := r[|ids|..];
    var at :| PicksAt(listed, Fresh(ids, listed), kept, at);
    assert kept[j - |ids|] == r[j] && at[j - |ids|] in at;
    if i < |ids| {
      assert r[i] == ids[i];
    } else {
      assert kept[i - |ids|] == r[i];
    }
  }
}
