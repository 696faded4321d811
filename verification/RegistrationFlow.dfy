/** How the portal keeps one result per submitted item across retries (portal/src/registrationFlow.ts). */
module RegistrationFlow {
  import opened Wrappers
  import opened Sorting

  /** The `index` field of a response entry: an integer, or any other JSON value. */
  datatype WireIndex = Whole(value: int) | NotInteger

  datatype WireResult = WireResult(index: WireIndex, name: string, state: string, message: string)

  datatype RegistrationResult = RegistrationResult(index: int, name: string, state: string, message: string)

  datatype Item = Item(name: string)

  const FAILED := "failed"
  const NO_RESULT := "The provider did not return a result for this item. Retry it."

  /** Position from `i` on of the first response entry that names this batch position, or the length. */
  function FirstFrom(response: seq<WireResult>, position: int, i: nat): (p: nat)
    requires i <= |response|
    ensures i <= p <= |response| && (p < |response| ==> response[p].index == Whole(position))
    ensures forall j :: i <= j < p ==> response[j].index != Whole(position)
    decreases |response| - i
  {
    if i == |response| || response[i].index == Whole(position) then i else FirstFrom(response, position, i + 1)
  }

  function Entry(item: Item, position: nat, response: seq<WireResult>, index: int): RegistrationResult
  {
    var p := FirstFrom(response, position, 0);
    if p == |response| then RegistrationResult(index, item.name, FAILED, NO_RESULT)
    else
      var wire := response[p];
      RegistrationResult(index, if wire.name != "" then wire.name else item.name, wire.state, wire.message)
  }

  /** The first response entry numbered with this position. */
  ghost predicate FirstNumbered(response: seq<WireResult>, position: int, p: nat)
  {
    && p < |response| && response[p].index == Whole(position)
    && forall j :: 0 <= j < p ==> response[j].index != Whole(position)
  }

  /** An item shows what the first entry numbered with its position says, or that there was none. */
  lemma EntrySays(item: Item, position: nat, response: seq<WireResult>, index: int)
    ensures var entry := Entry(item, position, response, index);
      && entry.index == index
      && (forall p: nat :: FirstNumbered(response, position, p) ==>
            && entry.state == response[p].state && entry.message == response[p].message
            && entry.name == if response[p].name == "" then item.name else response[p].name)
      && ((forall p :: 0 <= p < |response| ==> response[p].index != Whole(position)) ==>
            entry.state == "failed" && entry.name == item.name && entry.message == NO_RESULT)
  {
  }

  function OriginalIndex(originalIndices: seq<int>, position: nat): int
  {
    if position < |originalIndices| then originalIndices[position] else position
  }

  function Materialized(
    items: seq<Item>, response: seq<WireResult>, originalIndices: seq<int>): (results: seq<RegistrationResult>)
    ensures |results| == |items|
  {
    seq(|items|, i requires 0 <= i < |items| => Entry(items[i], i, response, OriginalIndex(originalIndices, i)))
  }

  method MaterializeRegistrationResults(items: seq<Item>, response: seq<WireResult>, originalIndices: seq<int>)
    returns (results: seq<RegistrationResult>)
    ensures results == Materialized(items, response, originalIndices)
  {
    var byIndex: map<int, WireResult> := map[];
    for i := 0 to |response|
      invariant forall k :: k in byIndex <==> k >= 0 && FirstFrom(response, k, 0) < i
      invariant forall k :: k in byIndex ==> byIndex[k] == response[FirstFrom(response, k, 0)]
    {
      var result := response[i];
      if result.index.Whole? && result.index.value >= 0 && result.index.value !in byIndex {
        assert FirstFrom(response, result.index.value, 0) == i;
        byIndex := byIndex[result.index.value := result];
      }
    }
    results := [];
    for i := 0 to |items|
      invariant |results| == i
      invariant forall j :: 0 <= j < i ==> results[j] == Materialized(items, response, originalIndices)[j]
    {
      var index := if i < |originalIndices| then originalIndices[i] else i;
      if i !in byIndex {
        results := results + [RegistrationResult(index, items[i].name, FAILED, NO_RESULT)];
      } else {
        var found := byIndex[i];
        var name := if found.name != "" then found.name else items[i].name;
        results := results + [RegistrationResult(index, name, found.state, found.message)];
      }
    }
  }

  /** The contents of a JavaScript Map after setting the first `n` results under their indices. */
  function Latest(results: seq<RegistrationResult>, n: nat): map<int, RegistrationResult>
    requires n <= |results|
  {
    if n == 0 then map[] else Latest(results, n - 1)[results[n - 1].index := results[n - 1]]
  }

  predicate ByIndex(results: seq<RegistrationResult>)
  {
    forall i, j :: 0 <= i < j < |results| ==> results[i].index < results[j].index
  }

  /** Sorted by index, and exactly the values of the map built from `all`. */
  ghost predicate SortedLatest(all: seq<RegistrationResult>, merged: seq<RegistrationResult>)
  {
    && ByIndex(merged)
    && (forall i :: 0 <= i < |merged| ==>
      merged[i].index in Latest(all, |all|) && Latest(all, |all|)[merged[i].index] == merged[i])
    && (forall k :: k in Latest(all, |all|) ==> Latest(all, |all|)[k] in merged)
  }

  lemma {:induction false} LatestKeyed(results: seq<RegistrationResult>, n: nat)
    requires n <= |results|
    ensures forall k :: k in Latest(results, n) ==> Latest(results, n)[k].index == k
  {
    if n > 0 {
      LatestKeyed(results, n - 1);
    }
  }

  lemma {:induction false} LatestHas(results: seq<RegistrationResult>, n: nat, i: nat)
    requires i < n <= |results|
    ensures results[i].index in Latest(results, n)
  {
    if i < n - 1 {
      LatestHas(results, n - 1, i);
    }
  }

  /** The values of the Map, which lists each index where it was first set. */
  method MapValues(all: seq<RegistrationResult>, latest: map<int, RegistrationResult>)
    returns (values: seq<RegistrationResult>)
    requires latest == Latest(all, |all|)
    ensures Apart(values, SameIndex())
    ensures forall x :: x in values <==> x.index in latest && latest[x.index] == x
  {
    LatestKeyed(all, |all|);
    values := [];
    var listed: set<int> := {};
    for i := 0 to |all|
      invariant listed == Latest(all, i).Keys && Apart(values, SameIndex())
      invariant forall j :: 0 <= j < |values| ==> values[j].index in listed
      invariant forall x :: x in values <==> x.index in listed && x.index in latest && latest[x.index] == x
    {
      LatestHas(all, |all|, i);
      if all[i].index !in listed {
        var value := latest[all[i].index];
        SnocApart(values, value, SameIndex());
        values := values + [value];
      }
      listed := listed + {all[i].index};
    }
  }

  function IndexOrder(): Order<RegistrationResult>
  {
    (a: RegistrationResult, b: RegistrationResult) => a.index <= b.index
  }

  function SameIndex(): Order<RegistrationResult>
  {
    (a: RegistrationResult, b: RegistrationResult) => a.index == b.index
  }

  /** Values with different indices come out in strictly increasing order, none lost and none added. */
  lemma SortByIndex(values: seq<RegistrationResult>)
    requires Apart(values, SameIndex())
    ensures ByIndex(Sort(values, IndexOrder()))
    ensures forall x :: x in Sort(values, IndexOrder()) <==> x in values
  {
    var sorted := Sort(values, IndexOrder());
    SortIsSorted(values, IndexOrder());
    SortApart(values, IndexOrder(), SameIndex());
    forall i, j | 0 <= i < j < |sorted|
      ensures sorted[i].index < sorted[j].index
    {
      assert IndexOrder()(sorted[i], sorted[j]) && !SameIndex()(sorted[i], sorted[j]);
    }
    forall x: RegistrationResult
      ensures x in sorted <==> x in values
    {
      assert x in sorted <==> x in multiset(sorted);
      assert x in values <==> x in multiset(values);
    }
  }

  lemma SortedValues(all: seq<RegistrationResult>, values: seq<RegistrationResult>)
    requires Apart(values, SameIndex())
    requires var latest := Latest(all, |all|); forall x :: x in values <==> x.index in latest && latest[x.index] == x
    ensures SortedLatest(all, Sort(values, IndexOrder()))
  {
    SortByIndex(values);
    LatestKeyed(all, |all|);
    var sorted := Sort(values, IndexOrder());
    assert forall i :: 0 <= i < |sorted| ==> sorted[i] in sorted;
  }

  method MergeRegistrationResults(
    current: seq<RegistrationResult>, items: seq<Item>, response: seq<WireResult>, originalIndices: seq<int>)
    returns (merged: seq<RegistrationResult>)
    ensures SortedLatest(current + Materialized(items, response, originalIndices), merged)
  {
    var batch := MaterializeRegistrationResults(items, response, originalIndices);
    ghost var all := current + batch;
    var next: map<int, RegistrationResult> := map[];
    for i := 0 to |current|
      invariant next == Latest(all, i)
    {
      next := next[current[i].index := current[i]];
    }
    for i := 0 to |batch|
      invariant next == Latest(all, |current| + i)
    {
      next := next[batch[i].index := batch[i]];
    }
    var values := MapValues(current + batch, next);
    SortedValues(all, values);
    merged := Sort(values, IndexOrder());
  }

  /** `retryableRegistrationIndices` over the first `n` results. */
  function Retryable(results: seq<RegistrationResult>, n: nat): (indices: seq<int>)
    requires n <= |results|
  {
    if n == 0 then [] else
      Retryable(results, n - 1) + if results[n - 1].state == FAILED then [results[n - 1].index] else []
  }

  /** Exactly one entry per original item, in index order. */
  predicate Complete(results: seq<RegistrationResult>, count: nat)
  {
    |results| == count && forall i :: 0 <= i < count ==> results[i].index == i
  }

  predicate Increasing(indices: seq<int>, bound: int)
  {
    && (forall i, j :: 0 <= i < j < |indices| ==> indices[i] < indices[j])
    && (forall i :: 0 <= i < |indices| ==> 0 <= indices[i] < bound)
  }

  /** The retried indices are the failed entries, each once and in order. */
  lemma {:induction false} RetryableExact(results: seq<RegistrationResult>, count: nat, n: nat)
    requires Complete(results, count) && n <= count
    ensures Increasing(Retryable(results, n), n)
    ensures forall i :: 0 <= i < n ==> (i in Retryable(results, n) <==> results[i].state == FAILED)
  {
    if n > 0 {
      RetryableExact(results, count, n - 1);
    }
  }

  lemma {:induction false} LatestAt(results: seq<RegistrationResult>, n: nat, j: nat)
    requires j < n <= |results| && forall k :: j < k < n ==> results[k].index != results[j].index
    ensures results[j].index in Latest(results, n) && Latest(results, n)[results[j].index] == results[j]
  {
    if j < n - 1 {
      LatestAt(results, n - 1, j);
    }
  }

  lemma {:induction false} LatestFrom(results: seq<RegistrationResult>, n: nat, key: int) returns (j: nat)
    requires n <= |results| && key in Latest(results, n)
    ensures j < n && results[j].index == key
  {
    if results[n - 1].index == key {
      j := n - 1;
    } else {
      j := LatestFrom(results, n - 1, key);
    }
  }

  ghost predicate HasIndex(results: seq<RegistrationResult>, k: int)
  {
    exists j :: 0 <= j < |results| && results[j].index == k
  }

  /** A strictly ordered list whose indices are exactly 0 to `count` - 1 has each at its own position. */
  lemma {:induction false} SortedRangeAt(merged: seq<RegistrationResult>, count: nat, i: nat)
    requires ByIndex(merged) && i <= count
    requires forall j :: 0 <= j < |merged| ==> 0 <= merged[j].index < count
    requires forall k :: 0 <= k < count ==> HasIndex(merged, k)
    ensures i <= |merged| && forall j :: 0 <= j < i ==> merged[j].index == j
    ensures i == count ==> |merged| == count
  {
    if i > 0 {
      SortedRangeAt(merged, count, i - 1);
      assert HasIndex(merged, i - 1);
      var j :| 0 <= j < |merged| && merged[j].index == i - 1;
      assert j >= i - 1;
      assert merged[i - 1].index <= merged[j].index;
      assert i - 1 > 0 ==> merged[i - 2].index < merged[i - 1].index;
    }
    assert |merged| > i ==> merged[i].index >= i;
  }

  /** The batch a retry submits, for the failed entries of `results`. */
  function RetryItems(items: seq<Item>, indices: seq<int>): (retry: seq<Item>)
    requires forall i :: 0 <= i < |indices| ==> 0 <= indices[i] < |items|
    ensures |retry| == |indices|
  {
    seq(|indices|, i requires 0 <= i < |indices| => items[indices[i]])
  }

  /** One retry round. The request may also fail as a whole (`None`), which leaves the results alone. */
  ghost predicate Round(
    items: seq<Item>, results: seq<RegistrationResult>, response: Option<seq<WireResult>>,
    results': seq<RegistrationResult>)
    requires Complete(results, |items|)
  {
    RetryableExact(results, |items|, |results|);
    var indices := Retryable(results, |results|);
    if response.None? || indices == [] then results' == results
    else SortedLatest(results + Materialized(RetryItems(items, indices), response.value, indices), results')
  }

  lemma RetriedEntry(results: seq<RegistrationResult>, batch: seq<RegistrationResult>, b: nat)
    requires b < |batch| && forall c :: b < c < |batch| ==> batch[b].index != batch[c].index
    ensures var latest := Latest(results + batch, |results + batch|);
      batch[b].index in latest && latest[batch[b].index] == batch[b]
  {
    var all := results + batch;
    assert forall k :: |results| <= k < |all| ==> all[k] == batch[k - |results|];
    LatestAt(all, |all|, |results| + b);
  }

  lemma UntouchedEntry(results: seq<RegistrationResult>, batch: seq<RegistrationResult>, count: nat, i: nat)
    requires Complete(results, count) && i < count && forall b :: 0 <= b < |batch| ==> batch[b].index != i
    ensures var all := results + batch; i in Latest(all, |all|) && Latest(all, |all|)[i] == results[i]
  {
    var all := results + batch;
    assert forall k :: |results| <= k < |all| ==> all[k] == batch[k - |results|];
    assert forall k :: 0 <= k < |results| ==> all[k] == results[k];
    LatestAt(all, |all|, i);
  }

  lemma RetryEntryAt(results: seq<RegistrationResult>, batch: seq<RegistrationResult>, count: nat, i: nat)
    requires Complete(results, count) && i < count
    requires forall b, c :: 0 <= b < c < |batch| ==> batch[b].index < batch[c].index
    ensures var all := results + batch;
      && i in Latest(all, |all|)
      && (forall b :: 0 <= b < |batch| && batch[b].index == i ==> Latest(all, |all|)[i] == batch[b])
      && ((forall b :: 0 <= b < |batch| ==> batch[b].index != i) ==> Latest(all, |all|)[i] == results[i])
  {
    if b :| 0 <= b < |batch| && batch[b].index == i {
      RetriedEntry(results, batch, b);
    } else {
      UntouchedEntry(results, batch, count, i);
    }
  }

  /** After a merge of a complete list with ordered entries for some of its items, the list is complete again. */
  lemma MergeIsComplete(
    results: seq<RegistrationResult>, batch: seq<RegistrationResult>, count: nat, merged: seq<RegistrationResult>)
    requires Complete(results, count) && SortedLatest(results + batch, merged)
    requires forall b, c :: 0 <= b < c < |batch| ==> batch[b].index < batch[c].index
    requires forall b :: 0 <= b < |batch| ==> 0 <= batch[b].index < count
    ensures Complete(merged, count)
    ensures forall b :: 0 <= b < |batch| ==> merged[batch[b].index] == batch[b]
    ensures forall i :: 0 <= i < count && (forall b :: 0 <= b < |batch| ==> batch[b].index != i) ==>
      merged[i] == results[i]
  {
    var all := results + batch;
    forall k | 0 <= k < count
      ensures HasIndex(merged, k)
    {
      RetryEntryAt(results, batch, count, k);
      LatestKeyed(all, |all|);
    }
    forall j | 0 <= j < |merged|
      ensures 0 <= merged[j].index < count
    {
      var p := LatestFrom(all, |all|, merged[j].index);
    }
    SortedRangeAt(merged, count, count);
    forall i | 0 <= i < count
      ensures forall b :: 0 <= b < |batch| && batch[b].index == i ==> merged[i] == batch[b]
      ensures (forall b :: 0 <= b < |batch| ==> batch[b].index != i) ==> merged[i] == results[i]
    {
      RetryEntryAt(results, batch, count, i);
    }
  }

  lemma BatchEntries(items: seq<Item>, response: seq<WireResult>, indices: seq<int>)
    requires Increasing(indices, |items|)
    ensures var batch := Materialized(RetryItems(items, indices), response, indices);
      && |batch| == |indices|
      && (forall b :: 0 <= b < |batch| ==> batch[b].index == indices[b])
      && (forall b :: 0 <= b < |batch| ==> batch[b] == Entry(items[indices[b]], b, response, indices[b]))
  {
  }

  /**
   One round keeps exactly one entry per item in index order, leaves every non-failed entry alone, and gives the
   b-th failed item the first response entry numbered b, or a retryable failure when there is none.
   */
  lemma RoundKeepsItems(
    items: seq<Item>, results: seq<RegistrationResult>, response: Option<seq<WireResult>>,
    results': seq<RegistrationResult>)
    requires Complete(results, |items|) && Round(items, results, response, results')
    ensures Complete(results', |items|)
    ensures forall i :: 0 <= i < |items| && results[i].state != FAILED ==> results'[i] == results[i]
    ensures var indices := Retryable(results, |results|);
      response.Some? ==> forall b :: 0 <= b < |indices| ==>
        0 <= indices[b] < |items| && results'[indices[b]] == Entry(items[indices[b]], b, response.value, indices[b])
  {
    RetryableExact(results, |items|, |results|);
    var indices := Retryable(results, |results|);
    if response.Some? && indices != [] {
      BatchEntries(items, response.value, indices);
      var batch := Materialized(RetryItems(items, indices), response.value, indices);
      MergeIsComplete(results, batch, |items|, results');
      forall b | 0 <= b < |indices|
        ensures results'[indices[b]] == Entry(items[indices[b]], b, response.value, indices[b])
      {
        assert results'[batch[b].index] == batch[b];
      }
    }
  }

  method RetryableRegistrationIndices(results: seq<RegistrationResult>) returns (indices: seq<int>)
    ensures indices == Retryable(results, |results|)
  {
    indices := [];
    for i := 0 to |results|
      invariant indices == Retryable(results, i)
    {
      if results[i].state == FAILED {
        indices := indices + [results[i].index];
      }
    }
  }

  /** The wizard's retry button: resubmit the failed items and merge what comes back, if anything does. */
  method RetryFailed(items: seq<Item>, results: seq<RegistrationResult>, response: Option<seq<WireResult>>)
    returns (results': seq<RegistrationResult>)
    requires Complete(results, |items|)
    ensures Round(items, results, response, results')
  {
    RetryableExact(results, |items|, |results|);
    var indices := RetryableRegistrationIndices(results);
    if |indices| == 0 || response.None? {
      return results;
    }
    results' := MergeRegistrationResults(results, RetryItems(items, indices), response.value, indices);
  }

  ghost predicate Rounds(
    items: seq<Item>, history: seq<seq<RegistrationResult>>, responses: seq<Option<seq<WireResult>>>)
  {
    && |history| == |responses| + 1
    && forall r :: 0 <= r < |responses| && Complete(history[r], |items|) ==>
      Round(items, history[r], responses[r], history[r + 1])
  }

  /** Across any number of rounds: complete results, settled entries that never change, failures that only shrink. */
  lemma {:induction false} RoundsKeepItems(
    items: seq<Item>, history: seq<seq<RegistrationResult>>, responses: seq<Option<seq<WireResult>>>, first: nat,
    last: nat)
    requires Rounds(items, history, responses) && first <= last < |history| && Complete(history[first], |items|)
    ensures Complete(history[last], |items|)
    ensures forall i :: 0 <= i < |items| && history[first][i].state != FAILED ==> history[last][i] == history[first][i]
    ensures forall i :: 0 <= i < |items| && history[last][i].state == FAILED ==> history[first][i].state == FAILED
    decreases last - first
  {
    if first < last {
      RoundsKeepItems(items, history, responses, first, last - 1);
      RoundKeepsItems(items, history[last - 1], responses[last - 1], history[last]);
    }
  }

  /** The first submission is complete whatever the response holds. */
  lemma SubmissionIsComplete(items: seq<Item>, response: seq<WireResult>)
    ensures Complete(Materialized(items, response, []), |items|)
    ensures forall i :: 0 <= i < |items| && (forall j :: 0 <= j < |response| ==> response[j].index != Whole(i)) ==>
      Materialized(items, response, [])[i].state == FAILED
  {
  }
}
