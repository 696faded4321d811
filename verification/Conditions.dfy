/** Generation-stamped status conditions (controller/shared/shared.go). */
module Conditions {
  import opened Wrappers

  datatype ConditionStatus = True | False | Unknown

  datatype ConditionKind = READY | VALIDATED

  /** The reasons the controllers write; each constructor is spelled as the reason string it stands for. */
  datatype Reason =
    | Healthy  // the string "Ready"
    | SchemaTruncated
    | ConnectionUnavailable
    | ConnectionNotReady
    | WarehouseUnavailable
    | WarehouseNotReady
    | WarehouseConnectionMismatch
    | CredentialUnavailable
    | ValidatorUnavailable
    | AuthTypeUnsupported
    | DatabricksUnavailable
    | AccessDenied
    | ResourceNotFound
    | UnsupportedTableType
    | ValidationFailed

  datatype Condition = Condition(kind: ConditionKind, status: ConditionStatus, reason: Reason, observedGeneration: nat)

  /** The first condition of a kind. */
  function Find(conditions: seq<Condition>, kind: ConditionKind): (r: Option<Condition>)
    ensures r.Some? ==> r.value in conditions && r.value.kind == kind
    ensures r.None? ==> forall c :: c in conditions ==> c.kind != kind
  {
    if conditions == [] then None
    else if conditions[0].kind == kind then Some(conditions[0])
    else Find(conditions[1..], kind)
  }

  /** Replace the condition of the same kind where it stands, or append it. */
  function Put(conditions: seq<Condition>, c: Condition): seq<Condition>
  {
    if conditions == [] then [c]
    else if conditions[0].kind == c.kind then [c] + conditions[1..]
    else [conditions[0]] + Put(conditions[1..], c)
  }

  /** A write is read back, and disturbs no other kind. */
  lemma {:induction false} PutThenFind(conditions: seq<Condition>, c: Condition, kind: ConditionKind)
    ensures Find(Put(conditions, c), kind) == if kind == c.kind then Some(c) else Find(conditions, kind)
  {
    if conditions != [] && conditions[0].kind != c.kind {
      PutThenFind(conditions[1..], c, kind);
      assert Put(conditions, c)[1..] == Put(conditions[1..], c);
    } else if conditions != [] {
      assert Put(conditions, c)[1..] == conditions[1..];
    } else {
      assert Put(conditions, c)[1..] == [];
    }
  }

  lemma {:induction false} PutAtFirst(conditions: seq<Condition>, c: Condition, i: nat)
    requires i <= |conditions|
    requires forall j :: 0 <= j < i ==> conditions[j].kind != c.kind
    requires i < |conditions| ==> conditions[i].kind == c.kind
    ensures Put(conditions, c) == if i < |conditions| then conditions[i := c] else conditions + [c]
  {
    if conditions != [] && i > 0 {
      PutAtFirst(conditions[1..], c, i - 1);
    }
  }

  /** The mutable condition list that a reconciler carries inside a status. */
  class ConditionList {
    var items: seq<Condition>

    constructor (items: seq<Condition>)
      ensures this.items == items
    {
      this.items := items;
    }

    method Set(kind: ConditionKind, status: ConditionStatus, reason: Reason, generation: nat)
      modifies this
      ensures items == Put(old(items), Condition(kind, status, reason, generation))
    {
      var c := Condition(kind, status, reason, generation);
      var i := 0;
      while i < |items| && items[i].kind != kind
        invariant 0 <= i <= |items|
        invariant items == old(items)
        invariant forall j :: 0 <= j < i ==> items[j].kind != kind
      {
        i := i + 1;
      }
      PutAtFirst(items, c, i);
      if i < |items| {
        items := items[i := c];
      } else {
        items := items + [c];
      }
    }
  }

  /** The gate every consumer of a derived status applies. */
  predicate CurrentConditionTrue(
    conditions: seq<Condition>, observedGeneration: nat, generation: nat, kind: ConditionKind)
  {
    && observedGeneration == generation
    && var found := Find(conditions, kind);
    && found.Some? && found.value.status == True && found.value.observedGeneration == generation
  }
}
