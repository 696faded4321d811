/** The lazily paged registration tree of the portal (portal/src/registrationTree.ts). */
module RegistrationTree {
  import opened Wrappers
  import opened Positions

  datatype Kind = Catalog | Schema | Table | Warehouse

  datatype Node = Node(kind: Kind, disabled: bool, loaded: bool, token: Option<string>, childIds: seq<string>)

  type Nodes = map<string, Node>

  datatype Page = Page(nodes: seq<(string, Node)>, token: Option<string>)

  function Rank(kind: Kind): nat
  {
    match kind
    case Catalog => 2
    case Schema => 1
    case Table => 0
    case Warehouse => 0
  }

  predicate IsLeaf(node: Node)
  {
    node.kind == Table || node.kind == Warehouse
  }

  /** JavaScript truthiness of an optional token: the empty string counts as none. */
  predicate Truthy(token: Option<string>)
  {
    token.Some? && token.value != ""
  }

  /** All pages below this node were loaded. */
  predicate Finished(node: Node)
  {
    node.loaded && !Truthy(node.token)
  }

  predicate ChildFits(nodes: Nodes, id: string, child: string)
    requires id in nodes
  {
    child in nodes && Rank(nodes[child].kind) < Rank(nodes[id].kind)
  }

  /**
   Children exist and are of a strictly deeper kind; no node has the empty id, which the code takes for "no parent".
   */
  predicate Layered(nodes: Nodes)
  {
    && "" !in nodes
    && forall id, i :: id in nodes && !IsLeaf(nodes[id]) && 0 <= i < |nodes[id].childIds| ==>
      ChildFits(nodes, id, nodes[id].childIds[i])
  }

  /** `loadedSelectableLeaves`: enabled leaves below a node, through enabled nodes, in display order. */
  function Leaves(nodes: Nodes, id: string): seq<string>
    requires Layered(nodes)
    decreases if id in nodes then Rank(nodes[id].kind) else 0, 0, 0
  {
    if id !in nodes || nodes[id].disabled then []
    else if IsLeaf(nodes[id]) then [id]
    else LeavesFrom(nodes, id, 0)
  }

  function LeavesFrom(nodes: Nodes, id: string, i: nat): seq<string>
    requires Layered(nodes) && id in nodes && !IsLeaf(nodes[id]) && i <= |nodes[id].childIds|
    decreases Rank(nodes[id].kind) - 1, 1, |nodes[id].childIds| - i
  {
    if i == |nodes[id].childIds| then []
    else
      assert ChildFits(nodes, id, nodes[id].childIds[i]);
      Leaves(nodes, nodes[id].childIds[i]) + LeavesFrom(nodes, id, i + 1)
  }

  /** The negation of `incomplete`: every enabled branch below was fully loaded. */
  predicate Settled(nodes: Nodes, id: string)
    requires Layered(nodes)
    decreases if id in nodes then Rank(nodes[id].kind) else 0
  {
    id in nodes && !nodes[id].disabled && !IsLeaf(nodes[id]) ==>
      && Finished(nodes[id])
      && forall i :: 0 <= i < |nodes[id].childIds| ==>
        assert ChildFits(nodes, id, nodes[id].childIds[i]);
        Settled(nodes, nodes[id].childIds[i])
  }

  /* ---- What leaves and settledness mean along paths ---- */

  /** A path from `path[0]` downwards through enabled nodes. */
  ghost predicate EnabledPath(nodes: Nodes, path: seq<string>)
  {
    && path != []
    && (forall k :: 0 <= k < |path| ==> path[k] in nodes && !nodes[path[k]].disabled)
    && (forall k :: 0 <= k < |path| - 1 ==> !IsLeaf(nodes[path[k]]) && path[k + 1] in nodes[path[k]].childIds)
  }

  lemma {:induction false} LeavesFromHas(nodes: Nodes, id: string, i: nat, c: nat)
    requires Layered(nodes) && id in nodes && !IsLeaf(nodes[id]) && i <= c < |nodes[id].childIds|
    ensures forall x :: x in Leaves(nodes, nodes[id].childIds[c]) ==> x in LeavesFrom(nodes, id, i)
    decreases c - i
  {
    if i < c {
      LeavesFromHas(nodes, id, i + 1, c);
    }
  }

  lemma {:induction false} LeavesFromComesFrom(nodes: Nodes, id: string, i: nat, x: string) returns (c: nat)
    requires Layered(nodes) && id in nodes && !IsLeaf(nodes[id]) && i <= |nodes[id].childIds|
      && x in LeavesFrom(nodes, id, i)
    ensures i <= c < |nodes[id].childIds| && x in Leaves(nodes, nodes[id].childIds[c])
    decreases |nodes[id].childIds| - i
  {
    if x in Leaves(nodes, nodes[id].childIds[i]) {
      c := i;
    } else {
      c := LeavesFromComesFrom(nodes, id, i + 1, x);
    }
  }

  /** The leaves of the children from `i` to before `c` are all here. */
  ghost predicate Gathers(nodes: Nodes, id: string, i: nat, c: nat, leaves: seq<string>)
    requires Layered(nodes) && id in nodes && c <= |nodes[id].childIds|
  {
    forall j, x :: i <= j < c && x in Leaves(nodes, nodes[id].childIds[j]) ==> x in leaves
  }

  lemma GathersMore(nodes: Nodes, id: string, i: nat, c: nat, leaves: seq<string>)
    requires Layered(nodes) && id in nodes && i < c <= |nodes[id].childIds|
    requires Gathers(nodes, id, i + 1, c, leaves)
    ensures Gathers(nodes, id, i, c, Leaves(nodes, nodes[id].childIds[i]) + leaves)
  {
  }

  lemma {:induction false} LeavesFromSplit(nodes: Nodes, id: string, i: nat, c: nat) returns (before: seq<string>)
    requires Layered(nodes) && id in nodes && !IsLeaf(nodes[id]) && i <= c <= |nodes[id].childIds|
    ensures LeavesFrom(nodes, id, i) == before + LeavesFrom(nodes, id, c) && Gathers(nodes, id, i, c, before)
    decreases c - i
  {
    if i == c {
      before := [];
    } else {
      var rest := LeavesFromSplit(nodes, id, i + 1, c);
      GathersMore(nodes, id, i, c, rest);
      before := Leaves(nodes, nodes[id].childIds[i]) + rest;
    }
  }

  lemma LeavesFromGathers(nodes: Nodes, id: string, i: nat)
    requires Layered(nodes) && id in nodes && !IsLeaf(nodes[id]) && i <= |nodes[id].childIds|
    ensures Gathers(nodes, id, i, |nodes[id].childIds|, LeavesFrom(nodes, id, i))
  {
    forall j, x | i <= j < |nodes[id].childIds| && x in Leaves(nodes, nodes[id].childIds[j])
      ensures x in LeavesFrom(nodes, id, i)
    {
      LeavesFromHas(nodes, id, i, j);
    }
  }

  /** Leaves come in display order: all of one child's after those of the earlier ones and before those of the later. */
  lemma LeavesInOrder(nodes: Nodes, id: string, c: nat)
    requires Layered(nodes) && id in nodes && !IsLeaf(nodes[id]) && !nodes[id].disabled && c < |nodes[id].childIds|
    ensures exists before, after ::
      && Leaves(nodes, id) == before + Leaves(nodes, nodes[id].childIds[c]) + after
      && Gathers(nodes, id, 0, c, before) && Gathers(nodes, id, c + 1, |nodes[id].childIds|, after)
  {
    var before := LeavesFromSplit(nodes, id, 0, c);
    var after := LeavesFrom(nodes, id, c + 1);
    LeavesFromGathers(nodes, id, c + 1);
    assert Leaves(nodes, id) == before + Leaves(nodes, nodes[id].childIds[c]) + after;
  }

  /** An enabled path that ends in a leaf ends in a selectable leaf... */
  lemma {:induction false} PathReachesLeaf(nodes: Nodes, path: seq<string>)
    requires Layered(nodes) && EnabledPath(nodes, path) && IsLeaf(nodes[path[|path| - 1]])
    ensures path[|path| - 1] in Leaves(nodes, path[0])
    decreases |path|
  {
    if |path| > 1 {
      var rest := path[1..];
      assert forall k :: 0 <= k < |rest| ==> rest[k] == path[k + 1];
      PathReachesLeaf(nodes, rest);
      var c :| 0 <= c < |nodes[path[0]].childIds| && nodes[path[0]].childIds[c] == path[1];
      LeavesFromHas(nodes, path[0], 0, c);
    }
  }

  /** ... and every selectable leaf is the end of one. */
  lemma {:induction false} LeafHasPath(nodes: Nodes, id: string, x: string) returns (path: seq<string>)
    requires Layered(nodes) && x in Leaves(nodes, id)
    ensures EnabledPath(nodes, path) && path[0] == id && path[|path| - 1] == x && IsLeaf(nodes[x])
    decreases Rank(nodes[id].kind)
  {
    path := [id];
    if !IsLeaf(nodes[id]) {
      var c := LeavesFromComesFrom(nodes, id, 0, x);
      assert ChildFits(nodes, id, nodes[id].childIds[c]);
      var below := LeafHasPath(nodes, nodes[id].childIds[c], x);
      path := [id] + below;
    }
  }

  /** Settled means that each enabled path leads to a leaf or to a branch without pages left... */
  lemma {:induction false} SettledPath(nodes: Nodes, path: seq<string>)
    requires Layered(nodes) && EnabledPath(nodes, path) && Settled(nodes, path[0])
    ensures IsLeaf(nodes[path[|path| - 1]]) || Finished(nodes[path[|path| - 1]])
    decreases |path|
  {
    if |path| > 1 {
      var rest := path[1..];
      assert forall k :: 0 <= k < |rest| ==> rest[k] == path[k + 1];
      var c :| 0 <= c < |nodes[path[0]].childIds| && nodes[path[0]].childIds[c] == path[1];
      SettledPath(nodes, rest);
    }
  }

  /** ... and otherwise there is an enabled path to an unfinished branch. */
  lemma {:induction false} UnsettledPath(nodes: Nodes, id: string) returns (path: seq<string>)
    requires Layered(nodes) && !Settled(nodes, id)
    ensures EnabledPath(nodes, path) && path[0] == id
    ensures !IsLeaf(nodes[path[|path| - 1]]) && !Finished(nodes[path[|path| - 1]])
    decreases Rank(nodes[id].kind)
  {
    path := [id];
    if Finished(nodes[id]) {
      var c :| 0 <= c < |nodes[id].childIds| && !Settled(nodes, nodes[id].childIds[c]);
      assert ChildFits(nodes, id, nodes[id].childIds[c]);
      var below := UnsettledPath(nodes, nodes[id].childIds[c]);
      path := [id] + below;
    }
  }

  /* ---- Growth: what loading pages may change ---- */

  /** A node stays, keeps kind, availability and children, and changes no more once all its pages are loaded. */
  predicate GrownAt(a: Nodes, b: Nodes, id: string)
  {
    id in a ==>
      && id in b && b[id].kind == a[id].kind && b[id].disabled == a[id].disabled
      && a[id].childIds <= b[id].childIds && (Finished(a[id]) ==> b[id] == a[id])
  }

  ghost predicate Grown(a: Nodes, b: Nodes)
  {
    forall id {:trigger GrownAt(a, b, id)} :: GrownAt(a, b, id)
  }

  lemma GrownTransitive(a: Nodes, b: Nodes, c: Nodes)
    requires Grown(a, b) && Grown(b, c)
    ensures Grown(a, c)
  {
    forall id
      ensures GrownAt(a, c, id)
    {
      assert GrownAt(a, b, id) && GrownAt(b, c, id);
    }
  }

  lemma {:induction false} SettledStays(a: Nodes, b: Nodes, id: string)
    requires Layered(a) && Layered(b) && Grown(a, b) && id in a && Settled(a, id)
    ensures Settled(b, id)
    decreases Rank(a[id].kind)
  {
    assert GrownAt(a, b, id);
    if !a[id].disabled && !IsLeaf(a[id]) {
      forall i | 0 <= i < |b[id].childIds|
        ensures Settled(b, b[id].childIds[i])
      {
        assert ChildFits(a, id, a[id].childIds[i]);
        SettledStays(a, b, a[id].childIds[i]);
      }
    }
  }

  /* ---- Appending a page ---- */

  function AddNodes(nodes: Nodes, page: Page, n: nat): Nodes
    requires n <= |page.nodes|
  {
    if n == 0 then nodes else
      var before := AddNodes(nodes, page, n - 1);
      if page.nodes[n - 1].0 in before then before else before[page.nodes[n - 1].0 := page.nodes[n - 1].1]
  }

  function AddIds(ids: seq<string>, page: Page, n: nat): seq<string>
    requires n <= |page.nodes|
  {
    if n == 0 then ids else
      var before := AddIds(ids, page, n - 1);
      if page.nodes[n - 1].0 in before then before else before + [page.nodes[n - 1].0]
  }

  function WithPage(nodes: Nodes, parent: string, page: Page): Nodes
    requires parent in nodes
  {
    var added := AddNodes(nodes, page, |page.nodes|);
    AddNodesKeep(nodes, page, |page.nodes|, parent);
    var childIds := AddIds(nodes[parent].childIds, page, |page.nodes|);
    added[parent := nodes[parent].(loaded := true, token := page.token, childIds := childIds)]
  }

  lemma {:induction false} AddNodesKeep(nodes: Nodes, page: Page, n: nat, id: string)
    requires n <= |page.nodes| && id in nodes
    ensures id in AddNodes(nodes, page, n) && AddNodes(nodes, page, n)[id] == nodes[id]
  {
    if n > 0 {
      AddNodesKeep(nodes, page, n - 1, id);
    }
  }

  /**
   Why no node may have the empty id: a page fetched for such a node goes to the roots (see `AppendTreePage`), so that
   the node keeps its children and stays unfinished whatever the pages say.
   */
  lemma {:induction false} EmptyIdIsNeverLoaded(nodes: Nodes, pages: seq<Page>)
    requires "" in nodes && !Finished(nodes[""])
    ensures var after := AddAll(nodes, pages); "" in after && after[""] == nodes[""] && !Finished(after[""])
    decreases |pages|
  {
    if pages != [] {
      var page := pages[|pages| - 1];
      EmptyIdIsNeverLoaded(nodes, pages[..|pages| - 1]);
      AddNodesKeep(AddAll(nodes, pages[..|pages| - 1]), page, |page.nodes|, "");
    }
  }

  /** The nodes after appending pages without a parent. */
  function AddAll(nodes: Nodes, pages: seq<Page>): Nodes
    decreases |pages|
  {
    if pages == [] then nodes
    else AddNodes(AddAll(nodes, pages[..|pages| - 1]), pages[|pages| - 1], |pages[|pages| - 1].nodes|)
  }

  /** Ids determine kinds, as the portal's `catalog:`, `schema:`, `table:` and `warehouse:` prefixes make them. */
  type KindOf = string -> Kind

  ghost predicate Kinds(nodes: Nodes, kindOf: KindOf)
  {
    forall id :: id in nodes ==> nodes[id].kind == kindOf(id)
  }

  /**
   Nodes of a page under `parent`: named, of the kind their id says, deeper than the parent, and without children yet.
   */
  ghost predicate GoodPage(page: Page, kindOf: KindOf, parent: string)
  {
    forall i :: 0 <= i < |page.nodes| ==>
      var (id, node) := page.nodes[i];
      id != "" && node.kind == kindOf(id) && Rank(kindOf(id)) < Rank(kindOf(parent)) && node.childIds == []
  }

  ghost predicate FitsPage(nodes: Nodes, page: Page, n: nat)
    requires n <= |page.nodes|
  {
    forall i :: 0 <= i < n ==> page.nodes[i].0 in nodes
  }

  ghost predicate Deeper(nodes: Nodes, ids: seq<string>, rank: nat)
  {
    forall i :: 0 <= i < |ids| ==> ids[i] in nodes && Rank(nodes[ids[i]].kind) < rank
  }

  lemma {:induction false} AddNodesKinds(nodes: Nodes, page: Page, n: nat, kindOf: KindOf, parent: string)
    requires n <= |page.nodes| && Kinds(nodes, kindOf) && GoodPage(page, kindOf, parent)
    ensures Kinds(AddNodes(nodes, page, n), kindOf) && FitsPage(AddNodes(nodes, page, n), page, n)
  {
    if n > 0 {
      AddNodesKinds(nodes, page, n - 1, kindOf, parent);
    }
  }

  lemma {:induction false} AddNodesLayered(nodes: Nodes, page: Page, n: nat, kindOf: KindOf, parent: string)
    requires n <= |page.nodes| && Layered(nodes) && GoodPage(page, kindOf, parent)
    ensures Layered(AddNodes(nodes, page, n))
  {
    if n > 0 {
      AddNodesLayered(nodes, page, n - 1, kindOf, parent);
    }
  }

  lemma {:induction false} AddIdsDeeper(
    nodes: Nodes, ids: seq<string>, page: Page, n: nat, kindOf: KindOf, parent: string)
    requires n <= |page.nodes| && Kinds(nodes, kindOf) && FitsPage(nodes, page, n) && GoodPage(page, kindOf, parent)
    requires Deeper(nodes, ids, Rank(kindOf(parent)))
    ensures Deeper(nodes, AddIds(ids, page, n), Rank(kindOf(parent)))
  {
    if n > 0 {
      AddIdsDeeper(nodes, ids, page, n - 1, kindOf, parent);
      var id := page.nodes[n - 1].0;
      assert id in nodes && Rank(nodes[id].kind) < Rank(kindOf(parent));
    }
  }

  lemma {:induction false} AddIdsAppend(ids: seq<string>, page: Page, n: nat)
    requires n <= |page.nodes|
    ensures ids <= AddIds(ids, page, n)
  {
    if n > 0 {
      AddIdsAppend(ids, page, n - 1);
    }
  }

  /** The ids of a page, in page order. */
  function PageIds(page: Page): (ids: seq<string>)
    ensures |ids| == |page.nodes|
  {
    seq(|page.nodes|, i requires 0 <= i < |page.nodes| => page.nodes[i].0)
  }

  /** Each id of a page becomes a child where it first occurs, unless it is one already; nothing else does. */
  lemma {:induction false} PageIdsAreAppended(
    before: seq<string>, listed: seq<string>, ids: seq<string>, page: Page, n: nat)
    requires n <= |page.nodes| && Appended(before, listed, ids)
    ensures Appended(before, listed + PageIds(page)[..n], AddIds(ids, page, n))
  {
    if n == 0 {
      assert listed + PageIds(page)[..0] == listed;
    } else {
      PageIdsAreAppended(before, listed, ids, page, n - 1);
      AppendedMore(before, listed + PageIds(page)[..n - 1], AddIds(ids, page, n - 1), page.nodes[n - 1].0);
      assert listed + PageIds(page)[..n] == (listed + PageIds(page)[..n - 1]) + [page.nodes[n - 1].0];
    }
  }

  /** So a page makes exactly its ids children of the parent, in the order in which they first occur, none twice. */
  lemma ChildrenAfterPage(nodes: Nodes, parent: string, page: Page)
    requires parent in nodes
    ensures var before, after := nodes[parent].childIds, WithPage(nodes, parent, page)[parent].childIds;
      && Appended(before, PageIds(page), after)
      && (forall x :: x in after <==> x in before || x in PageIds(page))
      && (forall i, j :: 0 <= i < j < |after| && |before| <= j ==> after[i] != after[j])
  {
    var before, after := nodes[parent].childIds, WithPage(nodes, parent, page)[parent].childIds;
    AppendedNothing(before);
    PageIdsAreAppended(before, [], before, page, |page.nodes|);
    assert [] + PageIds(page)[..|page.nodes|] == PageIds(page);
    AppendedHas(before, PageIds(page), after);
    forall i, j | 0 <= i < j < |after| && |before| <= j
      ensures after[i] != after[j]
    {
      AppendedApart(before, PageIds(page), after, i, j);
    }
  }

  /** One page keeps the tree layered and only grows it. */
  lemma PageGrows(nodes: Nodes, parent: string, page: Page, kindOf: KindOf)
    requires Layered(nodes) && Kinds(nodes, kindOf) && GoodPage(page, kindOf, parent)
    requires parent in nodes && !IsLeaf(nodes[parent])
    ensures var after := WithPage(nodes, parent, page);
      && Layered(after) && Kinds(after, kindOf)
      && (!Finished(nodes[parent]) ==> Grown(nodes, after))
  {
    var count := |page.nodes|;
    var added, after := AddNodes(nodes, page, count), WithPage(nodes, parent, page);
    AddNodesLayered(nodes, page, count, kindOf, parent);
    AddNodesKinds(nodes, page, count, kindOf, parent);
    forall id | id in nodes
      ensures id in added && added[id] == nodes[id]
    {
      AddNodesKeep(nodes, page, count, id);
    }
    AddIdsAppend(nodes[parent].childIds, page, count);
    AddIdsDeeper(added, nodes[parent].childIds, page, count, kindOf, parent);
    if !Finished(nodes[parent]) {
      forall id
        ensures GrownAt(nodes, after, id)
      {
      }
    }
  }

  /* ---- Check state ---- */

  datatype CheckState = Unchecked | Mixed | Checked

  ghost predicate AllSelected(leaves: seq<string>, selected: seq<string>)
  {
    forall i :: 0 <= i < |leaves| ==> leaves[i] in selected
  }

  function CountSelected(leaves: seq<string>, selected: seq<string>, n: nat): (count: nat)
    requires n <= |leaves|
    ensures count <= n
    ensures count == n <==> forall i :: 0 <= i < n ==> leaves[i] in selected
    ensures count == 0 <==> forall i :: 0 <= i < n ==> leaves[i] !in selected
  {
    if n == 0 then 0 else CountSelected(leaves, selected, n - 1) + if leaves[n - 1] in selected then 1 else 0
  }

  function TreeCheckState(nodes: Nodes, selected: seq<string>, id: string): (r: CheckState)
    requires Layered(nodes)
    ensures r == Checked <==> Leaves(nodes, id) != [] && AllSelected(Leaves(nodes, id), selected) && Settled(nodes, id)
    ensures r == Unchecked <==> forall i :: 0 <= i < |Leaves(nodes, id)| ==> Leaves(nodes, id)[i] !in selected
  {
    var leaves := Leaves(nodes, id);
    var count := CountSelected(leaves, selected, |leaves|);
    if |leaves| == 0 || count == 0 then Unchecked
    else if count == |leaves| && Settled(nodes, id) then Checked
    else Mixed
  }

  /* ---- Selecting a whole branch ---- */

  /** The members of a list in first-occurrence order, as a JavaScript Set lists them. */
  function Unique(ids: seq<string>, n: nat): (u: seq<string>)
    requires n <= |ids|
    ensures forall x :: x in u <==> x in ids[..n]
  {
    if n == 0 then [] else
      var before := Unique(ids, n - 1);
      assert ids[..n] == ids[..n - 1] + [ids[n - 1]];
      if ids[n - 1] in before then before else before + [ids[n - 1]]
  }

  lemma {:induction false} UniqueIsExact(ids: seq<string>, n: nat)
    requires n <= |ids|
    ensures Appended([], ids[..n], Unique(ids, n))
  {
    if n == 0 {
      AppendedNothing<string>([]);
    } else {
      UniqueIsExact(ids, n - 1);
      AppendedMore([], ids[..n - 1], Unique(ids, n - 1), ids[n - 1]);
      assert ids[..n] == ids[..n - 1] + [ids[n - 1]];
    }
  }

  /** The leaves not selected before. */
  function Additions(leaves: seq<string>, selected: seq<string>, n: nat): (more: seq<string>)
    requires n <= |leaves|
    ensures forall x :: x in more <==> x in leaves[..n] && x !in selected
  {
    if n == 0 then [] else
      assert leaves[..n] == leaves[..n - 1] + [leaves[n - 1]];
      Additions(leaves, selected, n - 1) + if leaves[n - 1] in selected then [] else [leaves[n - 1]]
  }

  ghost function Unselected(leaves: seq<string>, selected: seq<string>, n: nat): set<nat>
    requires n <= |leaves|
  {
    set i: nat | i < n && leaves[i] !in selected
  }

  lemma UnselectedNext(leaves: seq<string>, selected: seq<string>, n: nat)
    requires n < |leaves|
    ensures Unselected(leaves, selected, n + 1) ==
      Unselected(leaves, selected, n) + (if leaves[n] in selected then {} else {n})
    ensures n !in Unselected(leaves, selected, n)
  {
  }

  lemma UnselectedMore(leaves: seq<string>, selected: seq<string>, n: nat, kept: seq<string>)
    requires n < |leaves| && Picks(leaves, Unselected(leaves, selected, n), kept)
    ensures Picks(leaves, Unselected(leaves, selected, n + 1),
      kept + if leaves[n] in selected then [] else [leaves[n]])
  {
    var before := Unselected(leaves, selected, n);
    UnselectedNext(leaves, selected, n);
    if leaves[n] in selected {
      assert before + {} == before && kept + [] == kept;
    } else {
      PicksOneMore(leaves, before, kept, n);
    }
  }

  /** Exactly the leaves not selected before, each as often as it is listed, in their order. */
  lemma {:induction false} AdditionsAreExact(leaves: seq<string>, selected: seq<string>, n: nat)
    requires n <= |leaves|
    ensures Picks(leaves, Unselected(leaves, selected, n), Additions(leaves, selected, n))
  {
    if n == 0 {
      PicksNone(leaves);
      assert Unselected(leaves, selected, n) == {};
    } else {
      AdditionsAreExact(leaves, selected, n - 1);
      UnselectedMore(leaves, selected, n - 1, Additions(leaves, selected, n - 1));
    }
  }

  function BranchAdditions(nodes: Nodes, branch: string, selected: seq<string>): seq<string>
    requires Layered(nodes)
  {
    Additions(Leaves(nodes, branch), selected, |Leaves(nodes, branch)|)
  }

  lemma AdditionsCount(nodes: Nodes, branch: string, selected: seq<string>)
    requires Layered(nodes)
    ensures var leaves := Leaves(nodes, branch);
      |BranchAdditions(nodes, branch, selected)| == |Unselected(leaves, selected, |leaves|)|
  {
    var leaves, more := Leaves(nodes, branch), BranchAdditions(nodes, branch, selected);
    AdditionsAreExact(leaves, selected, |leaves|);
    PicksUnique(leaves, Unselected(leaves, selected, |leaves|), more, more);
  }

  /* ---- Trees in which every node has one parent ---- */

  ghost predicate OneParent(nodes: Nodes)
  {
    forall a, i, b, j {:trigger nodes[a].childIds[i], nodes[b].childIds[j]} ::
      (&& a in nodes && b in nodes && 0 <= i < |nodes[a].childIds| && 0 <= j < |nodes[b].childIds|
       && nodes[a].childIds[i] == nodes[b].childIds[j])
      ==> a == b && i == j
  }

  ghost predicate NoRepeats(ids: seq<string>)
  {
    forall i, j :: 0 <= i < j < |ids| ==> ids[i] != ids[j]
  }

  lemma NoRepeatsConcat(a: seq<string>, b: seq<string>)
    requires NoRepeats(a) && NoRepeats(b) && forall x :: x in b ==> x !in a
    ensures NoRepeats(a + b)
  {
    forall i, j | 0 <= i < j < |a + b|
      ensures (a + b)[i] != (a + b)[j]
    {
      if i < |a| <= j {
        assert a[i] in a && b[j - |a|] in b;
      }
    }
  }

  lemma {:induction false} RankFalls(nodes: Nodes, path: seq<string>, k: nat)
    requires Layered(nodes) && EnabledPath(nodes, path) && k < |path|
    ensures Rank(nodes[path[k]].kind) <= Rank(nodes[path[0]].kind)
  {
    if k > 0 {
      RankFalls(nodes, path, k - 1);
      var parent := path[k - 1];
      assert path[k] in nodes[parent].childIds;
      var i :| 0 <= i < |nodes[parent].childIds| && nodes[parent].childIds[i] == path[k];
      assert ChildFits(nodes, parent, nodes[parent].childIds[i]);
    }
  }

  /** Two paths to the same node agree, read backwards, as far as both go. */
  lemma {:induction false} PathsAgree(nodes: Nodes, a: seq<string>, b: seq<string>, k: nat)
    requires OneParent(nodes) && EnabledPath(nodes, a) && EnabledPath(nodes, b) && k < |a| <= |b|
    requires a[|a| - 1] == b[|b| - 1]
    ensures a[|a| - 1 - k] == b[|b| - 1 - k]
  {
    if k > 0 {
      PathsAgree(nodes, a, b, k - 1);
      var p, q := a[|a| - 1 - k], b[|b| - 1 - k];
      var i :| 0 <= i < |nodes[p].childIds| && nodes[p].childIds[i] == a[|a| - k];
      var j :| 0 <= j < |nodes[q].childIds| && nodes[q].childIds[j] == b[|b| - k];
    }
  }

  lemma ParentIs(nodes: Nodes, id: string, i: nat, parent: string, x: string)
    requires OneParent(nodes) && id in nodes && i < |nodes[id].childIds|
    requires parent in nodes && x in nodes[parent].childIds
    ensures x == nodes[id].childIds[i] ==> parent == id
  {
  }

  /** A path from one child of a node never leads into another child. */
  lemma ChildrenApart(nodes: Nodes, id: string, i: nat, j: nat, a: seq<string>, b: seq<string>)
    requires Layered(nodes) && OneParent(nodes) && id in nodes && !IsLeaf(nodes[id])
    requires i < |nodes[id].childIds| && j < |nodes[id].childIds| && i != j
    requires EnabledPath(nodes, a) && EnabledPath(nodes, b) && |a| <= |b|
    requires a[0] == nodes[id].childIds[i] && b[0] == nodes[id].childIds[j]
    ensures a[|a| - 1] != b[|b| - 1]
  {
    var m := |b| - |a|;
    assert ChildFits(nodes, id, nodes[id].childIds[j]);
    if m > 0 {
      RankFalls(nodes, b, m - 1);
      ParentIs(nodes, id, i, b[m - 1], b[m]);
    }
    if a[|a| - 1] == b[|b| - 1] {
      PathsAgree(nodes, a, b, |a| - 1);
    }
  }

  lemma ChildLeavesApart(nodes: Nodes, id: string, i: nat, j: nat, x: string)
    requires Layered(nodes) && OneParent(nodes) && id in nodes && !IsLeaf(nodes[id])
    requires i < |nodes[id].childIds| && j < |nodes[id].childIds| && i != j
    ensures !(x in Leaves(nodes, nodes[id].childIds[i]) && x in Leaves(nodes, nodes[id].childIds[j]))
  {
    if x in Leaves(nodes, nodes[id].childIds[i]) && x in Leaves(nodes, nodes[id].childIds[j]) {
      var a := LeafHasPath(nodes, nodes[id].childIds[i], x);
      var b := LeafHasPath(nodes, nodes[id].childIds[j], x);
      if |a| <= |b| {
        ChildrenApart(nodes, id, i, j, a, b);
      } else {
        ChildrenApart(nodes, id, j, i, b, a);
      }
    }
  }

  /** There no leaf is listed twice... */
  lemma {:induction false} LeavesApart(nodes: Nodes, id: string)
    requires Layered(nodes) && OneParent(nodes)
    ensures NoRepeats(Leaves(nodes, id))
    decreases if id in nodes then Rank(nodes[id].kind) else 0, 0, 0
  {
    if id in nodes && !nodes[id].disabled && !IsLeaf(nodes[id]) {
      LeavesFromApart(nodes, id, 0);
    }
  }

  lemma {:induction false} LeavesFromApart(nodes: Nodes, id: string, i: nat)
    requires Layered(nodes) && OneParent(nodes) && id in nodes && !IsLeaf(nodes[id]) && i <= |nodes[id].childIds|
    ensures NoRepeats(LeavesFrom(nodes, id, i))
    decreases Rank(nodes[id].kind) - 1, 1, |nodes[id].childIds| - i
  {
    if i < |nodes[id].childIds| {
      assert ChildFits(nodes, id, nodes[id].childIds[i]);
      LeavesApart(nodes, nodes[id].childIds[i]);
      LeavesFromApart(nodes, id, i + 1);
      forall x | x in LeavesFrom(nodes, id, i + 1)
        ensures x !in Leaves(nodes, nodes[id].childIds[i])
      {
        var c := LeavesFromComesFrom(nodes, id, i + 1, x);
        ChildLeavesApart(nodes, id, i, c, x);
      }
      NoRepeatsConcat(Leaves(nodes, nodes[id].childIds[i]), LeavesFrom(nodes, id, i + 1));
    }
  }

  ghost function NotSelected(leaves: seq<string>, selected: seq<string>): set<string>
  {
    set x | x in leaves && x !in selected
  }

  lemma NotSelectedMore(leaves: seq<string>, selected: seq<string>, leaf: string)
    requires leaf !in leaves
    ensures NotSelected(leaves + [leaf], selected) ==
      NotSelected(leaves, selected) + (if leaf in selected then {} else {leaf})
    ensures leaf !in NotSelected(leaves, selected)
  {
  }

  lemma {:induction false} UnselectedSize(leaves: seq<string>, selected: seq<string>, n: nat)
    requires NoRepeats(leaves) && n <= |leaves|
    ensures |Unselected(leaves, selected, n)| == |NotSelected(leaves[..n], selected)|
  {
    if n == 0 {
      assert Unselected(leaves, selected, n) == {} && NotSelected(leaves[..n], selected) == {};
    } else {
      UnselectedSize(leaves, selected, n - 1);
      NotSelectedMore(leaves[..n - 1], selected, leaves[n - 1]);
      UnselectedNext(leaves, selected, n - 1);
      assert leaves[..n] == leaves[..n - 1] + [leaves[n - 1]];
    }
  }

  /** ... so the limit counts the resources that a selection would add. */
  lemma AdditionsAreResources(nodes: Nodes, branch: string, selected: seq<string>)
    requires Layered(nodes) && OneParent(nodes)
    ensures |BranchAdditions(nodes, branch, selected)| == |NotSelected(Leaves(nodes, branch), selected)|
  {
    var leaves := Leaves(nodes, branch);
    AdditionsCount(nodes, branch, selected);
    LeavesApart(nodes, branch);
    UnselectedSize(leaves, selected, |leaves|);
    assert leaves[..|leaves|] == leaves;
  }

  /** Discovery: the answer to the n-th page request, by parent and token; `None` when the request throws. */
  type Loader = (string, Option<string>, nat) -> Option<Page>

  ghost predicate GoodLoader(load: Loader, kindOf: KindOf)
  {
    forall id, token, n :: load(id, token, n).Some? ==> GoodPage(load(id, token, n).value, kindOf, id)
  }

  class Tree {
    var roots: seq<string>
    var nodes: Nodes
    var selectedLeafIds: seq<string>

    constructor (roots: seq<string>, nodes: Nodes, selectedLeafIds: seq<string>)
      ensures this.roots == roots && this.nodes == nodes && this.selectedLeafIds == selectedLeafIds
    {
      this.roots, this.nodes, this.selectedLeafIds := roots, nodes, selectedLeafIds;
    }

    /** An unknown parent is ignored; no parent, or the empty id, stands for the roots. */
    method AppendTreePage(parent: string, page: Page)
      modifies this
      ensures selectedLeafIds == old(selectedLeafIds)
      ensures parent != "" && parent !in old(nodes) ==> nodes == old(nodes) && roots == old(roots)
      ensures parent != "" && parent in old(nodes) ==>
        nodes == WithPage(old(nodes), parent, page) && roots == old(roots)
      ensures parent == "" ==>
        nodes == AddNodes(old(nodes), page, |page.nodes|) && roots == AddIds(old(roots), page, |page.nodes|)
    {
      if parent != "" && parent !in nodes {
        return;
      }
      var ids := if parent == "" then roots else nodes[parent].childIds;
      ghost var before := ids;
      for i := 0 to |page.nodes|
        invariant nodes == AddNodes(old(nodes), page, i) && ids == AddIds(before, page, i)
        invariant roots == old(roots) && selectedLeafIds == old(selectedLeafIds)
      {
        var (id, node) := page.nodes[i];
        if id !in nodes {
          nodes := nodes[id := node];
        }
        if id !in ids {
          ids := ids + [id];
        }
      }
      if parent == "" {
        roots := ids;
      } else {
        AddNodesKeep(old(nodes), page, |page.nodes|, parent);
        nodes := nodes[parent := nodes[parent].(loaded := true, token := page.token, childIds := ids)];
      }
    }
  }
}
