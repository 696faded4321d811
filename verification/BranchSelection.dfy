/**
 Selecting a whole branch of the registration tree (exhaustBranchSelection in portal/src/registrationTree.ts). The
 specification is a flat walk: load the next page of the first unfinished branch in display order until none is
 left. The recursive code is proved to make exactly its requests and to stop exactly where it does.
 */
module BranchSelection {
  import opened Wrappers
  import opened Positions
  import opened RegistrationTree

  /** What one call is given; `kindOf` says which kind each id stands for. */
  datatype Job = Job(
    nodes: Nodes, branch: string, selected: seq<string>, remaining: int, maxPages: nat, load: Loader, kindOf: KindOf)

  ghost predicate GoodJob(job: Job)
  {
    Layered(job.nodes) && Kinds(job.nodes, job.kindOf) && GoodLoader(job.load, job.kindOf)
  }

  /* ---- The first unfinished branch ---- */

  predicate OpenBranch(nodes: Nodes, id: string)
  {
    id in nodes && !nodes[id].disabled && !IsLeaf(nodes[id])
  }

  /** The path to the first enabled branch below `id`, in display order, that has pages left. */
  ghost function Pending(nodes: Nodes, id: string): Option<seq<string>>
    requires Layered(nodes)
    decreases if id in nodes then Rank(nodes[id].kind) else 0, 0, 0
  {
    if !OpenBranch(nodes, id) then None
    else if !Finished(nodes[id]) then Some([id])
    else PendingFrom(nodes, id, 0)
  }

  ghost function PendingFrom(nodes: Nodes, id: string, i: nat): Option<seq<string>>
    requires Layered(nodes) && id in nodes && !IsLeaf(nodes[id]) && i <= |nodes[id].childIds|
    decreases Rank(nodes[id].kind) - 1, 1, |nodes[id].childIds| - i
  {
    if i == |nodes[id].childIds| then None
    else
      assert ChildFits(nodes, id, nodes[id].childIds[i]);
      match Pending(nodes, nodes[id].childIds[i])
      case Some(path) => Some([id] + path)
      case None => PendingFrom(nodes, id, i + 1)
  }

  ghost predicate SettledUpTo(nodes: Nodes, ids: seq<string>, n: nat)
    requires Layered(nodes) && n <= |ids|
  {
    forall j :: 0 <= j < n ==> Settled(nodes, ids[j])
  }

  /** Nothing is pending exactly when everything below is loaded. */
  lemma {:induction false} PendingIffUnsettled(nodes: Nodes, id: string)
    requires Layered(nodes)
    ensures Pending(nodes, id).Some? <==> !Settled(nodes, id)
    decreases if id in nodes then Rank(nodes[id].kind) else 0, 0, 0
  {
    if OpenBranch(nodes, id) && Finished(nodes[id]) {
      PendingFromIff(nodes, id, 0);
    }
  }

  lemma {:induction false} PendingFromIff(nodes: Nodes, id: string, i: nat)
    requires Layered(nodes) && id in nodes && !IsLeaf(nodes[id]) && i <= |nodes[id].childIds|
    ensures PendingFrom(nodes, id, i).None? <==>
      forall j :: i <= j < |nodes[id].childIds| ==> Settled(nodes, nodes[id].childIds[j])
    decreases Rank(nodes[id].kind) - 1, 1, |nodes[id].childIds| - i
  {
    if i < |nodes[id].childIds| {
      assert ChildFits(nodes, id, nodes[id].childIds[i]);
      PendingIffUnsettled(nodes, nodes[id].childIds[i]);
      PendingFromIff(nodes, id, i + 1);
    }
  }

  /** A path that leads to a branch with pages left. */
  ghost predicate LeadsToPages(nodes: Nodes, id: string, path: seq<string>)
  {
    && EnabledPath(nodes, path) && path[0] == id
    && !IsLeaf(nodes[path[|path| - 1]]) && !Finished(nodes[path[|path| - 1]])
  }

  lemma {:induction false} PendingLeads(nodes: Nodes, id: string)
    requires Layered(nodes) && Pending(nodes, id).Some?
    ensures LeadsToPages(nodes, id, Pending(nodes, id).value)
    decreases if id in nodes then Rank(nodes[id].kind) else 0, 0, 0
  {
    if Finished(nodes[id]) {
      PendingFromLeads(nodes, id, 0);
    }
  }

  lemma {:induction false} PendingFromLeads(nodes: Nodes, id: string, i: nat)
    requires Layered(nodes) && OpenBranch(nodes, id) && i <= |nodes[id].childIds| && PendingFrom(nodes, id, i).Some?
    ensures LeadsToPages(nodes, id, PendingFrom(nodes, id, i).value)
    decreases Rank(nodes[id].kind) - 1, 1, |nodes[id].childIds| - i
  {
    var child := nodes[id].childIds[i];
    assert ChildFits(nodes, id, child);
    if Pending(nodes, child).Some? {
      PendingLeads(nodes, child);
    } else {
      PendingFromLeads(nodes, id, i + 1);
    }
  }

  /* ---- The flat walk ---- */

  datatype Request = Request(parent: string, token: Option<string>)

  /** The page a branch asks for next. */
  function NextToken(node: Node): Option<string>
  {
    if node.loaded then node.token else None
  }

  /** How a request is remembered: the first page has a key of its own. */
  function TokenKey(token: Option<string>): string
  {
    if token.Some? then token.value else "<first>"
  }

  ghost function NextRequest(nodes: Nodes, branch: string): Option<Request>
    requires Layered(nodes)
  {
    match Pending(nodes, branch)
    case None => None
    case Some(path) =>
      PendingLeads(nodes, branch);
      var parent := path[|path| - 1];
      Some(Request(parent, NextToken(nodes[parent])))
  }

  lemma RequestIsOpen(nodes: Nodes, branch: string)
    requires Layered(nodes) && NextRequest(nodes, branch).Some?
    ensures var parent := NextRequest(nodes, branch).value.parent;
      OpenBranch(nodes, parent) && !Finished(nodes[parent])
  {
    PendingLeads(nodes, branch);
  }

  ghost predicate Sound(job: Job, nodes: Nodes)
  {
    Layered(nodes) && Kinds(nodes, job.kindOf)
  }

  ghost predicate Within(job: Job, nodes: Nodes)
    requires Layered(nodes)
  {
    |BranchAdditions(nodes, job.branch, job.selected)| <= job.remaining
  }

  /** The answer to request `k`, made when the draft was `nodes`. */
  ghost function ReplyTo(job: Job, nodes: Nodes, k: nat): Option<Page>
    requires Layered(nodes) && NextRequest(nodes, job.branch).Some?
  {
    job.load(NextRequest(nodes, job.branch).value.parent, NextRequest(nodes, job.branch).value.token, k)
  }

  /** Two drafts ask the same branch for the same page. */
  ghost predicate SameRequest(job: Job, a: Nodes, b: Nodes)
    requires Layered(a) && Layered(b)
  {
    var first, second := NextRequest(a, job.branch), NextRequest(b, job.branch);
    && first.Some? && second.Some? && first.value.parent == second.value.parent
    && TokenKey(first.value.token) == TokenKey(second.value.token)
  }

  ghost predicate AllSound(job: Job, drafts: seq<Nodes>)
  {
    forall k :: 0 <= k < |drafts| ==> Sound(job, drafts[k])
  }

  ghost predicate Repeats(job: Job, drafts: seq<Nodes>, n: nat)
    requires AllSound(job, drafts) && n < |drafts|
  {
    exists j :: 0 <= j < n && SameRequest(job, drafts[j], drafts[n])
  }

  /** Request `k` is made and answered: there is room, something is pending, and it was not asked before. */
  ghost predicate Proceeds(job: Job, drafts: seq<Nodes>, k: nat)
    requires AllSound(job, drafts) && k < |drafts|
  {
    && Within(job, drafts[k]) && NextRequest(drafts[k], job.branch).Some? && !Repeats(job, drafts, k)
    && ReplyTo(job, drafts[k], k).Some?
  }

  /** The branch and the page of it that request `k` brings. */
  ghost function Brought(job: Job, drafts: seq<Nodes>, k: nat): (string, Page)
    requires AllSound(job, drafts) && k < |drafts| && Proceeds(job, drafts, k)
  {
    (NextRequest(drafts[k], job.branch).value.parent, ReplyTo(job, drafts[k], k).value)
  }

  ghost predicate Follows(job: Job, drafts: seq<Nodes>, k: nat)
    requires AllSound(job, drafts) && k + 1 < |drafts|
  {
    && Proceeds(job, drafts, k)
    && var (parent, page) := Brought(job, drafts, k);
    && parent in drafts[k] && drafts[k + 1] == WithPage(drafts[k], parent, page)
  }

  /** The drafts of the flat walk so far: each one is the one before with the page that its request brought. */
  ghost predicate Walk(job: Job, drafts: seq<Nodes>)
  {
    && drafts != [] && drafts[0] == job.nodes && AllSound(job, drafts)
    && forall k: nat {:trigger Follows(job, drafts, k)} :: k < |drafts| - 1 ==> Follows(job, drafts, k)
  }

  datatype Stop = OverLimit(found: nat) | TooManyPages | RepeatedToken | LoadFailed

  /** The walk ends with the last of these drafts: complete (`None`), or for the reason given. */
  ghost predicate Stopped(job: Job, drafts: seq<Nodes>, stop: Option<Stop>)
  {
    && Walk(job, drafts) && |drafts| - 1 <= job.maxPages
    && var n := |drafts| - 1;
    && var request := NextRequest(drafts[n], job.branch);
    && match stop
       case None => Within(job, drafts[n]) && request.None?
       case Some(OverLimit(found)) =>
         found == |BranchAdditions(drafts[n], job.branch, job.selected)| && found > job.remaining
       case Some(TooManyPages) => Within(job, drafts[n]) && request.Some? && n == job.maxPages
       case Some(RepeatedToken) =>
         Within(job, drafts[n]) && request.Some? && n < job.maxPages && Repeats(job, drafts, n)
       case Some(LoadFailed) =>
         && Within(job, drafts[n]) && request.Some? && n < job.maxPages && !Repeats(job, drafts, n)
         && ReplyTo(job, drafts[n], n).None?
  }

  /** The first `n` drafts of two walks are the same. */
  ghost predicate AgreeUpTo(a: seq<Nodes>, b: seq<Nodes>, n: nat)
    requires n <= |a| && n <= |b|
  {
    forall j :: 0 <= j < n ==> a[j] == b[j]
  }

  /** The loader determines the walk. */
  lemma {:induction false} WalksAgree(job: Job, a: seq<Nodes>, b: seq<Nodes>, n: nat)
    requires Walk(job, a) && Walk(job, b) && n < |a| && n < |b|
    ensures AgreeUpTo(a, b, n + 1)
  {
    if n > 0 {
      WalksAgree(job, a, b, n - 1);
      assert a[n - 1] == b[n - 1] && Follows(job, a, n - 1) && Follows(job, b, n - 1);
    }
  }

  lemma StopsThere(job: Job, drafts: seq<Nodes>, stop: Option<Stop>)
    requires Stopped(job, drafts, stop)
    ensures |drafts| - 1 < job.maxPages ==> !Proceeds(job, drafts, |drafts| - 1)
  {
  }

  lemma WalkProceeds(job: Job, drafts: seq<Nodes>, k: nat)
    requires Walk(job, drafts) && k < |drafts| - 1
    ensures Proceeds(job, drafts, k)
  {
    assert Follows(job, drafts, k);
  }

  lemma NotPastStop(job: Job, a: seq<Nodes>, stop: Option<Stop>, b: seq<Nodes>)
    requires Stopped(job, a, stop) && Walk(job, b) && |b| - 1 <= job.maxPages
    ensures |b| <= |a|
  {
    if |a| < |b| {
      WalksAgree(job, a, b, |a| - 1);
      WalkProceeds(job, b, |a| - 1);
      StopsThere(job, a, stop);
    }
  }

  /** A call ends in one way only, after one number of pages. */
  lemma StopIsUnique(job: Job, a: seq<Nodes>, stop: Option<Stop>, b: seq<Nodes>, stop': Option<Stop>)
    requires Stopped(job, a, stop) && Stopped(job, b, stop')
    ensures a == b && stop == stop'
  {
    NotPastStop(job, a, stop, b);
    NotPastStop(job, b, stop', a);
    WalksAgree(job, a, b, |a| - 1);
  }

  /** The flat walk settles the branch within the page budget and the limit. */
  ghost predicate Settles(job: Job, drafts: seq<Nodes>)
  {
    && Walk(job, drafts) && |drafts| - 1 <= job.maxPages
    && Settled(drafts[|drafts| - 1], job.branch) && Within(job, drafts[|drafts| - 1])
  }

  /** So a call completes exactly when the flat walk settles the branch. */
  lemma CompletesIff(job: Job, drafts: seq<Nodes>, stop: Option<Stop>)
    requires Stopped(job, drafts, stop)
    ensures stop.None? <==> exists other :: Settles(job, other)
  {
    PendingIffUnsettled(drafts[|drafts| - 1], job.branch);
    if stop.None? {
      assert Settles(job, drafts);
    } else if other :| Settles(job, other) {
      PendingIffUnsettled(other[|other| - 1], job.branch);
      StopIsUnique(job, drafts, stop, other, None);
    }
  }

  /* ---- What the draft holds ---- */

  /** The branch and page of every load of a walk, in order. */
  ghost function Loads(job: Job, drafts: seq<Nodes>): (loads: seq<(string, Page)>)
    requires Walk(job, drafts)
    ensures |loads| == |drafts| - 1
  {
    seq(|drafts| - 1, k requires 0 <= k < |drafts| - 1 =>
      assert Follows(job, drafts, k);
      Brought(job, drafts, k))
  }

  /** Each draft is the one before with the page loaded next. */
  ghost predicate Replays(nodes: Nodes, loads: seq<(string, Page)>, drafts: seq<Nodes>)
  {
    && |drafts| == |loads| + 1 && drafts[0] == nodes
    && forall k {:trigger loads[k]} :: 0 <= k < |loads| ==>
      loads[k].0 in drafts[k] && drafts[k + 1] == WithPage(drafts[k], loads[k].0, loads[k].1)
  }

  lemma WalkReplays(job: Job, drafts: seq<Nodes>)
    requires Walk(job, drafts)
    ensures Replays(job.nodes, Loads(job, drafts), drafts)
  {
    var loads := Loads(job, drafts);
    forall k | 0 <= k < |loads|
      ensures loads[k].0 in drafts[k] && drafts[k + 1] == WithPage(drafts[k], loads[k].0, loads[k].1)
    {
      assert Follows(job, drafts, k);
    }
  }

  /** The pages of one branch among the first `n` loads, in order. */
  function PagesOf(loads: seq<(string, Page)>, n: nat, id: string): seq<Page>
    requires n <= |loads|
  {
    if n == 0 then [] else PagesOf(loads, n - 1, id) + OwnPage(loads[n - 1], id)
  }

  function OwnPage(brought: (string, Page), id: string): seq<Page>
  {
    if brought.0 == id then [brought.1] else []
  }

  /** A node after all of `pages`: its ids appended in order, and the last token. */
  function WithPages(node: Node, pages: seq<Page>): Node
    decreases |pages|
  {
    if pages == [] then node
    else
      var before, page := WithPages(node, pages[..|pages| - 1]), pages[|pages| - 1];
      before.(loaded := true, token := page.token, childIds := AddIds(before.childIds, page, |page.nodes|))
  }

  ghost predicate FirstEntry(page: Page, id: string, i: nat, node: Node)
    requires i < |page.nodes|
  {
    page.nodes[i] == (id, node) && forall j :: 0 <= j < i ==> page.nodes[j].0 != id
  }

  /** The node a page introduces under an id: its first entry with that id. */
  function Introduced(page: Page, id: string, n: nat): (node: Option<Node>)
    requires n <= |page.nodes|
    ensures node.None? <==> forall i :: 0 <= i < n ==> page.nodes[i].0 != id
    ensures node.Some? ==> exists i :: 0 <= i < n && FirstEntry(page, id, i, node.value)
  {
    if n == 0 then None
    else if Introduced(page, id, n - 1).Some? then Introduced(page, id, n - 1)
    else if page.nodes[n - 1].0 == id then
      assert FirstEntry(page, id, n - 1, page.nodes[n - 1].1);
      Some(page.nodes[n - 1].1)
    else None
  }

  /** The node as it first appeared: in the given tree, or in the first load that introduced it. */
  function Birth(nodes: Nodes, loads: seq<(string, Page)>, n: nat, id: string): Option<Node>
    requires n <= |loads|
  {
    if n == 0 then (if id in nodes then Some(nodes[id]) else None)
    else Born(Birth(nodes, loads, n - 1, id), loads[n - 1].1, id)
  }

  function Born(before: Option<Node>, page: Page, id: string): Option<Node>
  {
    if before.Some? then before else Introduced(page, id, |page.nodes|)
  }

  lemma {:induction false} AddNodesExact(nodes: Nodes, page: Page, n: nat, id: string)
    requires n <= |page.nodes|
    ensures var added := AddNodes(nodes, page, n);
      && (id in added <==> id in nodes || Introduced(page, id, n).Some?)
      && (id in added ==> added[id] == if id in nodes then nodes[id] else Introduced(page, id, n).value)
  {
    if n > 0 {
      AddNodesExact(nodes, page, n - 1, id);
    }
  }

  lemma WithPagesSnoc(node: Node, pages: seq<Page>, page: Page)
    ensures var before := WithPages(node, pages);
      WithPages(node, pages + [page])
      == before.(loaded := true, token := page.token, childIds := AddIds(before.childIds, page, |page.nodes|))
  {
    assert (pages + [page])[..|pages|] == pages;
  }

  /** `nodes` holds under `id` the node as it first appeared with its own pages, or nothing. */
  ghost predicate Holds(nodes: Nodes, id: string, birth: Option<Node>, pages: seq<Page>)
  {
    && (id in nodes <==> birth.Some?)
    && (id in nodes ==> nodes[id] == WithPages(birth.value, pages))
    && (id !in nodes ==> pages == [])
  }

  lemma PageHolds(nodes: Nodes, id: string, birth: Option<Node>, pages: seq<Page>, parent: string, page: Page)
    requires Holds(nodes, id, birth, pages) && parent in nodes
    ensures Holds(WithPage(nodes, parent, page), id, Born(birth, page, id), pages + OwnPage((parent, page), id))
  {
    AddNodesExact(nodes, page, |page.nodes|, id);
    if id == parent {
      WithPagesSnoc(birth.value, pages, page);
    } else {
      assert pages + OwnPage((parent, page), id) == pages;
    }
  }

  /**
   The draft holds exactly the given nodes and the nodes of the loaded pages, each as it first appeared with the ids
   of its own pages appended in order and the last of their tokens.
   */
  lemma {:induction false} DraftIsExact(
    nodes: Nodes, loads: seq<(string, Page)>, drafts: seq<Nodes>, n: nat, id: string)
    requires Replays(nodes, loads, drafts) && n <= |loads|
    ensures Holds(drafts[n], id, Birth(nodes, loads, n, id), PagesOf(loads, n, id))
  {
    if n > 0 {
      DraftIsExact(nodes, loads, drafts, n - 1, id);
      var (parent, page) := loads[n - 1];
      PageHolds(drafts[n - 1], id, Birth(nodes, loads, n - 1, id), PagesOf(loads, n - 1, id), parent, page);
    }
  }

  /** All ids that these pages list, page after page. */
  function ListedOn(pages: seq<Page>): seq<string>
    decreases |pages|
  {
    if pages == [] then [] else ListedOn(pages[..|pages| - 1]) + PageIds(pages[|pages| - 1])
  }

  lemma {:induction false} ListedOnHas(pages: seq<Page>, k: nat, x: string)
    requires k < |pages| && x in PageIds(pages[k])
    ensures x in ListedOn(pages)
    decreases |pages|
  {
    if k < |pages| - 1 {
      ListedOnHas(pages[..|pages| - 1], k, x);
    }
  }

  /** The children after these pages: the first ones, followed by the ids listed, each where it first occurs. */
  lemma {:induction false} ChildrenAfterPages(node: Node, pages: seq<Page>)
    ensures Appended(node.childIds, ListedOn(pages), WithPages(node, pages).childIds)
    decreases |pages|
  {
    if pages == [] {
      AppendedNothing(node.childIds);
    } else {
      var front, page := pages[..|pages| - 1], pages[|pages| - 1];
      ChildrenAfterPages(node, front);
      PageIdsAreAppended(node.childIds, ListedOn(front), WithPages(node, front).childIds, page, |page.nodes|);
      assert PageIds(page)[..|page.nodes|] == PageIds(page);
    }
  }

  /**
   On completion every enabled branch below was exhausted: unless it was finished from the start, its pages were
   loaded up to one that names no next. Its children are its first ones followed by exactly the ids those pages list,
   each where it first occurs.
   */
  lemma CompletedBranchIsExhausted(job: Job, drafts: seq<Nodes>, path: seq<string>)
    requires Stopped(job, drafts, None)
    requires EnabledPath(drafts[|drafts| - 1], path) && path[0] == job.branch
    requires !IsLeaf(drafts[|drafts| - 1][path[|path| - 1]])
    ensures var loads, n, id := Loads(job, drafts), |drafts| - 1, path[|path| - 1];
      var birth, pages := Birth(job.nodes, loads, n, id), PagesOf(loads, n, id);
      && birth.Some?
      && (pages == [] ==> drafts[n][id] == birth.value && Finished(birth.value))
      && (pages != [] ==> !Truthy(pages[|pages| - 1].token))
      && Appended(birth.value.childIds, ListedOn(pages), drafts[n][id].childIds)
      && forall x :: x in drafts[n][id].childIds <==> x in birth.value.childIds || x in ListedOn(pages)
  {
    var loads, n, id := Loads(job, drafts), |drafts| - 1, path[|path| - 1];
    var birth, pages := Birth(job.nodes, loads, n, id), PagesOf(loads, n, id);
    PendingIffUnsettled(drafts[n], job.branch);
    SettledPath(drafts[n], path);
    WalkReplays(job, drafts);
    DraftIsExact(job.nodes, loads, drafts, n, id);
    ChildrenAfterPages(birth.value, pages);
    AppendedHas(birth.value.childIds, ListedOn(pages), drafts[n][id].childIds);
  }

  lemma {:induction false} PagesOfHas(loads: seq<(string, Page)>, n: nat, k: nat, x: string)
    requires k < n <= |loads| && x in PageIds(loads[k].1)
    ensures x in ListedOn(PagesOf(loads, n, loads[k].0))
  {
    var pages := PagesOf(loads, n - 1, loads[k].0);
    if loads[n - 1].0 == loads[k].0 {
      assert (pages + [loads[n - 1].1])[..|pages|] == pages;
    } else {
      assert pages + [] == pages;
    }
    if k < n - 1 {
      PagesOfHas(loads, n - 1, k, x);
    }
  }

  /**
   So a completed selection misses nothing that discovery showed: every enabled table or warehouse that a loaded page
   lists under an enabled branch is among the leaves selected.
   */
  lemma ListedLeafIsSelected(job: Job, drafts: seq<Nodes>, path: seq<string>, k: nat, x: string)
    requires Stopped(job, drafts, None) && k < |drafts| - 1
    requires EnabledPath(drafts[|drafts| - 1], path) && path[0] == job.branch
    requires path[|path| - 1] == Loads(job, drafts)[k].0 && x in PageIds(Loads(job, drafts)[k].1)
    ensures var nodes := drafts[|drafts| - 1];
      x in nodes && (IsLeaf(nodes[x]) && !nodes[x].disabled ==> x in Leaves(nodes, job.branch))
  {
    var loads, nodes := Loads(job, drafts), drafts[|drafts| - 1];
    LoadedIsBranch(job, drafts, k);
    CompletedBranchIsExhausted(job, drafts, path);
    PagesOfHas(loads, |loads|, k, x);
    ChildLeafIsReached(nodes, path, x);
  }

  lemma ChildLeafIsReached(nodes: Nodes, path: seq<string>, x: string)
    requires Layered(nodes) && EnabledPath(nodes, path) && !IsLeaf(nodes[path[|path| - 1]])
    requires x in nodes[path[|path| - 1]].childIds
    ensures x in nodes && (IsLeaf(nodes[x]) && !nodes[x].disabled ==> x in Leaves(nodes, path[0]))
  {
    var parent := path[|path| - 1];
    var c :| 0 <= c < |nodes[parent].childIds| && nodes[parent].childIds[c] == x;
    assert ChildFits(nodes, parent, nodes[parent].childIds[c]);
    if IsLeaf(nodes[x]) && !nodes[x].disabled {
      PathReachesLeaf(nodes, path + [x]);
    }
  }

  /** Pages are loaded for branches, which are still there at the end. */
  lemma LoadedIsBranch(job: Job, drafts: seq<Nodes>, k: nat)
    requires Walk(job, drafts) && k < |drafts| - 1
    ensures var parent, nodes := Loads(job, drafts)[k].0, drafts[|drafts| - 1];
      parent in nodes && !IsLeaf(nodes[parent])
  {
    var parent := Loads(job, drafts)[k].0;
    assert Follows(job, drafts, k);
    RequestIsOpen(drafts[k], job.branch);
    StaysBranch(job, drafts, k, |drafts| - 1, parent);
  }

  lemma {:induction false} StaysBranch(job: Job, drafts: seq<Nodes>, k: nat, n: nat, id: string)
    requires Walk(job, drafts) && k <= n < |drafts| && id in drafts[k] && !IsLeaf(drafts[k][id])
    ensures id in drafts[n] && !IsLeaf(drafts[n][id])
    decreases n - k
  {
    if k < n {
      StaysBranch(job, drafts, k, n - 1, id);
      assert Follows(job, drafts, n - 1);
      var (parent, page) := Brought(job, drafts, n - 1);
      AddNodesKeep(drafts[n - 1], page, |page.nodes|, id);
    }
  }

  /* ---- Where the recursive walk stands ---- */

  /** `path` leads down through finished branches; at each one, the children before the turn taken are settled. */
  ghost predicate Front(nodes: Nodes, path: seq<string>, turns: seq<nat>)
    requires Layered(nodes)
  {
    && path != [] && |turns| == |path| - 1
    && forall k :: 0 <= k < |turns| ==> TurnTaken(nodes, path[k], turns[k], path[k + 1])
  }

  ghost predicate TurnTaken(nodes: Nodes, id: string, turn: nat, child: string)
    requires Layered(nodes)
  {
    && OpenBranch(nodes, id) && Finished(nodes[id])
    && turn < |nodes[id].childIds| && nodes[id].childIds[turn] == child
    && SettledUpTo(nodes, nodes[id].childIds, turn)
  }

  lemma {:induction false} PendingAtTurn(nodes: Nodes, id: string, i: nat, turn: nat)
    requires Layered(nodes) && OpenBranch(nodes, id) && i <= turn < |nodes[id].childIds|
    requires SettledUpTo(nodes, nodes[id].childIds, turn) && Pending(nodes, nodes[id].childIds[turn]).Some?
    ensures PendingFrom(nodes, id, i) == Some([id] + Pending(nodes, nodes[id].childIds[turn]).value)
    decreases turn - i
  {
    if i < turn {
      PendingIffUnsettled(nodes, nodes[id].childIds[i]);
      PendingAtTurn(nodes, id, i + 1, turn);
    }
  }

  lemma FrontRest(nodes: Nodes, path: seq<string>, turns: seq<nat>)
    requires Layered(nodes) && Front(nodes, path, turns) && |path| > 1
    ensures Front(nodes, path[1..], turns[1..])
  {
    forall k | 0 <= k < |turns| - 1
      ensures TurnTaken(nodes, path[1..][k], turns[1..][k], path[1..][k + 1])
    {
      assert TurnTaken(nodes, path[k + 1], turns[k + 1], path[k + 1 + 1]);
    }
  }

  /** What is pending at the end of the front is what is pending for the whole branch. */
  lemma {:induction false} FrontIsPending(nodes: Nodes, path: seq<string>, turns: seq<nat>)
    requires Layered(nodes) && Front(nodes, path, turns) && Pending(nodes, path[|path| - 1]).Some?
    ensures Pending(nodes, path[0]) == Some(path[..|path| - 1] + Pending(nodes, path[|path| - 1]).value)
    decreases |path|
  {
    var last := path[|path| - 1];
    if |path| == 1 {
      assert path[..0] + Pending(nodes, last).value == Pending(nodes, last).value;
    } else {
      assert TurnTaken(nodes, path[0], turns[0], path[1]);
      var rest, below := path[1..], Pending(nodes, last).value;
      FrontRest(nodes, path, turns);
      FrontIsPending(nodes, rest, turns[1..]);
      PendingAtTurn(nodes, path[0], 0, turns[0]);
      assert path[..|path| - 1] + below == [path[0]] + (rest[..|rest| - 1] + below);
    }
  }

  lemma FrontStays(a: Nodes, b: Nodes, path: seq<string>, turns: seq<nat>)
    requires Layered(a) && Layered(b) && Grown(a, b) && Front(a, path, turns)
    ensures Front(b, path, turns)
  {
    forall k | 0 <= k < |turns|
      ensures TurnTaken(b, path[k], turns[k], path[k + 1])
    {
      assert TurnTaken(a, path[k], turns[k], path[k + 1]);
      assert GrownAt(a, b, path[k]);
      StillSettled(a, b, path[k], turns[k]);
    }
  }

  lemma StillSettled(a: Nodes, b: Nodes, id: string, n: nat)
    requires Layered(a) && Layered(b) && Grown(a, b) && id in a && !IsLeaf(a[id]) && n <= |a[id].childIds|
    requires SettledUpTo(a, a[id].childIds, n)
    ensures SettledUpTo(b, a[id].childIds, n)
  {
    forall j | 0 <= j < n
      ensures Settled(b, a[id].childIds[j])
    {
      assert ChildFits(a, id, a[id].childIds[j]);
      SettledStays(a, b, a[id].childIds[j]);
    }
  }

  lemma FrontExtends(nodes: Nodes, path: seq<string>, turns: seq<nat>, turn: nat)
    requires Layered(nodes) && Front(nodes, path, turns)
    requires var id := path[|path| - 1];
      OpenBranch(nodes, id) && turn < |nodes[id].childIds| && TurnTaken(nodes, id, turn, nodes[id].childIds[turn])
    ensures Front(nodes, path + [nodes[path[|path| - 1]].childIds[turn]], turns + [turn])
  {
    var id := path[|path| - 1];
    var longer, more := path + [nodes[id].childIds[turn]], turns + [turn];
    forall k | 0 <= k < |more|
      ensures TurnTaken(nodes, longer[k], more[k], longer[k + 1])
    {
      if k < |turns| {
        assert TurnTaken(nodes, path[k], turns[k], path[k + 1]);
      }
    }
  }

  /** At an unfinished branch on the front, that branch's next page is the next request of the flat walk. */
  lemma FrontRequests(nodes: Nodes, path: seq<string>, turns: seq<nat>)
    requires Layered(nodes) && Front(nodes, path, turns)
    requires OpenBranch(nodes, path[|path| - 1]) && !Finished(nodes[path[|path| - 1]])
    ensures NextRequest(nodes, path[0]) == Some(Request(path[|path| - 1], NextToken(nodes[path[|path| - 1]])))
  {
    FrontIsPending(nodes, path, turns);
  }

  /* ---- The recursive code ---- */

  /** The requests that these drafts made, in order. */
  ghost predicate Asks(job: Job, drafts: seq<Nodes>, asked: seq<Request>)
    requires AllSound(job, drafts) && |asked| <= |drafts|
  {
    forall k {:trigger asked[k]} :: 0 <= k < |asked| ==> NextRequest(drafts[k], job.branch) == Some(asked[k])
  }

  /** The branches of these requests have been exhausted in `nodes`. */
  predicate Tidy(asked: seq<Request>, nodes: Nodes)
  {
    forall k :: 0 <= k < |asked| ==> asked[k].parent in nodes && Finished(nodes[asked[k].parent])
  }

  /** These requests all asked branch `id`, for the pages whose keys are in `seen`. */
  ghost predicate Remembers(asked: seq<Request>, id: string, seen: set<string>)
  {
    && (forall k :: 0 <= k < |asked| ==> asked[k].parent == id && TokenKey(asked[k].token) in seen)
    && (forall t :: t in seen ==> exists k :: 0 <= k < |asked| && TokenKey(asked[k].token) == t)
  }

  /** A request like one of these was made before. */
  ghost predicate AskedBefore(asked: seq<Request>, request: Request)
  {
    exists k :: 0 <= k < |asked|
      && asked[k].parent == request.parent && TokenKey(asked[k].token) == TokenKey(request.token)
  }

  lemma TidyStays(asked: seq<Request>, a: Nodes, b: Nodes)
    requires Tidy(asked, a) && Grown(a, b)
    ensures Tidy(asked, b)
  {
    forall k | 0 <= k < |asked|
      ensures asked[k].parent in b && Finished(b[asked[k].parent])
    {
      assert GrownAt(a, b, asked[k].parent);
    }
  }

  lemma RemembersMore(asked: seq<Request>, id: string, seen: set<string>, token: Option<string>)
    requires Remembers(asked, id, seen)
    ensures Remembers(asked + [Request(id, token)], id, seen + {TokenKey(token)})
  {
    var longer := asked + [Request(id, token)];
    forall t | t in seen + {TokenKey(token)}
      ensures exists k :: 0 <= k < |longer| && TokenKey(longer[k].token) == t
    {
      if t in seen {
        var k :| 0 <= k < |asked| && TokenKey(asked[k].token) == t;
        assert longer[k] == asked[k];
      } else {
        assert TokenKey(longer[|asked|].token) == t;
      }
    }
  }

  lemma TidyTogether(earlier: seq<Request>, own: seq<Request>, id: string, seen: set<string>, nodes: Nodes)
    requires Tidy(earlier, nodes) && Remembers(own, id, seen) && id in nodes && Finished(nodes[id])
    ensures Tidy(earlier + own, nodes)
  {
  }

  /** Branches asked earlier are exhausted, so for an unfinished one its own remembered keys decide. */
  lemma AskedIffSeen(
    earlier: seq<Request>, own: seq<Request>, id: string, seen: set<string>, nodes: Nodes, token: Option<string>)
    requires Tidy(earlier, nodes) && Remembers(own, id, seen) && id in nodes && !Finished(nodes[id])
    ensures AskedBefore(earlier + own, Request(id, token)) <==> TokenKey(token) in seen
  {
    var all := earlier + own;
    assert forall k :: 0 <= k < |own| ==> all[|earlier| + k] == own[k];
    if TokenKey(token) in seen {
      var k :| 0 <= k < |own| && TokenKey(own[k].token) == TokenKey(token);
      assert all[|earlier| + k].parent == id;
    }
  }

  lemma RepeatsIffAsked(job: Job, drafts: seq<Nodes>, asked: seq<Request>, request: Request)
    requires AllSound(job, drafts) && |asked| == |drafts| - 1 && Asks(job, drafts, asked)
    requires NextRequest(drafts[|asked|], job.branch) == Some(request)
    ensures Repeats(job, drafts, |asked|) <==> AskedBefore(asked, request)
  {
    var n := |asked|;
    if Repeats(job, drafts, n) {
      var j :| 0 <= j < n && SameRequest(job, drafts[j], drafts[n]);
      assert asked[j].parent == request.parent;
    }
    if AskedBefore(asked, request) {
      var k :| 0 <= k < n && asked[k].parent == request.parent && TokenKey(asked[k].token) == TokenKey(request.token);
      assert SameRequest(job, drafts[k], drafts[n]);
    }
  }

  /** Per branch, the remembered keys decide whether the next request repeats an earlier one. */
  lemma RepeatsIffSeen(
    job: Job, drafts: seq<Nodes>, earlier: seq<Request>, own: seq<Request>, id: string, seen: set<string>,
    token: Option<string>)
    requires AllSound(job, drafts) && |earlier + own| == |drafts| - 1 && Asks(job, drafts, earlier + own)
    requires NextRequest(drafts[|drafts| - 1], job.branch) == Some(Request(id, token))
    requires var nodes := drafts[|drafts| - 1];
      Tidy(earlier, nodes) && Remembers(own, id, seen) && id in nodes && !Finished(nodes[id])
    ensures Repeats(job, drafts, |drafts| - 1) <==> TokenKey(token) in seen
  {
    AskedIffSeen(earlier, own, id, seen, drafts[|drafts| - 1], token);
    RepeatsIffAsked(job, drafts, earlier + own, Request(id, token));
  }

  /** After one more page of branch `id`: its requests are remembered, the earlier branches are still exhausted. */
  lemma ReadOn(
    earlier: seq<Request>, own: seq<Request>, id: string, seen: set<string>, token: Option<string>, a: Nodes, b: Nodes)
    requires Tidy(earlier, a) && Grown(a, b) && Remembers(own, id, seen)
    ensures Tidy(earlier, b) && Remembers(own + [Request(id, token)], id, seen + {TokenKey(token)})
    ensures (earlier + own) + [Request(id, token)] == earlier + (own + [Request(id, token)])
  {
    TidyStays(earlier, a, b);
    RemembersMore(own, id, seen, token);
  }

  lemma AsksMore(job: Job, drafts: seq<Nodes>, asked: seq<Request>, longer: seq<Nodes>, request: Request)
    requires AllSound(job, drafts) && |asked| == |drafts| - 1 && Asks(job, drafts, asked)
    requires AllSound(job, longer) && drafts <= longer && |longer| == |drafts| + 1
    requires NextRequest(drafts[|asked|], job.branch) == Some(request)
    ensures Asks(job, longer, asked + [request])
  {
    var more := asked + [request];
    forall k | 0 <= k < |more|
      ensures NextRequest(longer[k], job.branch) == Some(more[k])
    {
      assert longer[k] == drafts[k];
      if k < |asked| {
        assert more[k] == asked[k];
      }
    }
  }

  /** A walk with room and a pending request stops when its page budget is spent or the request repeats. */
  lemma MustStop(job: Job, drafts: seq<Nodes>)
    requires Walk(job, drafts) && |drafts| - 1 <= job.maxPages && Within(job, drafts[|drafts| - 1])
    requires NextRequest(drafts[|drafts| - 1], job.branch).Some?
    ensures |drafts| - 1 == job.maxPages ==> Stopped(job, drafts, Some(TooManyPages))
    ensures |drafts| - 1 < job.maxPages && Repeats(job, drafts, |drafts| - 1) ==>
      Stopped(job, drafts, Some(RepeatedToken))
  {
  }

  /** An answered request extends the walk by one draft. */
  lemma WalkExtends(job: Job, drafts: seq<Nodes>, id: string, token: Option<string>, page: Page)
    requires GoodJob(job) && Walk(job, drafts) && Proceeds(job, drafts, |drafts| - 1)
    requires var nodes := drafts[|drafts| - 1];
      && NextRequest(nodes, job.branch) == Some(Request(id, token))
      && job.load(id, token, |drafts| - 1) == Some(page)
    ensures var nodes := drafts[|drafts| - 1];
      && OpenBranch(nodes, id) && Grown(nodes, WithPage(nodes, id, page))
      && Walk(job, drafts + [WithPage(nodes, id, page)])
  {
    var n, nodes := |drafts| - 1, drafts[|drafts| - 1];
    RequestIsOpen(nodes, job.branch);
    PageGrows(nodes, id, page, job.kindOf);
    var longer := drafts + [WithPage(nodes, id, page)];
    assert AllSound(job, longer);
    forall k: nat | k < |longer| - 1
      ensures Follows(job, longer, k)
    {
      if k < n {
        assert Follows(job, drafts, k);
      }
    }
  }

  class BranchWalk {
    const draft: Tree
    const branch: string
    const selected: seq<string>
    const remaining: int
    const maxPages: nat
    const load: Loader
    ghost const job: Job
    ghost var drafts: seq<Nodes>
    ghost var asked: seq<Request>
    var pages: nat

    constructor (draft: Tree, branch: string, remaining: int, maxPages: nat, load: Loader, ghost kindOf: KindOf)
      requires GoodJob(Job(draft.nodes, branch, draft.selectedLeafIds, remaining, maxPages, load, kindOf))
      ensures this.draft == draft && pages == 0 && Valid()
      ensures job == Job(draft.nodes, branch, draft.selectedLeafIds, remaining, maxPages, load, kindOf)
      ensures drafts == [draft.nodes] && asked == []
    {
      this.draft, this.branch, this.selected := draft, branch, draft.selectedLeafIds;
      this.remaining, this.maxPages, this.load := remaining, maxPages, load;
      job := Job(draft.nodes, branch, draft.selectedLeafIds, remaining, maxPages, load, kindOf);
      drafts, asked, pages := [draft.nodes], [], 0;
    }

    /** The draft is the last one of the flat walk, which has taken as many steps as pages were loaded. */
    ghost predicate Valid()
      reads this, draft
    {
      && GoodJob(job) && branch == job.branch && selected == job.selected && remaining == job.remaining
      && maxPages == job.maxPages && load == job.load
      && Walk(job, drafts) && pages == |drafts| - 1 <= maxPages && draft.nodes == drafts[pages]
      && |asked| == pages && Asks(job, drafts, asked)
    }

    method EnsureWithinLimit() returns (stop: Option<Stop>)
      requires Valid()
      ensures stop.None? <==> Within(job, draft.nodes)
      ensures stop.Some? ==> Stopped(job, drafts, stop)
    {
      var additions := BranchAdditions(draft.nodes, branch, selected);
      return if |additions| > remaining then Some(OverLimit(|additions|)) else None;
    }

    /** Fetch the next page of the walk, for the branch that is next. */
    method LoadPage(id: string, token: Option<string>) returns (stop: Option<Stop>)
      requires Valid() && Within(job, draft.nodes) && pages < maxPages && !Repeats(job, drafts, pages)
      requires NextRequest(draft.nodes, branch) == Some(Request(id, token))
      modifies this`pages, this`drafts, this`asked, draft
      ensures Valid() && Grown(old(draft.nodes), draft.nodes)
      ensures draft.selectedLeafIds == old(draft.selectedLeafIds) && draft.roots == old(draft.roots)
      ensures stop.Some? ==> Stopped(job, drafts, stop)
      ensures stop.None? ==> Within(job, draft.nodes) && asked == old(asked) + [Request(id, token)]
      ensures stop.None? ==> id in draft.nodes && draft.nodes[id].loaded
    {
      var page := load(id, token, pages);
      if page.None? {
        return Some(LoadFailed);
      }
      WalkExtends(job, drafts, id, token, page.value);
      pages := pages + 1;
      draft.AppendTreePage(id, page.value);
      AsksMore(job, drafts, asked, drafts + [draft.nodes], Request(id, token));
      drafts, asked := drafts + [draft.nodes], asked + [Request(id, token)];
      stop := EnsureWithinLimit();
    }

    /** Every branch asked so far has been exhausted. */
    ghost predicate TidyNow()
      reads this, draft
    {
      Valid() && Tidy(asked, draft.nodes)
    }

    /**
     In the middle of one branch: the branches asked earlier are exhausted, and its own requests are remembered.
     */
    ghost predicate Reading(id: string, earlier: seq<Request>, own: seq<Request>, seen: set<string>)
      reads this, draft
    {
      && Valid() && asked == earlier + own && id in draft.nodes && Within(job, draft.nodes)
      && Tidy(earlier, draft.nodes) && Remembers(own, id, seen)
    }

    /** One round of the page loop of an unfinished branch. */
    method LoadNext(
      id: string, token: Option<string>, ghost earlier: seq<Request>, ghost own: seq<Request>, seen: set<string>,
      ghost path: seq<string>, ghost turns: seq<nat>)
      returns (stop: Option<Stop>)
      requires Reading(id, earlier, own, seen) && OpenBranch(draft.nodes, id) && !Finished(draft.nodes[id])
      requires token == NextToken(draft.nodes[id])
      requires Front(draft.nodes, path, turns) && path[0] == branch && path[|path| - 1] == id
      modifies this`pages, this`drafts, this`asked, draft
      ensures Valid() && Grown(old(draft.nodes), draft.nodes)
      ensures draft.selectedLeafIds == old(draft.selectedLeafIds) && draft.roots == old(draft.roots)
      ensures stop.Some? ==> Stopped(job, drafts, stop)
      ensures stop.None? ==>
        Reading(id, earlier, own + [Request(id, token)], seen + {TokenKey(token)}) && draft.nodes[id].loaded
      ensures stop.None? ==> pages == old(pages) + 1
    {
      FrontRequests(draft.nodes, path, turns);
      RepeatsIffSeen(job, drafts, earlier, own, id, seen, token);
      MustStop(job, drafts);
      if pages >= maxPages {
        return Some(TooManyPages);
      }
      if TokenKey(token) in seen {
        return Some(RepeatedToken);
      }
      ghost var before := draft.nodes;
      stop := LoadPage(id, token);
      if stop.None? {
        ReadOn(earlier, own, id, seen, token, before, draft.nodes);
      }
    }

    /** Load all remaining pages of one branch, which stands at the end of the front. */
    method LoadPages(id: string, ghost path: seq<string>, ghost turns: seq<nat>) returns (stop: Option<Stop>)
      requires TidyNow() && Within(job, draft.nodes) && OpenBranch(draft.nodes, id)
      requires Front(draft.nodes, path, turns) && path[0] == branch && path[|path| - 1] == id
      modifies this`pages, this`drafts, this`asked, draft
      ensures Valid() && Grown(old(draft.nodes), draft.nodes)
      ensures draft.selectedLeafIds == old(draft.selectedLeafIds) && draft.roots == old(draft.roots)
      ensures stop.Some? ==> Stopped(job, drafts, stop)
      ensures stop.None? ==> TidyNow() && Within(job, draft.nodes) && id in draft.nodes && Finished(draft.nodes[id])
      ensures stop.None? ==> Front(draft.nodes, path, turns)
    {
      ghost var first, earlier, own := draft.nodes, asked, [];
      var token := if draft.nodes[id].loaded then draft.nodes[id].token else None;
      var seen: set<string> := {};
      var more := !draft.nodes[id].loaded || Truthy(token);
      while more
        invariant Reading(id, earlier, own, seen) && OpenBranch(draft.nodes, id) && Grown(first, draft.nodes)
        invariant draft.selectedLeafIds == old(draft.selectedLeafIds) && draft.roots == old(draft.roots)
        invariant Front(draft.nodes, path, turns)
        invariant more <==> !Finished(draft.nodes[id])
        invariant more ==> token == NextToken(draft.nodes[id])
        decreases maxPages - pages
      {
        ghost var before := draft.nodes;
        stop := LoadNext(id, token, earlier, own, seen, path, turns);
        GrownTransitive(first, before, draft.nodes);
        if stop.Some? {
          return;
        }
        assert GrownAt(before, draft.nodes, id);
        FrontStays(before, draft.nodes, path, turns);
        seen, own := seen + {TokenKey(token)}, own + [Request(id, token)];
        token := draft.nodes[id].token;
        more := Truthy(token);
      }
      TidyTogether(earlier, own, id, seen, draft.nodes);
      return None;
    }

    /** Settle everything below the node at the end of the front. */
    method Visit(id: string, ghost path: seq<string>, ghost turns: seq<nat>) returns (stop: Option<Stop>)
      requires TidyNow() && Within(job, draft.nodes)
      requires Front(draft.nodes, path, turns) && path[0] == branch && path[|path| - 1] == id
      modifies this`pages, this`drafts, this`asked, draft
      ensures Valid() && Grown(old(draft.nodes), draft.nodes)
      ensures draft.selectedLeafIds == old(draft.selectedLeafIds) && draft.roots == old(draft.roots)
      ensures stop.Some? ==> Stopped(job, drafts, stop)
      ensures stop.None? ==> TidyNow() && Within(job, draft.nodes) && Settled(draft.nodes, id)
      decreases Rank(job.kindOf(id)), 1
    {
      ghost var first := draft.nodes;
      if id !in draft.nodes || draft.nodes[id].disabled || IsLeaf(draft.nodes[id]) {
        return None;
      }
      stop := LoadPages(id, path, turns);
      if stop.Some? {
        return;
      }
      ghost var loaded := draft.nodes;
      assert GrownAt(first, loaded, id);
      stop := VisitChildren(id, path, turns);
      GrownTransitive(first, loaded, draft.nodes);
    }

    /** One child of a finished branch whose earlier children are settled. */
    method VisitChild(id: string, i: nat, ghost path: seq<string>, ghost turns: seq<nat>) returns (stop: Option<Stop>)
      requires TidyNow() && Within(job, draft.nodes)
      requires Front(draft.nodes, path, turns) && path[0] == branch && path[|path| - 1] == id
      requires OpenBranch(draft.nodes, id) && Finished(draft.nodes[id]) && i < |draft.nodes[id].childIds|
      requires SettledUpTo(draft.nodes, draft.nodes[id].childIds, i)
      modifies this`pages, this`drafts, this`asked, draft
      ensures Valid() && Grown(old(draft.nodes), draft.nodes)
      ensures draft.selectedLeafIds == old(draft.selectedLeafIds) && draft.roots == old(draft.roots)
      ensures stop.Some? ==> Stopped(job, drafts, stop)
      ensures stop.None? ==> TidyNow() && Within(job, draft.nodes)
      ensures stop.None? ==> id in draft.nodes && draft.nodes[id] == old(draft.nodes[id])
      ensures stop.None? ==> Front(draft.nodes, path, turns)
      ensures stop.None? ==> SettledUpTo(draft.nodes, draft.nodes[id].childIds, i + 1)
      decreases Rank(job.kindOf(id)), 0, 0
    {
      ghost var before := draft.nodes;
      var child := draft.nodes[id].childIds[i];
      ChildRank(before, job.kindOf, id, i);
      FrontExtends(before, path, turns, i);
      stop := Visit(child, path + [child], turns + [i]);
      if stop.None? {
        assert GrownAt(before, draft.nodes, id);
        FrontStays(before, draft.nodes, path, turns);
        StillSettled(before, draft.nodes, id, i);
      }
    }

    /** The children are visited in the order of a list that no longer grows: this branch has no page left. */
    method VisitChildren(id: string, ghost path: seq<string>, ghost turns: seq<nat>) returns (stop: Option<Stop>)
      requires TidyNow() && Within(job, draft.nodes)
      requires Front(draft.nodes, path, turns) && path[0] == branch && path[|path| - 1] == id
      requires OpenBranch(draft.nodes, id) && Finished(draft.nodes[id])
      modifies this`pages, this`drafts, this`asked, draft
      ensures Valid() && Grown(old(draft.nodes), draft.nodes)
      ensures draft.selectedLeafIds == old(draft.selectedLeafIds) && draft.roots == old(draft.roots)
      ensures stop.Some? ==> Stopped(job, drafts, stop)
      ensures stop.None? ==> TidyNow() && Within(job, draft.nodes) && Settled(draft.nodes, id)
      decreases Rank(job.kindOf(id)), 0, 1
    {
      ghost var first, node := draft.nodes, draft.nodes[id];
      var i := 0;
      while i < |draft.nodes[id].childIds|
        invariant TidyNow() && Within(job, draft.nodes) && Grown(first, draft.nodes)
        invariant draft.selectedLeafIds == old(draft.selectedLeafIds) && draft.roots == old(draft.roots)
        invariant id in draft.nodes && draft.nodes[id] == node && Front(draft.nodes, path, turns)
        invariant 0 <= i <= |node.childIds| && SettledUpTo(draft.nodes, node.childIds, i)
        decreases |node.childIds| - i
      {
        ghost var before := draft.nodes;
        stop := VisitChild(id, i, path, turns);
        GrownTransitive(first, before, draft.nodes);
        if stop.Some? {
          return;
        }
        i := i + 1;
      }
      return None;
    }
  }

  lemma ChildRank(nodes: Nodes, kindOf: KindOf, id: string, i: nat)
    requires Layered(nodes) && Kinds(nodes, kindOf) && id in nodes && !IsLeaf(nodes[id]) && i < |nodes[id].childIds|
    ensures Rank(kindOf(nodes[id].childIds[i])) < Rank(kindOf(id))
  {
    assert ChildFits(nodes, id, nodes[id].childIds[i]);
  }

  datatype ExhaustResult =
    | Complete(leafIds: seq<string>, pages: nat)
    | Incomplete(reason: Stop, pages: nat)

  /** The selection a complete branch ends with. */
  function Selection(nodes: Nodes, branch: string, selected: seq<string>): (r: seq<string>)
    requires Layered(nodes)
    ensures forall x :: x in r <==> x in selected || x in Leaves(nodes, branch)
  {
    var leaves := Leaves(nodes, branch);
    assert selected[..|selected|] == selected && leaves[..|leaves|] == leaves;
    Unique(selected, |selected|) + BranchAdditions(nodes, branch, selected)
  }

  /** The old selection without repetitions, followed by the leaves not selected before, in display order. */
  lemma SelectionIsExact(nodes: Nodes, branch: string, selected: seq<string>)
    requires Layered(nodes)
    ensures var leaves, r := Leaves(nodes, branch), Selection(nodes, branch, selected);
      exists kept, more :: r == kept + more && Appended([], selected, kept)
        && Picks(leaves, Unselected(leaves, selected, |leaves|), more)
  {
    var leaves := Leaves(nodes, branch);
    UniqueIsExact(selected, |selected|);
    AdditionsAreExact(leaves, selected, |leaves|);
    assert selected[..|selected|] == selected;
    var kept, more := Unique(selected, |selected|), BranchAdditions(nodes, branch, selected);
    assert Selection(nodes, branch, selected) == kept + more;
  }

  lemma CompleteIsSettled(job: Job, drafts: seq<Nodes>)
    requires Walk(job, drafts) && |drafts| - 1 <= job.maxPages && Within(job, drafts[|drafts| - 1])
    requires Settled(drafts[|drafts| - 1], job.branch)
    ensures Stopped(job, drafts, None)
  {
    PendingIffUnsettled(drafts[|drafts| - 1], job.branch);
  }

  /** A settled branch whose leaves were all added shows as checked. */
  lemma SelectedIsChecked(nodes: Nodes, branch: string, selected: seq<string>)
    requires Layered(nodes) && Settled(nodes, branch) && Leaves(nodes, branch) != []
    ensures TreeCheckState(nodes, Selection(nodes, branch, selected), branch) == Checked
  {
  }

  /**
   All or nothing, and exactly the flat walk: it loads what the walk loads and stops where and why the walk stops.
   The given tree is never changed. A complete result is a new tree with the walk's last draft, in which everything
   below the branch is loaded; the selection is the old one plus every eligible leaf, at most `remaining` of them new;
   and the branch shows as checked whenever it has a leaf.
   */
  method ExhaustBranchSelection(
    tree: Tree, branch: string, load: Loader, remaining: int, maxPages: nat, ghost kindOf: KindOf)
    returns (r: ExhaustResult, draft: Tree?, ghost drafts: seq<Nodes>)
    requires GoodJob(Job(tree.nodes, branch, tree.selectedLeafIds, remaining, maxPages, load, kindOf))
    ensures var job := Job(tree.nodes, branch, tree.selectedLeafIds, remaining, maxPages, load, kindOf);
      Stopped(job, drafts, if r.Complete? then None else Some(r.reason)) && r.pages == |drafts| - 1
    ensures r.Incomplete? <==> draft == null
    ensures r.Complete? ==>
      && fresh(draft) && draft.nodes == drafts[r.pages] && draft.roots == tree.roots
      && Layered(draft.nodes) && Settled(draft.nodes, branch) && Grown(tree.nodes, draft.nodes)
      && r.leafIds == Leaves(draft.nodes, branch)
      && draft.selectedLeafIds == Selection(draft.nodes, branch, tree.selectedLeafIds)
      && |BranchAdditions(draft.nodes, branch, tree.selectedLeafIds)| <= remaining
      && (r.leafIds != [] ==> TreeCheckState(draft.nodes, draft.selectedLeafIds, branch) == Checked)
  {
    draft := null;
    var copy := new Tree(tree.roots, tree.nodes, tree.selectedLeafIds);
    var walk := new BranchWalk(copy, branch, remaining, maxPages, load, kindOf);
    var stop := walk.EnsureWithinLimit();
    if stop.None? {
      stop := walk.Visit(branch, [branch], []);
    }
    drafts := walk.drafts;
    if stop.Some? {
      r := Incomplete(stop.value, walk.pages);
      return;
    }
    CompleteIsSettled(walk.job, drafts);
    if Leaves(copy.nodes, branch) != [] {
      SelectedIsChecked(copy.nodes, branch, tree.selectedLeafIds);
    }
    copy.selectedLeafIds := Selection(copy.nodes, branch, tree.selectedLeafIds);
    r, draft := Complete(Leaves(copy.nodes, branch), walk.pages), copy;
  }

  /* ---- The empty id ---- */

  /**
   The same code at the one id the walk is not specified for. A page for a node with the empty id is appended to the
   roots, so that the node itself never changes: once a page names no next one, the call reports completion, with
   nothing loaded below the node. The node is unread and childless, so nothing counts against the limit.
   */
  method ExhaustEmptyId(tree: Tree, load: Loader, maxPages: nat) returns (complete: bool, draft: Tree, pages: nat)
    requires OpenBranch(tree.nodes, "") && !tree.nodes[""].loaded && tree.nodes[""].childIds == []
    ensures "" in draft.nodes && draft.nodes[""] == tree.nodes[""] && !Finished(draft.nodes[""])
    ensures draft.selectedLeafIds == tree.selectedLeafIds && pages <= maxPages
    ensures complete ==> pages >= 1
    ensures maxPages >= 1 && load("", None, 0).Some? && !Truthy(load("", None, 0).value.token) ==> complete
  {
    draft := new Tree(tree.roots, tree.nodes, tree.selectedLeafIds);
    pages, complete := 0, false;
    var token: Option<string> := None;
    var seen: set<string> := {};
    while true
      invariant "" in draft.nodes && draft.nodes[""] == tree.nodes[""]
      invariant draft.selectedLeafIds == tree.selectedLeafIds && pages <= maxPages && !complete
      invariant pages == 0 ==> token.None? && seen == {}
      invariant pages >= 1 ==> load("", None, 0).Some? && Truthy(load("", None, 0).value.token)
      invariant fresh(draft)
      decreases maxPages - pages
    {
      if pages >= maxPages || TokenKey(token) in seen {
        return;
      }
      seen := seen + {TokenKey(token)};
      var page := load("", token, pages);
      if page.None? {
        return;
      }
      pages := pages + 1;
      AddNodesKeep(draft.nodes, page.value, |page.value.nodes|, "");
      draft.AppendTreePage("", page.value);
      token := page.value.token;
      if !Truthy(token) {
        complete := true;
        return;
      }
    }
  }
}
