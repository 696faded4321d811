/** Following continuation tokens over a server that answers each token the same way every time. */
module TokenChain {
  datatype Reply<T> = Page(items: seq<T>, next: string) | Failure

  const MAX_PAGES: nat := 100

  type Server<!T> = string -> Reply<T>

  /** The token of the i-th request; the first request carries none. */
  function Token<T>(serve: Server<T>, i: nat): string
  {
    if i == 0 then "" else
      match serve(Token(serve, i - 1))
      case Page(_, next) => next
      case Failure => ""
  }

  function ReplyAt<T>(serve: Server<T>, i: nat): Reply<T>
  {
    serve(Token(serve, i))
  }

  /** The walk goes on after page `i`. */
  predicate Continues<T>(serve: Server<T>, i: nat)
  {
    ReplyAt(serve, i).Page? && ReplyAt(serve, i).next != ""
  }

  /** The chain has an i-th page: every page before it names a next one. */
  ghost predicate Reaches<T(!new)>(serve: Server<T>, i: nat)
  {
    forall j :: 0 <= j < i ==> Continues(serve, j)
  }

  /** The chain ends with page `k`. */
  ghost predicate EndsAt<T(!new)>(serve: Server<T>, k: nat)
  {
    Reaches(serve, k) && ReplyAt(serve, k).Page? && ReplyAt(serve, k).next == ""
  }

  lemma ReachesPast<T(!new)>(serve: Server<T>, i: nat, k: nat)
    requires Reaches(serve, i) && k < i
    ensures Continues(serve, k)
  {
  }

  lemma {:induction false} SameTokenSameFuture<T>(serve: Server<T>, a: nat, b: nat, d: nat)
    requires Token(serve, a) == Token(serve, b)
    ensures Token(serve, a + d) == Token(serve, b + d)
  {
    if d > 0 {
      SameTokenSameFuture(serve, a, b, d - 1);
    }
  }

  /** After a repeated token every later page is one of the pages already seen. */
  lemma {:induction false} RepeatsEarlier<T>(serve: Server<T>, a: nat, b: nat, i: nat) returns (j: nat)
    requires a < b && Token(serve, a) == Token(serve, b)
    ensures j < b && j <= i && ReplyAt(serve, j) == ReplyAt(serve, i)
    decreases i
  {
    if i < b {
      j := i;
    } else {
      SameTokenSameFuture(serve, a, b, i - b);
      j := RepeatsEarlier(serve, a, b, a + (i - b));
    }
  }

  /** A chain that ends never repeats a token. */
  lemma EndedChainDistinct<T(!new)>(serve: Server<T>, k: nat, a: nat, b: nat)
    requires EndsAt(serve, k) && a < b <= k
    ensures Token(serve, a) != Token(serve, b)
  {
    if Token(serve, a) == Token(serve, b) {
      RepeatedNeverEnds(serve, a, b, k);
    }
  }

  /** A repeated token means that the chain never ends. */
  lemma RepeatedNeverEnds<T(!new)>(serve: Server<T>, a: nat, b: nat, k: nat)
    requires a < b && Token(serve, a) == Token(serve, b) && Reaches(serve, b)
    ensures !EndsAt(serve, k)
  {
    var j := RepeatsEarlier(serve, a, b, k);
    assert Continues(serve, j);
  }

  /** The continuation tokens of the first `k` pages are all different. */
  ghost predicate TokensDistinct<T(!new)>(serve: Server<T>, k: nat)
  {
    forall a: nat, b: nat {:trigger SameToken(serve, a, b)} :: 0 < a < b <= k ==> !SameToken(serve, a, b)
  }

  predicate SameToken<T>(serve: Server<T>, a: nat, b: nat)
  {
    Token(serve, a) == Token(serve, b)
  }

  /** Page `k` is asked for with a token that an earlier page was asked for with. */
  ghost predicate RepeatedAt<T(!new)>(serve: Server<T>, k: nat)
  {
    exists j: nat {:trigger SameToken(serve, j, k)} :: 0 < j < k && SameToken(serve, j, k)
  }

  /** What a walk remembers after `k` pages: the tokens they named. */
  ghost predicate Remembers<T(!new)>(serve: Server<T>, k: nat, seen: set<string>)
  {
    forall t {:trigger Named(serve, k, t)} :: t in seen <==> Named(serve, k, t)
  }

  ghost predicate Named<T(!new)>(serve: Server<T>, k: nat, token: string)
  {
    exists j :: 0 < j <= k && Token(serve, j) == token
  }

  lemma NamedNext<T(!new)>(serve: Server<T>, k: nat, token: string)
    ensures Named(serve, k + 1, token) <==> Named(serve, k, token) || token == Token(serve, k + 1)
  {
    if Named(serve, k, token) {
      var j :| 0 < j <= k && Token(serve, j) == token;
      assert 0 < j <= k + 1;
    }
    if token == Token(serve, k + 1) {
      assert 0 < k + 1;
    }
  }

  lemma NamedIsRepeated<T(!new)>(serve: Server<T>, k: nat)
    ensures Named(serve, k, Token(serve, k + 1)) <==> RepeatedAt(serve, k + 1)
  {
    if Named(serve, k, Token(serve, k + 1)) {
      var j: nat :| 0 < j <= k && Token(serve, j) == Token(serve, k + 1);
      assert SameToken(serve, j, k + 1);
    }
    if RepeatedAt(serve, k + 1) {
      var j: nat :| 0 < j < k + 1 && SameToken(serve, j, k + 1);
      assert Token(serve, j) == Token(serve, k + 1);
    }
  }

  /** One more token: remembered already exactly when it repeats an earlier one. */
  lemma RememberToken<T(!new)>(serve: Server<T>, k: nat, seen: set<string>)
    requires Remembers(serve, k, seen) && TokensDistinct(serve, k)
    ensures Token(serve, k + 1) in seen <==> RepeatedAt(serve, k + 1)
    ensures Token(serve, k + 1) !in seen ==> TokensDistinct(serve, k + 1)
    ensures Remembers(serve, k + 1, seen + {Token(serve, k + 1)})
  {
    var token := Token(serve, k + 1);
    NamedIsRepeated(serve, k);
    assert token in seen <==> Named(serve, k, token);
    forall t
      ensures t in seen + {token} <==> Named(serve, k + 1, t)
    {
      NamedNext(serve, k, t);
    }
  }

  /** Tokens up to an ended or failed page never repeat: a repetition would have gone on for ever. */
  lemma LastPageDistinct<T(!new)>(serve: Server<T>, k: nat)
    requires Reaches(serve, k) && !Continues(serve, k)
    ensures TokensDistinct(serve, k)
  {
    forall a: nat, b: nat | 0 < a < b <= k
      ensures !SameToken(serve, a, b)
    {
      if SameToken(serve, a, b) {
        var j := RepeatsEarlier(serve, a, b, k);
        ReachesPast(serve, k, j);
      }
    }
  }

  /** The first repetition at or before one. */
  lemma {:induction false} FirstRepetition<T(!new)>(serve: Server<T>, b: nat) returns (k: nat)
    requires RepeatedAt(serve, b)
    ensures 0 < k <= b && RepeatedAt(serve, k) && TokensDistinct(serve, k - 1)
  {
    if TokensDistinct(serve, b - 1) {
      k := b;
    } else {
      var a: nat, c: nat :| 0 < a < c <= b - 1 && SameToken(serve, a, c);
      assert RepeatedAt(serve, c);
      k := FirstRepetition(serve, c);
    }
  }
}

/** Looking a table up among the summaries of its schema (backend/validation.go). */
module TableSummary {
  import opened Wrappers
  import opened TokenChain

  datatype Summary = Summary(fullName: string, tableType: string)

  datatype Outcome = Found(summary: Summary) | NotFound | RequestFailed | RepeatedToken | TooManyPages

  predicate Lists(items: seq<Summary>, name: string)
  {
    exists i :: 0 <= i < |items| && items[i].fullName == name
  }

  /** Page `i` was answered and does not list the table. */
  predicate Lacks(serve: Server<Summary>, name: string, i: nat)
  {
    ReplyAt(serve, i).Page? && !Lists(ReplyAt(serve, i).items, name)
  }

  ghost predicate LackUpTo(serve: Server<Summary>, name: string, n: nat)
  {
    forall i :: 0 <= i < n ==> Lacks(serve, name, i)
  }

  lemma LacksAt(serve: Server<Summary>, name: string, n: nat, i: nat)
    requires LackUpTo(serve, name, n) && i < n
    ensures Lacks(serve, name, i)
  {
  }

  ghost predicate FirstMatch(items: seq<Summary>, name: string, summary: Summary)
  {
    exists i :: 0 <= i < |items| && items[i] == summary && summary.fullName == name && !Lists(items[..i], name)
  }

  method FindIn(items: seq<Summary>, name: string) returns (found: Option<Summary>)
    ensures found.None? <==> !Lists(items, name)
    ensures found.Some? ==> FirstMatch(items, name, found.value)
  {
    for i := 0 to |items|
      invariant !Lists(items[..i], name)
    {
      if items[i].fullName == name {
        return Some(items[i]);
      }
      assert items[..i + 1] == items[..i] + [items[i]];
    }
    assert items[..|items|] == items;
    return None;
  }

  /** Why the walk stopped at page `k`. */
  ghost predicate Stopped(serve: Server<Summary>, name: string, outcome: Outcome, k: nat)
  {
    && Reaches(serve, k) && LackUpTo(serve, name, k) && k <= MAX_PAGES
    && match outcome
       case Found(summary) =>
         && k < MAX_PAGES && TokensDistinct(serve, k) && ReplyAt(serve, k).Page?
         && FirstMatch(ReplyAt(serve, k).items, name, summary)
       case NotFound =>
         k < MAX_PAGES && TokensDistinct(serve, k) && Lacks(serve, name, k) && ReplyAt(serve, k).next == ""
       case RequestFailed => k < MAX_PAGES && TokensDistinct(serve, k) && ReplyAt(serve, k).Failure?
       case RepeatedToken => 0 < k && TokensDistinct(serve, k - 1) && RepeatedAt(serve, k)
       case TooManyPages => k == MAX_PAGES && TokensDistinct(serve, k)
  }

  ghost predicate Explained(serve: Server<Summary>, name: string, outcome: Outcome)
  {
    exists k: nat :: Stopped(serve, name, outcome, k)
  }

  method GetTableSummary(serve: Server<Summary>, name: string) returns (outcome: Outcome)
    ensures Explained(serve, name, outcome)
  {
    var seen: set<string> := {};
    var token := "";
    for page := 0 to MAX_PAGES
      invariant token == Token(serve, page) && Reaches(serve, page) && LackUpTo(serve, name, page)
      invariant Remembers(serve, page, seen) && TokensDistinct(serve, page)
    {
      var reply := serve(token);
      if reply.Failure? {
        assert Stopped(serve, name, RequestFailed, page);
        return RequestFailed;
      }
      var found := FindIn(reply.items, name);
      if found.Some? {
        assert Stopped(serve, name, Found(found.value), page);
        return Found(found.value);
      }
      if reply.next == "" {
        assert Stopped(serve, name, NotFound, page);
        return NotFound;
      }
      assert Continues(serve, page) && Token(serve, page + 1) == reply.next;
      RememberToken(serve, page, seen);
      if reply.next in seen {
        assert Stopped(serve, name, RepeatedToken, page + 1);
        return RepeatedToken;
      }
      seen := seen + {reply.next};
      token := reply.next;
    }
    assert Stopped(serve, name, TooManyPages, MAX_PAGES);
    return TooManyPages;
  }

  /** Nothing stops a walk before the page at which it stops. */
  lemma NoEarlierStop(serve: Server<Summary>, name: string, a: Outcome, m: nat, b: Outcome, n: nat)
    requires Stopped(serve, name, a, m) && Stopped(serve, name, b, n)
    ensures m >= n
  {
    if m < n {
      ReachesPast(serve, n, m);
      LacksAt(serve, name, n, m);
    }
  }

  /** The server determines the outcome, and the page at which the walk stops. */
  lemma OutcomeIsUnique(serve: Server<Summary>, name: string, a: Outcome, m: nat, b: Outcome, n: nat)
    requires Stopped(serve, name, a, m) && Stopped(serve, name, b, n)
    ensures a == b && m == n
  {
    NoEarlierStop(serve, name, a, m, b, n);
    NoEarlierStop(serve, name, b, n, a, m);
  }

  /** The name is on a page the walk could reach within its limit. */
  ghost predicate Listed(serve: Server<Summary>, name: string)
  {
    exists i :: 0 <= i < MAX_PAGES && Reaches(serve, i) && ReplyAt(serve, i).Page?
      && Lists(ReplyAt(serve, i).items, name)
  }

  /** On a repeated token the name is on no page of the chain at all. */
  lemma RepeatedMeansNowhere(serve: Server<Summary>, name: string, i: nat)
    requires Explained(serve, name, RepeatedToken)
    ensures Lacks(serve, name, i) && Continues(serve, i)
  {
    var k: nat :| Stopped(serve, name, RepeatedToken, k);
    var j: nat :| 0 < j < k && SameToken(serve, j, k);
    var earlier := RepeatsEarlier(serve, j, k, i);
    assert Lacks(serve, name, earlier) && Continues(serve, earlier);
  }

  /** The walk finds the table exactly when one of the first hundred pages of the chain lists it. */
  lemma FoundIffListed(serve: Server<Summary>, name: string, outcome: Outcome)
    requires Explained(serve, name, outcome)
    ensures outcome.Found? <==> Listed(serve, name)
  {
    var k: nat :| Stopped(serve, name, outcome, k);
    if outcome.Found? {
      assert Lists(ReplyAt(serve, k).items, name);
    } else if Listed(serve, name) {
      var i :| 0 <= i < MAX_PAGES && Reaches(serve, i) && ReplyAt(serve, i).Page?
        && Lists(ReplyAt(serve, i).items, name);
      if outcome.RepeatedToken? {
        RepeatedMeansNowhere(serve, name, i);
      } else if k < i {
        ReachesPast(serve, i, k);
      } else if i < k {
        LacksAt(serve, name, k, i);
      }
    }
  }

  /** It reports "not found" exactly when the chain ends within a hundred pages and none of them lists the table. */
  lemma NotFoundIffEnded(serve: Server<Summary>, name: string, outcome: Outcome)
    requires Explained(serve, name, outcome)
    ensures outcome.NotFound? <==> exists n :: 0 <= n < MAX_PAGES && EndsAt(serve, n) && LackUpTo(serve, name, n + 1)
  {
    var k: nat :| Stopped(serve, name, outcome, k);
    if outcome.NotFound? {
      assert EndsAt(serve, k) && LackUpTo(serve, name, k + 1);
    } else if n :| 0 <= n < MAX_PAGES && EndsAt(serve, n) && LackUpTo(serve, name, n + 1) {
      if outcome.RepeatedToken? {
        RepeatedMeansNowhere(serve, name, n);
      } else if n < k {
        ReachesPast(serve, k, n);
      } else {
        LacksAt(serve, name, n + 1, k);
      }
    }
  }

  /** A request of the walk fails exactly when one within its reach does, with the table on no page before it. */
  lemma FailedIff(serve: Server<Summary>, name: string, outcome: Outcome)
    requires Explained(serve, name, outcome)
    ensures outcome.RequestFailed? <==>
      exists n :: 0 <= n < MAX_PAGES && Reaches(serve, n) && LackUpTo(serve, name, n) && ReplyAt(serve, n).Failure?
  {
    var k: nat :| Stopped(serve, name, outcome, k);
    if n :| 0 <= n < MAX_PAGES && Reaches(serve, n) && LackUpTo(serve, name, n) && ReplyAt(serve, n).Failure? {
      LastPageDistinct(serve, n);
      OutcomeIsUnique(serve, name, outcome, k, RequestFailed, n);
    }
  }

  /**
   The repeated-token error occurs exactly when a token repeats within a hundred pages, none of which lists the table.
   */
  lemma RepeatedIff(serve: Server<Summary>, name: string, outcome: Outcome)
    requires Explained(serve, name, outcome)
    ensures outcome.RepeatedToken? <==>
      exists b :: 0 <= b <= MAX_PAGES && Reaches(serve, b) && LackUpTo(serve, name, b) && RepeatedAt(serve, b)
  {
    var k: nat :| Stopped(serve, name, outcome, k);
    if b :| 0 <= b <= MAX_PAGES && Reaches(serve, b) && LackUpTo(serve, name, b) && RepeatedAt(serve, b) {
      var first := FirstRepetition(serve, b);
      assert Stopped(serve, name, RepeatedToken, first);
      OutcomeIsUnique(serve, name, outcome, k, RepeatedToken, first);
    }
  }

  /** The page limit is the error exactly when a hundred pages with different tokens go on without the table. */
  lemma TooManyIff(serve: Server<Summary>, name: string, outcome: Outcome)
    requires Explained(serve, name, outcome)
    ensures outcome.TooManyPages? <==>
      Reaches(serve, MAX_PAGES) && LackUpTo(serve, name, MAX_PAGES) && TokensDistinct(serve, MAX_PAGES)
  {
    var k: nat :| Stopped(serve, name, outcome, k);
    if Stopped(serve, name, TooManyPages, MAX_PAGES) {
      OutcomeIsUnique(serve, name, outcome, k, TooManyPages, MAX_PAGES);
    }
  }
}

/** The portal's complete list read (portal/src/api.ts). */
module ListAll {
  import opened TokenChain
  import opened Sorting

  datatype Item = Item(name: string, rest: string)

  datatype Outcome = Listed(items: seq<Item>) | ContextChanged | RequestFailed | RepeatedToken | TooManyPages

  /** The locale's order of names, as an order of items. */
  function ByName(before: Order<string>): Order<Item>
  {
    (a: Item, b: Item) => before(a.name, b.name)
  }

  lemma ByNameTotal(before: Order<string>)
    requires TotalPreorder(before)
    ensures TotalPreorder(ByName(before))
  {
    var order := ByName(before);
    forall a: Item, b: Item
      ensures order(a, b) || order(b, a)
    {
      assert before(a.name, b.name) || before(b.name, a.name);
    }
    forall a: Item, b: Item, c: Item | order(a, b) && order(b, c)
      ensures order(a, c)
    {
      assert before(a.name, b.name) && before(b.name, c.name);
    }
  }

  /** The items of the first `n` pages. */
  function ItemsUpTo(serve: Server<Item>, n: nat): seq<Item>
  {
    if n == 0 then [] else
      ItemsUpTo(serve, n - 1) + match ReplyAt(serve, n - 1) case Page(items, _) => items case Failure => []
  }

  /** What each answer depends on: the generation it was answered for and the token. */
  type Servers = nat -> Server<Item>

  /**
   A session: the context generation at each instant (`at(0)` when the read begins, `at(2i + 1)` at the check ahead
   of page `i`, `at(2i + 2)` at the check behind it), and the generation that page `i` was answered for.
   */
  datatype Session = Session(servers: Servers, at: nat -> nat, answered: nat -> nat)

  /** Generations only grow, and each page is answered between the checks around it. */
  ghost predicate GoodSession(s: Session)
  {
    && (forall i: nat, j: nat :: i <= j ==> s.at(i) <= s.at(j))
    && (forall i: nat :: s.at(2 * i + 1) <= s.answered(i) <= s.at(2 * i + 2))
  }

  /** The server of the generation in which the read began. */
  function Home(s: Session): Server<Item>
  {
    s.servers(s.at(0))
  }

  /** What page `k` was answered with. */
  function Answer(s: Session, k: nat): Reply<Item>
  {
    s.servers(s.answered(k))(Token(Home(s), k))
  }

  ghost predicate UnchangedThrough(s: Session, n: nat)
  {
    forall i :: 0 <= i <= n ==> s.at(i) == s.at(0)
  }

  /** Why the walk ended at page `k`. */
  ghost predicate Ended(s: Session, before: Order<string>, outcome: Outcome, k: nat)
  {
    var serve := Home(s);
    && k <= MAX_PAGES && Reaches(serve, k) && UnchangedThrough(s, 2 * k)
    && match outcome
       case Listed(items) =>
         && k < MAX_PAGES && TokensDistinct(serve, k) && EndsAt(serve, k) && UnchangedThrough(s, 2 * k + 2)
         && items == Sort(ItemsUpTo(serve, k + 1), ByName(before))
       case ContextChanged =>
         && k < MAX_PAGES && TokensDistinct(serve, k)
         && (s.at(2 * k + 1) != s.at(0) || (Answer(s, k).Page? && s.at(2 * k + 2) != s.at(0)))
       case RequestFailed =>
         k < MAX_PAGES && TokensDistinct(serve, k) && s.at(2 * k + 1) == s.at(0) && Answer(s, k).Failure?
       case RepeatedToken => 0 < k && TokensDistinct(serve, k - 1) && RepeatedAt(serve, k)
       case TooManyPages => k == MAX_PAGES && TokensDistinct(serve, k)
  }

  /** Between two equal checks a page is answered by the server of that generation. */
  lemma AnsweredAtHome(s: Session, k: nat)
    requires GoodSession(s) && s.at(2 * k + 2) == s.at(0)
    ensures Answer(s, k) == ReplyAt(Home(s), k) && UnchangedThrough(s, 2 * k + 2)
  {
    assert s.at(0) <= s.at(2 * k + 1) <= s.answered(k) <= s.at(2 * k + 2);
  }

  /** A page that names a next one extends the chain, the items and what is remembered. */
  lemma PageRead(s: Session, k: nat, items: seq<Item>, seen: set<string>)
    requires GoodSession(s) && s.at(2 * k + 2) == s.at(0)
    requires Reaches(Home(s), k) && items == ItemsUpTo(Home(s), k)
    requires Remembers(Home(s), k, seen) && TokensDistinct(Home(s), k)
    ensures var serve, answer := Home(s), Answer(s, k);
      && answer == ReplyAt(serve, k) && UnchangedThrough(s, 2 * k + 2)
      && (answer.Page? ==> items + answer.items == ItemsUpTo(serve, k + 1))
      && (answer.Page? && answer.next == "" ==> EndsAt(serve, k))
      && (answer.Page? && answer.next != "" ==>
            && Reaches(serve, k + 1) && Token(serve, k + 1) == answer.next
            && (answer.next in seen <==> RepeatedAt(serve, k + 1))
            && (answer.next !in seen ==> TokensDistinct(serve, k + 1))
            && Remembers(serve, k + 1, seen + {answer.next}))
  {
    AnsweredAtHome(s, k);
    if Continues(Home(s), k) {
      RememberToken(Home(s), k, seen);
    }
  }

  ghost predicate Explained(s: Session, before: Order<string>, outcome: Outcome)
  {
    exists k: nat :: Ended(s, before, outcome, k)
  }

  method ListAll(s: Session, before: Order<string>) returns (outcome: Outcome)
    requires GoodSession(s)
    ensures Explained(s, before, outcome)
  {
    var generation := s.at(0);
    ghost var serve := Home(s);
    var items: seq<Item> := [];
    var seen: set<string> := {};
    var token := "";
    for page := 0 to MAX_PAGES
      invariant token == Token(serve, page) && Reaches(serve, page) && UnchangedThrough(s, 2 * page)
      invariant items == ItemsUpTo(serve, page)
      invariant Remembers(serve, page, seen) && TokensDistinct(serve, page)
    {
      if s.at(2 * page + 1) != generation {
        assert Ended(s, before, ContextChanged, page);
        return ContextChanged;
      }
      var reply := s.servers(s.answered(page))(token);
      if reply.Failure? {
        assert Ended(s, before, RequestFailed, page);
        return RequestFailed;
      }
      if s.at(2 * page + 2) != generation {
        assert Ended(s, before, ContextChanged, page);
        return ContextChanged;
      }
      PageRead(s, page, items, seen);
      items := items + reply.items;
      if reply.next == "" {
        outcome := Listed(Sort(items, ByName(before)));
        assert Ended(s, before, outcome, page);
        return;
      }
      if reply.next in seen {
        assert Ended(s, before, RepeatedToken, page + 1);
        return RepeatedToken;
      }
      seen := seen + {reply.next};
      token := reply.next;
    }
    assert Ended(s, before, TooManyPages, MAX_PAGES);
    return TooManyPages;
  }

  /** Nothing ends a walk before the page at which it ends. */
  lemma NoEarlierEnd(s: Session, before: Order<string>, a: Outcome, m: nat, b: Outcome, n: nat)
    requires GoodSession(s) && Ended(s, before, a, m) && Ended(s, before, b, n)
    ensures m >= n
  {
    if m < n {
      ReachesPast(Home(s), n, m);
      AnsweredAtHome(s, m);
    }
  }

  /** The session determines the outcome. */
  lemma OutcomeIsUnique(s: Session, before: Order<string>, a: Outcome, m: nat, b: Outcome, n: nat)
    requires GoodSession(s) && Ended(s, before, a, m) && Ended(s, before, b, n)
    ensures a == b && m == n
  {
    NoEarlierEnd(s, before, a, m, b, n);
    NoEarlierEnd(s, before, b, n, a, m);
    if s.at(2 * m + 2) == s.at(0) {
      AnsweredAtHome(s, m);
    }
  }

  /**
   Whatever happens to the context, a returned list is the sorted whole of a finished chain of the first generation.
   */
  lemma ListedIsWhole(s: Session, before: Order<string>, items: seq<Item>) returns (k: nat)
    requires TotalPreorder(before) && Explained(s, before, Listed(items))
    ensures k < MAX_PAGES && EndsAt(Home(s), k) && UnchangedThrough(s, 2 * k + 2)
    ensures Sorted(items, ByName(before)) && multiset(items) == multiset(ItemsUpTo(Home(s), k + 1))
  {
    k :| Ended(s, before, Listed(items), k);
    ByNameTotal(before);
    SortIsSorted(ItemsUpTo(Home(s), k + 1), ByName(before));
  }

  /** While the generation does not change, a list is returned exactly when the chain ends within a hundred pages. */
  lemma ListedIffEnded(s: Session, before: Order<string>, outcome: Outcome)
    requires GoodSession(s) && Explained(s, before, outcome) && UnchangedThrough(s, 2 * MAX_PAGES)
    ensures outcome.Listed? <==> exists n :: 0 <= n < MAX_PAGES && EndsAt(Home(s), n)
  {
    var k: nat :| Ended(s, before, outcome, k);
    if n :| 0 <= n < MAX_PAGES && EndsAt(Home(s), n) {
      var whole := Listed(Sort(ItemsUpTo(Home(s), n + 1), ByName(before)));
      LastPageDistinct(Home(s), n);
      assert Ended(s, before, whole, n);
      OutcomeIsUnique(s, before, outcome, k, whole, n);
    }
  }

  /**
   And the other errors are exact too: a token that repeats in time, or a hundred pages that go on without repeating.
   */
  lemma ErrorsIff(s: Session, before: Order<string>, outcome: Outcome)
    requires GoodSession(s) && Explained(s, before, outcome) && UnchangedThrough(s, 2 * MAX_PAGES)
    ensures outcome.RepeatedToken? <==> exists b :: 0 <= b <= MAX_PAGES && Reaches(Home(s), b) && RepeatedAt(Home(s), b)
    ensures outcome.TooManyPages? <==> Reaches(Home(s), MAX_PAGES) && TokensDistinct(Home(s), MAX_PAGES)
    ensures !outcome.ContextChanged?
  {
    var k: nat :| Ended(s, before, outcome, k);
    if b :| 0 <= b <= MAX_PAGES && Reaches(Home(s), b) && RepeatedAt(Home(s), b) {
      var first := FirstRepetition(Home(s), b);
      assert Ended(s, before, RepeatedToken, first);
      OutcomeIsUnique(s, before, outcome, k, RepeatedToken, first);
    }
    if Ended(s, before, TooManyPages, MAX_PAGES) {
      OutcomeIsUnique(s, before, outcome, k, TooManyPages, MAX_PAGES);
    }
  }
}
