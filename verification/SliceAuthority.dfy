/** Endpoint URLs published on an APIExportEndpointSlice (tenant/authority.go). */
module SliceEndpoints {
  import opened Text

  function TrimSlashes(s: string): (r: string)
    ensures r <= s && (r != "" ==> r[|r| - 1] != '/')
    ensures forall i :: |r| <= i < |s| ==> s[i] == '/'
  {
    if s != "" && s[|s| - 1] == '/' then TrimSlashes(s[..|s| - 1]) else s
  }

  function CleanURL(raw: string): string
  {
    TrimSlashes(TrimSpace(raw))
  }

  function Cleaned(raws: seq<string>): (urls: seq<string>)
    ensures |urls| == |raws|
  {
    seq(|raws|, i requires 0 <= i < |raws| => CleanURL(raws[i]))
  }

  /** The non-blank ones of the first `n` URLs, each kept where it first occurs. */
  function FirstUpTo(all: seq<string>, n: nat): (urls: seq<string>)
    requires n <= |all|
  {
    if n == 0 then [] else
      var before := FirstUpTo(all, n - 1);
      if all[n - 1] == "" || all[n - 1] in before then before else before + [all[n - 1]]
  }

  function Published(raws: seq<string>): seq<string>
  {
    FirstUpTo(Cleaned(raws), |raws|)
  }

  predicate Distinct(urls: seq<string>)
  {
    forall i, j :: 0 <= i < j < |urls| ==> urls[i] != urls[j]
  }

  /** Each URL appears once and none is blank. */
  lemma {:induction false} FirstDistinct(all: seq<string>, n: nat)
    requires n <= |all|
    ensures Distinct(FirstUpTo(all, n)) && "" !in FirstUpTo(all, n)
  {
    if n > 0 {
      FirstDistinct(all, n - 1);
    }
  }

  /** No endpoint is dropped, and nothing else appears. */
  lemma {:induction false} FirstExact(all: seq<string>, n: nat, url: string)
    requires n <= |all|
    ensures url in FirstUpTo(all, n) <==> url in all[..n] && url != ""
  {
    if n > 0 {
      FirstExact(all, n - 1, url);
      FirstExact(all, n - 1, all[n - 1]);
      assert all[..n] == all[..n - 1] + [all[n - 1]];
    }
  }

  /** Slice order: reading more endpoints only appends. */
  lemma {:induction false} FirstInOrder(all: seq<string>, m: nat, n: nat)
    requires m <= n <= |all|
    ensures FirstUpTo(all, m) <= FirstUpTo(all, n)
    decreases n
  {
    if m < n {
      FirstInOrder(all, m, n - 1);
    }
  }

  /** `raws` are the `url` fields of the endpoints; an endpoint without a string `url` contributes "". */
  method SliceEndpointURLs(raws: seq<string>) returns (urls: seq<string>)
    ensures urls == Published(raws)
    ensures Distinct(urls) && "" !in urls
  {
    urls := [];
    var seen: set<string> := {};
    for i := 0 to |raws|
      invariant urls == FirstUpTo(Cleaned(raws), i)
      invariant forall u :: u in seen <==> u in urls
    {
      var trimmed := CleanURL(raws[i]);
      if trimmed == "" || trimmed in seen {
        continue;
      }
      seen := seen + {trimmed};
      urls := urls + [trimmed];
    }
    FirstDistinct(Cleaned(raws), |raws|);
  }
}

/**
 SliceAuthority (tenant/authority.go): which virtual-workspace shard serves a logical cluster, with cached
 bindings and clients. Each public call is one atomic step; the endpoint slice, the probe and the
 construction of a client answer arbitrarily.
 */
module SliceAuthority {
  import opened Wrappers
  import opened SliceEndpoints

  const REFRESH_INTERVAL: int := 10
  const CLIENT_CACHE_CAP: nat := 256

  datatype AuthorityError = SliceUnreadable | NoEndpoints | NotServed | NotBuilt

  type Probe = (string, string) -> bool

  predicate NoBar(s: string)
  {
    forall i :: 0 <= i < |s| ==> s[i] != '|'
  }

  function ClientKey(shard: string, cluster: string): string
  {
    shard + "|" + cluster
  }

  /** The configuration a client is built with. */
  function Host(shard: string, cluster: string): string
  {
    shard + "/clusters/" + cluster
  }

  predicate NoSlash(s: string)
  {
    forall i :: 0 <= i < |s| ==> s[i] != '/'
  }

  lemma HostLastSlash(shard: string, cluster: string)
    requires NoSlash(cluster)
    ensures var host, p := Host(shard, cluster), |shard| + 9;
      && p < |host| && host[p] == '/' && host[p + 1..] == cluster && host[..|shard|] == shard
      && forall i :: p < i < |host| ==> host[i] != '/'
  {
    var host, p := Host(shard, cluster), |shard| + 9;
    assert |"/clusters/"| == 10 && "/clusters/"[9] == '/';
    assert host == (shard + "/clusters/") + cluster;
    assert forall i :: p < i < |host| ==> host[i] == cluster[i - p - 1];
  }

  /** A logical cluster is a single path segment, so a client's host determines its shard and its cluster. */
  lemma HostInjective(s1: string, c1: string, s2: string, c2: string)
    requires NoSlash(c1) && NoSlash(c2)
    ensures Host(s1, c1) == Host(s2, c2) <==> s1 == s2 && c1 == c2
  {
    HostLastSlash(s1, c1);
    HostLastSlash(s2, c2);
  }

  lemma ClientKeyLastBar(shard: string, cluster: string)
    requires NoBar(cluster)
    ensures var key := ClientKey(shard, cluster);
      |shard| < |key| && key[|shard|] == '|' && forall i :: |shard| < i < |key| ==> key[i] != '|'
  {
  }

  /** Cluster ids carry no '|' (the caller rejects ids that need escaping), so a key names one shard and one cluster. */
  lemma ClientKeyInjective(s1: string, c1: string, s2: string, c2: string)
    requires NoBar(c1) && NoBar(c2) && ClientKey(s1, c1) == ClientKey(s2, c2)
    ensures s1 == s2 && c1 == c2
  {
    ClientKeyLastBar(s1, c1);
    ClientKeyLastBar(s2, c2);
    assert ClientKey(s1, c1)[..|s1|] == s1 && ClientKey(s2, c2)[..|s2|] == s2;
    assert ClientKey(s1, c1)[|s1| + 1..] == c1 && ClientKey(s2, c2)[|s2| + 1..] == c2;
  }

  /** `strings.Cut(key, "|")`: the part before the first bar, if there is a bar. */
  function CutFrom(key: string, i: nat): (before: Option<string>)
    requires i <= |key|
    decreases |key| - i
  {
    if i == |key| then None else if key[i] == '|' then Some(key[..i]) else CutFrom(key, i + 1)
  }

  lemma {:induction false} CutFindsShard(shard: string, cluster: string, i: nat)
    requires NoBar(shard) && i <= |shard|
    ensures CutFrom(ClientKey(shard, cluster), i) == Some(shard)
    decreases |shard| - i
  {
    var key := ClientKey(shard, cluster);
    if i < |shard| {
      assert key[i] == shard[i];
      CutFindsShard(shard, cluster, i + 1);
    } else {
      assert key[i] == '|' && key[..i] == shard;
    }
  }

  function FirstAnswering(shards: seq<string>, probe: Probe, cluster: string): (r: Option<string>)
    ensures r.None? <==> forall i :: 0 <= i < |shards| ==> !probe(shards[i], cluster)
    ensures r.Some? ==> r.value in shards && probe(r.value, cluster)
  {
    if shards == [] then None
    else if probe(shards[0], cluster) then Some(shards[0])
    else FirstAnswering(shards[1..], probe, cluster)
  }

  /** Resolution without any cache: no shard, the only shard, or the first shard that answers. */
  function Resolve(shards: seq<string>, probe: Probe, cluster: string): Result<string, AuthorityError>
  {
    if |shards| == 0 then Err(NoEndpoints)
    else if |shards| == 1 then Ok(shards[0])
    else match FirstAnswering(shards, probe, cluster) case Some(url) => Ok(url) case None => Err(NotServed)
  }

  lemma {:induction false} FirstAnsweringAt(shards: seq<string>, probe: Probe, cluster: string, k: nat)
    requires Distinct(shards) && k < |shards| && probe(shards[k], cluster)
    ensures FirstAnswering(shards, probe, cluster) == Some(shards[k]) <==>
      forall i :: 0 <= i < k ==> !probe(shards[i], cluster)
  {
    if k > 0 && !probe(shards[0], cluster) {
      FirstAnsweringAt(shards[1..], probe, cluster, k - 1);
      assert forall i :: 0 <= i < k - 1 ==> shards[1..][i] == shards[i + 1];
    }
  }

  /**
   A binding that survives a changed shard list agrees with a fresh resolution exactly when the list is a single
   shard or no shard ahead of it answers too; at most one answering shard is thus enough.
   */
  lemma SurvivingBindingAgrees(shards: seq<string>, probe: Probe, cluster: string, k: nat)
    requires Distinct(shards) && k < |shards| && probe(shards[k], cluster)
    ensures Resolve(shards, probe, cluster) == Ok(shards[k]) <==>
            |shards| == 1 || forall i :: 0 <= i < k ==> !probe(shards[i], cluster)
  {
    FirstAnsweringAt(shards, probe, cluster, k);
  }

  /* ---- What a stale list costs ---- */

  function Only(url: string): Probe
  {
    (shard: string, cluster: string) => shard == url
  }

  function Either(a: string, b: string): Probe
  {
    (shard: string, cluster: string) => shard == a || shard == b
  }

  /** A shard that only one list has is a difference that some probe shows. */
  lemma ExtraShardShows(a: seq<string>, b: seq<string>, cluster: string, k: nat)
    requires Distinct(a) && Distinct(b) && b != [] && k < |a| && a[k] !in b
    ensures Resolve(a, Only(a[k]), cluster) != Resolve(b, Only(a[k]), cluster)
  {
    var probe := Only(a[k]);
    FirstAnsweringAt(a, probe, cluster, k);
  }

  /** So does a different order of the same shards. */
  lemma OrderShows(a: seq<string>, b: seq<string>, cluster: string, k: nat)
    requires Distinct(a) && Distinct(b) && |a| > 1 && |b| > 1 && k < |a| && k < |b|
    requires a[k] != b[k] && forall i :: 0 <= i < k ==> a[i] == b[i]
    ensures Resolve(a, Either(a[k], b[k]), cluster) != Resolve(b, Either(a[k], b[k]), cluster)
  {
    var probe := Either(a[k], b[k]);
    forall i | 0 <= i < k
      ensures !probe(a[i], cluster) && !probe(b[i], cluster)
    {
      assert a[i] == b[i];
    }
    FirstAnsweringAt(a, probe, cluster, k);
    FirstAnsweringAt(b, probe, cluster, k);
  }

  function DiffersFrom(a: seq<string>, b: seq<string>, i: nat): (k: nat)
    requires i <= |a| && i <= |b|
    ensures i <= k <= |a| && k <= |b| && (forall j :: i <= j < k ==> a[j] == b[j])
    ensures k < |a| && k < |b| ==> a[k] != b[k]
    decreases |a| - i
  {
    if i == |a| || i == |b| || a[i] != b[i] then i else DiffersFrom(a, b, i + 1)
  }

  lemma LongerListHasNew(a: seq<string>, b: seq<string>)
    requires Distinct(b) && |a| <= |b| && forall j :: 0 <= j < |a| ==> a[j] == b[j]
    ensures a == b || (|a| < |b| && b[|a|] !in a)
  {
  }

  /** Of two different lists of the same shards, neither starts with the other. */
  lemma DiffersInside(a: seq<string>, b: seq<string>, k: nat)
    requires Distinct(b) && a != b && k <= |a| && k <= |b| && forall j :: 0 <= j < k ==> a[j] == b[j]
    requires forall j :: 0 <= j < |b| ==> b[j] in a
    ensures k < |a|
  {
    if k == |a| {
      LongerListHasNew(a, b);
    }
  }

  /** Two distinct lists that differ are told apart by some probe. */
  lemma DifferenceShows(a: seq<string>, b: seq<string>, cluster: string) returns (probe: Probe)
    requires Distinct(a) && Distinct(b) && a != [] && b != [] && a != b
    ensures Resolve(a, probe, cluster) != Resolve(b, probe, cluster)
  {
    if k :| 0 <= k < |a| && a[k] !in b {
      probe := Only(a[k]);
      ExtraShardShows(a, b, cluster, k);
    } else if k :| 0 <= k < |b| && b[k] !in a {
      probe := Only(b[k]);
      ExtraShardShows(b, a, cluster, k);
    } else {
      var k := DiffersFrom(a, b, 0);
      DiffersInside(a, b, k);
      DiffersInside(b, a, k);
      probe := Either(a[k], b[k]);
      OrderShows(a, b, cluster, k);
    }
  }

  /**
   The known list serves every cluster as the published one would, whatever shard answers for it, exactly when the
   two lists are the same, order included.
   */
  lemma KnownListServesIff(known: seq<string>, published: seq<string>, cluster: string)
    requires Distinct(known) && Distinct(published) && known != [] && published != []
    ensures (forall probe: Probe :: Resolve(known, probe, cluster) == Resolve(published, probe, cluster))
      <==> known == published
  {
    if known != published {
      var probe := DifferenceShows(known, published, cluster);
    }
  }

  ghost function ListedBindings(bindings: map<string, string>, urls: seq<string>): map<string, string>
  {
    map c | c in bindings && bindings[c] in urls :: bindings[c]
  }

  ghost function ListedClients(
    clients: map<string, string>, origin: map<string, (string, string)>, urls: seq<string>): map<string, string>
    requires clients.Keys <= origin.Keys
  {
    map k | k in clients && origin[k].0 in urls :: clients[k]
  }

  /** A binding or client survives exactly when its shard is still listed, and it never changes. */
  lemma SurvivesIff(
    bindings: map<string, string>, clients: map<string, string>, origin: map<string, (string, string)>,
    urls: seq<string>, c: string, k: string)
    requires clients.Keys <= origin.Keys
    ensures c in ListedBindings(bindings, urls) <==> c in bindings && bindings[c] in urls
    ensures c in ListedBindings(bindings, urls) ==> ListedBindings(bindings, urls)[c] == bindings[c]
    ensures k in ListedClients(clients, origin, urls) <==> k in clients && origin[k].0 in urls
    ensures k in ListedClients(clients, origin, urls) ==> ListedClients(clients, origin, urls)[k] == clients[k]
  {
  }

  /** Drop the bindings whose shard disappeared; the runtime ranges over the map in any order. */
  method PruneBindings(bindings: map<string, string>, seen: set<string>, ghost urls: seq<string>)
    returns (kept: map<string, string>)
    requires forall u :: u in seen <==> u in urls
    ensures kept == ListedBindings(bindings, urls)
  {
    kept := bindings;
    var remaining := bindings.Keys;
    while remaining != {}
      invariant remaining <= bindings.Keys
      invariant forall c :: c in kept <==> c in bindings && (c in remaining || bindings[c] in seen)
      invariant forall c :: c in kept ==> kept[c] == bindings[c]
      decreases |remaining|
    {
      var c :| c in remaining;
      if bindings[c] !in seen {
        kept := kept - {c};
      }
      remaining := remaining - {c};
    }
  }

  predicate Pruned(key: string, seen: set<string>)
  {
    CutFrom(key, 0).Some? && CutFrom(key, 0).value !in seen
  }

  ghost function Unpruned(clients: map<string, string>, seen: set<string>): map<string, string>
  {
    map k | k in clients && !Pruned(k, seen) :: clients[k]
  }

  /** The listed URLs as a set. */
  method SeenURLs(urls: seq<string>) returns (seen: set<string>)
    ensures forall u :: u in seen <==> u in urls
  {
    seen := {};
    for i := 0 to |urls|
      invariant forall u :: u in seen <==> u in urls[..i]
    {
      assert urls[..i + 1] == urls[..i] + [urls[i]];
      seen := seen + {urls[i]};
    }
    assert urls[..|urls|] == urls;
  }

  method PruneClients(clients: map<string, string>, seen: set<string>) returns (kept: map<string, string>)
    ensures kept == Unpruned(clients, seen)
  {
    kept := clients;
    var remaining := clients.Keys;
    while remaining != {}
      invariant remaining <= clients.Keys
      invariant forall k :: k in kept <==> k in clients && (k in remaining || !Pruned(k, seen))
      invariant forall k :: k in kept ==> kept[k] == clients[k]
      decreases |remaining|
    {
      var k :| k in remaining;
      if Pruned(k, seen) {
        kept := kept - {k};
      }
      remaining := remaining - {k};
    }
  }

  /** Every client sits under the key of the shard and cluster it was built for, and that shard is listed. */
  ghost predicate ClientsBelong(
    clients: map<string, string>, origin: map<string, (string, string)>, shards: seq<string>)
  {
    forall k :: k in clients ==>
      && k in origin && origin[k].0 in shards && NoBar(origin[k].1)
      && k == ClientKey(origin[k].0, origin[k].1) && clients[k] == Host(origin[k].0, origin[k].1)
  }

  /** The bindings after a resolution: only a choice among several shards is remembered, once. */
  function Bound(bindings: map<string, string>, count: nat, cluster: string, shard: string): map<string, string>
  {
    if cluster in bindings || count <= 1 then bindings else bindings[cluster := shard]
  }

  /** The clients after one was used: a cached one changes nothing; a new one joins, or replaces all at the cap. */
  function WithClient(clients: map<string, string>, shard: string, cluster: string): map<string, string>
  {
    var key := ClientKey(shard, cluster);
    if key in clients then clients
    else (if |clients| >= CLIENT_CACHE_CAP then map[] else clients)[key := Host(shard, cluster)]
  }

  /** Using a client loses no other one unless the cache is full, and then all of them. */
  lemma ClientJoins(clients: map<string, string>, shard: string, cluster: string)
    ensures var key, after := ClientKey(shard, cluster), WithClient(clients, shard, cluster);
      && key in after && (key !in clients ==> after[key] == Host(shard, cluster))
      && (key in clients || |clients| < 256 ==>
            forall k :: k != key || k in clients ==>
              (k in after <==> k in clients) && (k in after ==> after[k] == clients[k]))
      && (key !in clients && |clients| >= 256 ==> after.Keys == {key})
  {
  }

  /** A resolution changes no other binding, and makes one exactly for a choice among several shards. */
  lemma BoundOnce(bindings: map<string, string>, count: nat, cluster: string, shard: string)
    ensures var after := Bound(bindings, count, cluster, shard);
      && (forall c :: c in bindings ==> c in after && after[c] == bindings[c])
      && (forall c :: c in after && c !in bindings ==> c == cluster && after[c] == shard)
      && (cluster in after <==> cluster in bindings || count > 1)
  {
  }

  ghost predicate BindingsBelong(bindings: map<string, string>, shards: seq<string>)
  {
    forall c :: c in bindings ==> bindings[c] in shards
  }

  /** Each binding is what a fresh resolution would choose. */
  ghost predicate Agrees(bindings: map<string, string>, shards: seq<string>, probe: Probe)
  {
    forall c :: c in bindings ==> Resolve(shards, probe, c) == Ok(bindings[c])
  }

  /** What pruning keeps: the clients whose shard is still listed. */
  lemma PruneKeepsListed(
    clients: map<string, string>, origin: map<string, (string, string)>, shards: seq<string>, urls: seq<string>,
    seen: set<string>)
    requires ClientsBelong(clients, origin, shards) && (forall i :: 0 <= i < |shards| ==> NoBar(shards[i]))
    requires forall u :: u in seen <==> u in urls
    ensures forall k :: k in clients ==> (Pruned(k, seen) <==> origin[k].0 !in urls)
  {
    forall k | k in clients
      ensures Pruned(k, seen) <==> origin[k].0 !in urls
    {
      CutFindsShard(origin[k].0, origin[k].1, 0);
    }
  }

  lemma PrunedClients(
    clients: map<string, string>, origin: map<string, (string, string)>, shards: seq<string>, urls: seq<string>,
    seen: set<string>, kept: map<string, string>)
    requires ClientsBelong(clients, origin, shards) && (forall i :: 0 <= i < |shards| ==> NoBar(shards[i]))
    requires (forall u :: u in seen <==> u in urls) && kept == Unpruned(clients, seen)
    ensures clients.Keys <= origin.Keys && kept == ListedClients(clients, origin, urls)
    ensures ClientsBelong(kept, origin, urls) && |kept| <= |clients|
  {
    PruneKeepsListed(clients, origin, shards, urls, seen);
    SubsetSize(kept.Keys, clients.Keys);
  }

  lemma NoneBound(bindings: map<string, string>, shards: seq<string>)
    requires BindingsBelong(bindings, shards)
    ensures shards == [] ==> bindings == map[]
  {
    if shards == [] {
      assert forall c :: c !in bindings;
    }
  }

  lemma BoundAgrees(bindings: map<string, string>, shards: seq<string>, probe: Probe, cluster: string, shard: string)
    requires BindingsBelong(bindings, shards) && shard in shards
    ensures BindingsBelong(bindings[cluster := shard], shards)
    ensures Agrees(bindings, shards, probe) && Resolve(shards, probe, cluster) == Ok(shard) ==>
      Agrees(bindings[cluster := shard], shards, probe)
  {
  }

  lemma WithClientBelongs(
    clients: map<string, string>, origin: map<string, (string, string)>, shards: seq<string>, shard: string,
    cluster: string)
    requires ClientsBelong(clients, origin, shards) && |clients| <= CLIENT_CACHE_CAP
    requires shard in shards && NoBar(cluster) && ClientKey(shard, cluster) !in clients
    ensures var after := WithClient(clients, shard, cluster);
      && ClientsBelong(after, origin[ClientKey(shard, cluster) := (shard, cluster)], shards)
      && |after| <= CLIENT_CACHE_CAP
  {
    var rest := if |clients| >= CLIENT_CACHE_CAP then map[] else clients;
    CappedInsert(rest, ClientKey(shard, cluster), Host(shard, cluster));
  }

  /** Growing a client map by one, after dropping it when full, stays within the cap. */
  lemma CappedInsert(clients: map<string, string>, key: string, host: string)
    requires |clients| < CLIENT_CACHE_CAP
    ensures |clients[key := host]| <= CLIENT_CACHE_CAP
  {
    assert clients[key := host].Keys == clients.Keys + {key};
  }

  method ProbeShards(shards: seq<string>, probe: Probe, cluster: string) returns (found: Option<string>)
    ensures found == FirstAnswering(shards, probe, cluster)
  {
    for i := 0 to |shards|
      invariant FirstAnswering(shards, probe, cluster) == FirstAnswering(shards[i..], probe, cluster)
    {
      assert shards[i..][1..] == shards[i + 1..];
      if probe(shards[i], cluster) {
        return Some(shards[i]);
      }
    }
    return None;
  }

  class SliceAuthority {
    var shardURLs: seq<string>
    var clusterShard: map<string, string>
    var clients: map<string, string>
    var lastRefresh: int
    ghost var origin: map<string, (string, string)>

    ghost predicate Valid()
      reads this
    {
      && Distinct(shardURLs) && "" !in shardURLs
      && BindingsBelong(clusterShard, shardURLs)
      && ClientsBelong(clients, origin, shardURLs) && |clients| <= CLIENT_CACHE_CAP
    }

    constructor ()
      ensures Valid() && shardURLs == [] && clusterShard == map[] && clients == map[]
    {
      shardURLs, clusterShard, clients, lastRefresh, origin := [], map[], map[], 0, map[];
    }

    /** Replace the list and forget what no longer belongs. Keys are cut at their first '|', so the
        URLs listed so far must carry none. */
    method Relist(urls: seq<string>, now: int)
      requires Valid() && Distinct(urls) && "" !in urls && forall i :: 0 <= i < |shardURLs| ==> NoBar(shardURLs[i])
      modifies this
      ensures Valid() && origin == old(origin) && shardURLs == urls && lastRefresh == now
      ensures clusterShard == ListedBindings(old(clusterShard), urls)
      ensures clients == ListedClients(old(clients), old(origin), urls)
    {
      var seen := SeenURLs(urls);
      var bindings := PruneBindings(clusterShard, seen, urls);
      var kept := PruneClients(clients, seen);
      PrunedClients(clients, origin, shardURLs, urls, seen, kept);
      shardURLs, lastRefresh, clusterShard, clients := urls, now, bindings, kept;
    }

    /** Re-read the slice: `answer` is what the read returned. A failed or rate-limited refresh changes nothing. */
    method RefreshShards(force: bool, now: int, answer: Option<seq<string>>) returns (error: Option<AuthorityError>)
      requires Valid() && forall i :: 0 <= i < |shardURLs| ==> NoBar(shardURLs[i])
      modifies this
      ensures Valid() && origin == old(origin)
      ensures var limited := !force && now - old(lastRefresh) < REFRESH_INTERVAL;
        error.None? <==> limited || (answer.Some? && Published(answer.value) != [])
      ensures error.Some? ==> error.value == if answer.None? then SliceUnreadable else NoEndpoints
      ensures var limited := !force && now - old(lastRefresh) < REFRESH_INTERVAL;
        var urls := if limited || error.Some? then old(shardURLs) else Published(answer.value);
        && shardURLs == urls && lastRefresh == (if limited || error.Some? then old(lastRefresh) else now)
        && clusterShard == ListedBindings(old(clusterShard), urls)
        && clients == ListedClients(old(clients), old(origin), urls)
    {
      if !force && now - lastRefresh < REFRESH_INTERVAL {
        return None;
      }
      if answer.None? {
        return Some(SliceUnreadable);
      }
      var urls := SliceEndpointURLs(answer.value);
      if |urls| == 0 {
        return Some(NoEndpoints);
      }
      Relist(urls, now);
      return None;
    }

    /**
     The only way a public call reaches a refresh: while no shard is known. A known list never changes again,
     whatever the slice says.
     */
    method EnsureShards(now: int, answer: Option<seq<string>>) returns (error: Option<AuthorityError>)
      requires Valid()
      modifies this
      ensures Valid() && origin == old(origin) && clusterShard == old(clusterShard) && clients == old(clients)
      ensures old(shardURLs) != [] ==> shardURLs == old(shardURLs)
      ensures old(shardURLs) == [] ==> shardURLs == if answer.Some? then Published(answer.value) else []
      ensures error.Some? <==> shardURLs == []
      ensures error.Some? ==> error.value == if answer.None? then SliceUnreadable else NoEndpoints
    {
      if |shardURLs| > 0 {
        return None;
      }
      assert clusterShard == map[] && clients == map[];
      error := RefreshShards(true, now, answer);
    }

    method Ready(now: int, answer: Option<seq<string>>) returns (ready: bool)
      requires Valid()
      modifies this
      ensures Valid() && ready == (shardURLs != []) && clusterShard == old(clusterShard) && clients == old(clients)
      ensures old(shardURLs) != [] ==> shardURLs == old(shardURLs)
      ensures old(shardURLs) == [] ==> shardURLs == if answer.Some? then Published(answer.value) else []
    {
      var error := EnsureShards(now, answer);
      return error.None?;
    }

    /** Resolve an unbound cluster over a known list, and remember a choice among several shards. */
    method Choose(cluster: string, probe: Probe) returns (r: Result<string, AuthorityError>)
      requires Valid() && shardURLs != [] && cluster !in clusterShard
      modifies this`clusterShard
      ensures Valid() && r == Resolve(shardURLs, probe, cluster)
      ensures clusterShard ==
        if r.Ok? then Bound(old(clusterShard), |shardURLs|, cluster, r.value) else old(clusterShard)
      ensures Agrees(old(clusterShard), shardURLs, probe) ==> Agrees(clusterShard, shardURLs, probe)
    {
      if |shardURLs| == 1 {
        return Ok(shardURLs[0]);
      }
      var found := ProbeShards(shardURLs, probe, cluster);
      if found.None? {
        return Err(NotServed);
      }
      BoundAgrees(clusterShard, shardURLs, probe, cluster, found.value);
      clusterShard := clusterShard[cluster := found.value];
      return Ok(found.value);
    }

    /** The cached resolution equals the cache-free one over the list the call ends with. */
    method ShardFor(cluster: string, now: int, answer: Option<seq<string>>, probe: Probe)
      returns (r: Result<string, AuthorityError>)
      requires Valid()
      modifies this
      ensures Valid() && clients == old(clients) && origin == old(origin)
      ensures old(shardURLs) != [] ==> shardURLs == old(shardURLs)
      ensures r.Ok? ==> r.value in shardURLs
      ensures cluster in old(clusterShard) ==> r == Ok(old(clusterShard)[cluster])
      ensures shardURLs == [] ==> r == Err(if answer.None? then SliceUnreadable else NoEndpoints)
      ensures clusterShard ==
        if r.Ok? then Bound(old(clusterShard), |shardURLs|, cluster, r.value) else old(clusterShard)
      ensures Agrees(old(clusterShard), old(shardURLs), probe) ==>
        Agrees(clusterShard, shardURLs, probe) && (shardURLs != [] ==> r == Resolve(shardURLs, probe, cluster))
    {
      if cluster in clusterShard {
        return Ok(clusterShard[cluster]);
      }
      NoneBound(clusterShard, shardURLs);
      var error := EnsureShards(now, answer);
      if error.Some? {
        return Err(error.value);
      }
      r := Choose(cluster, probe);
    }

    /** The cached client of a shard and cluster, or a new one; the whole cache is dropped on overflow. */
    method ClientAt(shard: string, cluster: string, builds: bool) returns (r: Result<string, AuthorityError>)
      requires Valid() && NoBar(cluster) && shard in shardURLs
      modifies this`clients, this`origin
      ensures Valid()
      ensures r ==
        if ClientKey(shard, cluster) in old(clients) || builds then Ok(Host(shard, cluster)) else Err(NotBuilt)
      ensures clients == if r.Ok? then WithClient(old(clients), shard, cluster) else old(clients)
    {
      var key := ClientKey(shard, cluster);
      if key in clients {
        ClientKeyInjective(origin[key].0, origin[key].1, shard, cluster);
        return Ok(clients[key]);
      }
      if !builds {
        return Err(NotBuilt);
      }
      WithClientBelongs(clients, origin, shardURLs, shard, cluster);
      if |clients| >= CLIENT_CACHE_CAP {
        clients := map[];
      }
      clients := clients[key := Host(shard, cluster)];
      origin := origin[key := (shard, cluster)];
      return Ok(clients[key]);
    }

    /** A client for this cluster on the shard that serves it. */
    method ClusterClient(cluster: string, now: int, answer: Option<seq<string>>, probe: Probe, builds: bool)
      returns (r: Result<string, AuthorityError>)
      requires Valid() && NoBar(cluster)
      modifies this
      ensures Valid()
      ensures old(shardURLs) != [] ==> shardURLs == old(shardURLs)
      ensures Agrees(old(clusterShard), old(shardURLs), probe) ==> Agrees(clusterShard, shardURLs, probe)
      ensures Agrees(old(clusterShard), old(shardURLs), probe) && shardURLs != [] ==>
        match Resolve(shardURLs, probe, cluster)
        case Ok(shard) => r == Ok(Host(shard, cluster)) || (r == Err(NotBuilt) && !builds)
        case Err(e) => r == Err(e)
      ensures shardURLs == [] ==> r == Err(if answer.None? then SliceUnreadable else NoEndpoints)
      ensures r.Err? ==> clients == old(clients)
      ensures cluster in old(clusterShard) && r.Ok? ==> r.value == Host(old(clusterShard)[cluster], cluster)
      ensures cluster in old(clusterShard) && builds ==> r.Ok?
      ensures r.Ok? ==> exists shard ::
        && shard in shardURLs && r.value == Host(shard, cluster) && clients == WithClient(old(clients), shard, cluster)
        && clusterShard == Bound(old(clusterShard), |shardURLs|, cluster, shard)
    {
      var shard := ShardFor(cluster, now, answer, probe);
      if shard.Err? {
        return Err(shard.error);
      }
      r := ClientAt(shard.value, cluster, builds);
    }
  }

  lemma CleanLetter(url: string)
    requires |url| == 1 && 'a' <= url[0] <= 'z'
    ensures CleanURL(url) == url
  {
    assert Text.TrimLeft(url) == url && Text.TrimRight(url) == url;
  }

  const KNOWN := ["a"]
  const GROWN := ["a", "b"]

  /** Both slices publish what they list, and only over the grown one does a resolution find the shard that answers. */
  lemma GrownSliceResolves(cluster: string)
    ensures Published(KNOWN) == KNOWN && Published(GROWN) == GROWN
    ensures Resolve(KNOWN, Only("b"), cluster) == Ok("a") && Resolve(GROWN, Only("b"), cluster) == Ok("b")
  {
    CleanLetter("a");
    CleanLetter("b");
    assert Cleaned(KNOWN) == KNOWN && Cleaned(GROWN) == GROWN;
    assert FirstUpTo(KNOWN, 0) == [] && FirstUpTo(GROWN, 0) == [] && FirstUpTo(GROWN, 1) == ["a"];
    FirstAnsweringAt(GROWN, Only("b"), cluster, 1);
  }

  /**
   A fresh shard is missed: the authority knows shard "a", the slice now lists "b" too, and only "b" answers for the
   cluster. The caller gets a client on "a", where a resolution over the published list gives "b".
   */
  method FreshShardIsMissed(cluster: string) returns (r: Result<string, AuthorityError>)
    requires NoBar(cluster)
    ensures r == Ok(Host("a", cluster))
    ensures Resolve(Published(GROWN), Only("b"), cluster) == Ok("b")
  {
    GrownSliceResolves(cluster);
    var authority := new SliceAuthority();
    var ready := authority.Ready(0, Some(KNOWN));
    r := authority.ClusterClient(cluster, 1, Some(GROWN), Only("b"), true);
  }
}
