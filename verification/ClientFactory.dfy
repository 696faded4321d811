/**
 ClientFactory (tenant/client.go): two client caches under one logical clock, keyed by logical cluster and
 token digest, and emptied whenever the provider's host changes. Each public call is one atomic step.
 */
module ClientFactory {
  import opened Wrappers
  import opened Text
  import opened RecencyList
  import Cache = ClientCache

  /** A caller-scoped client, as its configuration describes it. */
  datatype Client = Client(host: string, cluster: string, token: string)

  datatype ClientError = InvalidCluster | NoToken | NotConfigured | NotBuilt | EmptyHost

  /** Characters that a path segment carries unescaped (section 3.3 of RFC 3986, less the ones Go escapes). */
  predicate PathSafe(c: char)
  {
    || 'a' <= c <= 'z' || 'A' <= c <= 'Z' || '0' <= c <= '9'
    || c == '-' || c == '_' || c == '.' || c == '~'
    || c == '$' || c == '&' || c == '+' || c == ':' || c == '=' || c == '@'
  }

  predicate ValidCluster(cluster: string)
  {
    cluster != "" && cluster != "." && cluster != ".." && forall i :: 0 <= i < |cluster| ==> PathSafe(cluster[i])
  }

  function CacheKey(cluster: string, digest: string): string
  {
    cluster + ":" + digest
  }

  predicate NoColon(s: string)
  {
    forall i :: 0 <= i < |s| ==> s[i] != ':'
  }

  lemma LastColon(cluster: string, digest: string)
    requires NoColon(digest)
    ensures var key := CacheKey(cluster, digest);
      |cluster| < |key| && key[|cluster|] == ':' && forall i :: |cluster| < i < |key| ==> key[i] != ':'
  {
  }

  /** A cluster id may itself contain a colon, but a hexadecimal digest cannot: keys determine both parts. */
  lemma CacheKeyInjective(c1: string, d1: string, c2: string, d2: string)
    requires NoColon(d1) && NoColon(d2)
    ensures CacheKey(c1, d1) == CacheKey(c2, d2) <==> c1 == c2 && d1 == d2
  {
    if CacheKey(c1, d1) == CacheKey(c2, d2) {
      LastColon(c1, d1);
      LastColon(c2, d2);
      assert CacheKey(c1, d1)[..|c1|] == c1 && CacheKey(c2, d2)[..|c2|] == c2;
      assert CacheKey(c1, d1)[|c1| + 1..] == d1 && CacheKey(c2, d2)[|c2| + 1..] == d2;
    }
  }

  /** Every cached client was built for this host, and for the cluster and token digest its key names. */
  ghost predicate AllBuilt(list: seq<Entry<Client>>, host: string, digest: string -> string)
  {
    forall i :: 0 <= i < |list| ==>
      list[i].value.host == host && list[i].key == CacheKey(list[i].value.cluster, digest(list[i].value.token))
  }

  lemma LookupKeepsBuilt(
    list: seq<Entry<Client>>, key: string, now: int, ttl: int, host: string, digest: string -> string)
    requires AllBuilt(list, host, digest)
    ensures AllBuilt(Lookup(list, key, now, ttl).1, host, digest)
    ensures var hit := Lookup(list, key, now, ttl).0;
      hit.Some? ==> hit.value.host == host && key == CacheKey(hit.value.cluster, digest(hit.value.token))
  {
  }

  lemma StoreKeepsBuilt(
    list: seq<Entry<Client>>, key: string, client: Client, now: int, capacity: nat, host: string,
    digest: string -> string)
    requires AllBuilt(list, host, digest) && client.host == host
      && key == CacheKey(client.cluster, digest(client.token))
    ensures AllBuilt(Store(list, key, client, now, capacity).1, host, digest)
    ensures var kept := Store(list, key, client, now, capacity).0;
      kept.host == host && key == CacheKey(kept.cluster, digest(kept.token))
  {
    if !Has(list, key) {
      var longer := list + [Entry(key, client, now)];
      assert AllBuilt(longer, host, digest);
    }
  }

  class ClientFactory {
    const clock: Cache.CacheClock
    const dynamic: Cache.ClientCache<Client>
    const authorization: Cache.ClientCache<Client>
    const digest: string -> string
    var baseHost: string
    var configured: bool

    ghost predicate Valid()
      reads this, clock, dynamic, authorization
    {
      && dynamic != authorization && dynamic.clock == clock && authorization.clock == clock
      && dynamic.Valid() && authorization.Valid()
      && (forall t :: NoColon(digest(t)))
      && AllBuilt(dynamic.recency, baseHost, digest) && AllBuilt(authorization.recency, baseHost, digest)
    }

    constructor (digest: string -> string, capacity: int, ttl: int)
      requires forall t :: NoColon(digest(t))
      ensures Valid() && !configured && this.digest == digest && fresh(clock) && fresh(dynamic) && fresh(authorization)
      ensures dynamic.recency == [] && authorization.recency == []
    {
      var c := new Cache.CacheClock();
      var d := new Cache.ClientCache(c, capacity, ttl);
      var a := new Cache.ClientCache(c, capacity, ttl);
      clock, dynamic, authorization, this.digest := c, d, a, digest;
      baseHost, configured := "", false;
    }

    /** `host` is the base host with any cluster suffix and trailing slashes already removed. */
    method SetBaseConfig(host: string) returns (error: Option<ClientError>)
      requires Valid()
      modifies this, dynamic, authorization
      ensures Valid()
      ensures error.Some? <==> TrimSpace(host) == ""
      ensures error.None? ==> configured && baseHost == host && dynamic.recency == [] && authorization.recency == []
      ensures error.Some? ==> baseHost == old(baseHost) && configured == old(configured)
      ensures error.Some? ==>
        dynamic.recency == old(dynamic.recency) && authorization.recency == old(authorization.recency)
    {
      if TrimSpace(host) == "" {
        return Some(EmptyHost);
      }
      baseHost, configured := host, true;
      dynamic.Clear();
      authorization.Clear();
      return None;
    }

    function ConfigError(cluster: string, token: string): Option<ClientError>
      reads this
    {
      if !ValidCluster(cluster) then Some(InvalidCluster)
      else if TrimSpace(token) == "" then Some(NoToken)
      else if !configured then Some(NotConfigured)
      else None
    }

    /** No client without a cluster that is one path segment, a token, and a configured host; checked in this order. */
    lemma ConfigErrorIff(cluster: string, token: string)
      ensures var error, blank := ConfigError(cluster, token), TrimSpace(token) == "";
        && (error == Some(InvalidCluster) <==> !ValidCluster(cluster))
        && (error == Some(NoToken) <==> ValidCluster(cluster) && blank)
        && (error == Some(NotConfigured) <==> ValidCluster(cluster) && !blank && !configured)
        && (error.None? <==> ValidCluster(cluster) && !blank && configured)
    {
    }

    ghost predicate Pairs(cache: Cache.ClientCache<Client>, other: Cache.ClientCache<Client>)
      reads this
    {
      (cache == dynamic && other == authorization) || (cache == authorization && other == dynamic)
    }

    /** A client this factory may hand out for a cluster and token. */
    ghost predicate Serves(client: Client, cluster: string, token: string)
      reads this
    {
      client.host == baseHost && client.cluster == cluster && digest(client.token) == digest(token)
    }

    /** The cached client of a caller, from one of the two caches. */
    method Cached(
      cache: Cache.ClientCache<Client>, ghost other: Cache.ClientCache<Client>, cluster: string, token: string,
      now: int)
      returns (hit: Option<Client>)
      requires Valid() && Pairs(cache, other)
      modifies cache, clock
      ensures Valid() && other.recency == old(other.recency)
      ensures (hit, cache.recency) == Lookup(old(cache.recency), CacheKey(cluster, digest(token)), now, cache.Ttl())
      ensures hit.Some? ==> Serves(hit.value, cluster, token)
    {
      var key := CacheKey(cluster, digest(token));
      LookupKeepsBuilt(cache.recency, key, now, cache.Ttl(), baseHost, digest);
      hit := cache.FromCache(key, now);
      if hit.Some? {
        CacheKeyInjective(hit.value.cluster, digest(hit.value.token), cluster, digest(token));
      }
    }

    /** Cache a newly built client, or fall back on the one cached meanwhile. */
    method Keep(
      cache: Cache.ClientCache<Client>, ghost other: Cache.ClientCache<Client>, cluster: string, token: string,
      now: int)
      returns (kept: Client)
      requires Valid() && Pairs(cache, other)
      modifies cache, clock
      ensures Valid() && other.recency == old(other.recency)
      ensures var key, client := CacheKey(cluster, digest(token)), Client(baseHost, cluster, token);
        (kept, cache.recency) == Store(old(cache.recency), key, client, now, cache.Capacity())
      ensures Serves(kept, cluster, token)
    {
      var key, client := CacheKey(cluster, digest(token)), Client(baseHost, cluster, token);
      StoreKeepsBuilt(cache.recency, key, client, now, cache.Capacity(), baseHost, digest);
      kept := cache.StoreClient(key, client, now);
      CacheKeyInjective(kept.cluster, digest(kept.token), cluster, digest(token));
    }

    /**
     The body shared by For and AuthorizationFor, which differ only in the cache they use. The client handed out
     is for the current host, the requested cluster and a token with the caller's digest, and the other
     cache neither changes nor loses its validity although both draw ticks from one clock.
     */
    method ClientFrom(
      cache: Cache.ClientCache<Client>, ghost other: Cache.ClientCache<Client>,
      clusterID: string, token: string, builds: bool, readAt: int, storedAt: int)
      returns (r: Result<Client, ClientError>)
      requires Valid() && Pairs(cache, other)
      modifies cache, clock
      ensures Valid() && other.recency == old(other.recency)
      ensures ConfigError(TrimSpace(clusterID), token).Some? ==>
        r == Err(ConfigError(TrimSpace(clusterID), token).value) && cache.recency == old(cache.recency)
      ensures ConfigError(TrimSpace(clusterID), token).None? ==>
        var key := CacheKey(TrimSpace(clusterID), digest(token));
        var looked := Lookup(old(cache.recency), key, readAt, cache.Ttl());
        && ServesYoung(old(cache.recency), key, readAt, cache.Ttl(), looked.0)
        && if looked.0.Some? then r == Ok(looked.0.value) && cache.recency == looked.1
        else if !builds then r == Err(NotBuilt) && cache.recency == looked.1
        else
          var client := Client(baseHost, TrimSpace(clusterID), token);
          var stored := Store(looked.1, key, client, storedAt, cache.Capacity());
          r == Ok(stored.0) && r == Ok(client) && cache.recency == stored.1
      ensures r.Ok? ==> Serves(r.value, TrimSpace(clusterID), token)
    {
      var cluster := TrimSpace(clusterID);
      var failure := ConfigError(cluster, token);
      if failure.Some? {
        return Err(failure.value);
      }
      LookupServesYoung(cache.recency, CacheKey(cluster, digest(token)), readAt, cache.Ttl());
      var hit := Cached(cache, other, cluster, token, readAt);
      if hit.Some? {
        return Ok(hit.value);
      }
      if !builds {
        return Err(NotBuilt);
      }
      MissThenStore(old(cache.recency), CacheKey(cluster, digest(token)), readAt, cache.Ttl(),
        Client(baseHost, cluster, token), storedAt, cache.Capacity());
      var kept := Keep(cache, other, cluster, token, storedAt);
      return Ok(kept);
    }
  }
}
