/** The engine's use of both limiters: each identity's counts are the numbers of open clients that
    hold them, over every run of requests and closes. */
module CoreEngineLimits {
  import opened Helpers
  import opened LimiterSpec
  import opened LimiterRuns
  import opened RequestRateLimiters

  class ConnectionLimiter {
    const maxConnectionsPerIp: nat
    const normalize: Ip -> Ip
    var connLimits: map<Ip, nat>

    constructor (cap: nat, normalize: Ip -> Ip)
      ensures connLimits == map[] && maxConnectionsPerIp == cap && this.normalize == normalize
    {
      maxConnectionsPerIp, this.normalize, connLimits := cap, normalize, map[];
    }

    /** Open connections counted for an identity. */
    function Count(key: Ip): nat
      reads this
    {
      if key in connLimits then connLimits[key] else 0
    }

    method AllowConnection(ip: Ip, insertOk: bool) returns (ok: bool)
      modifies this
      ensures ok <==> old(Count(normalize(ip))) < maxConnectionsPerIp && (insertOk || normalize(ip) in old(connLimits))
      ensures forall k :: Count(k) == old(Count(k)) + (if ok && k == normalize(ip) then 1 else 0)
    {
      var key := normalize(ip);
      if key !in connLimits {
        if !insertOk {
          return false;
        }
        connLimits := connLimits[key := 0];
      }
      if connLimits[key] >= maxConnectionsPerIp {
        return false;
      }
      connLimits := connLimits[key := connLimits[key] + 1];
      return true;
    }

    /** An identity's entry goes with its last connection. */
    method ReleaseConnection(ip: Ip)
      modifies this
      ensures forall k :: Count(k) == if k == normalize(ip) && old(Count(k)) > 0 then old(Count(k)) - 1
              else old(Count(k))
      ensures Count(normalize(ip)) == 0 ==> normalize(ip) !in connLimits
    {
      var key := normalize(ip);
      if key in connLimits {
        var left := if connLimits[key] > 0 then connLimits[key] - 1 else 0;
        connLimits := connLimits[key := left];
        if left == 0 {
          connLimits := connLimits - {key};
        }
      }
    }
  }

  datatype ClientCtx = ClientCtx(connInfo: Ip, ipAcquired: bool, rateLimiterAcquired: bool)

  datatype RateLimitResult = Allowed | ConnectionLimit | RequestLimit

  /** The clients whose connection is counted for an identity. */
  ghost function Counted(clients: map<nat, ClientCtx>, normalize: Ip -> Ip, key: Ip): set<nat> {
    set id | id in clients && clients[id].ipAcquired && normalize(clients[id].connInfo) == key
  }

  /** The clients that hold a reference on an identity's bucket. */
  ghost function Holding(clients: map<nat, ClientCtx>, normalize: Ip -> Ip, key: Ip): set<nat> {
    set id | id in clients && clients[id].rateLimiterAcquired && normalize(clients[id].connInfo) == key
  }

  function RefCount(l: Lru, key: Ip): nat {
    match Lookup(l, key)
    case Some(e) => e.refCount
    case None => 0
  }

  /** A token is left for a tracked identity, after the refill that is due. */
  ghost predicate TokenLeft(cfg: Config, l: Lru, key: Ip, now: int)
    requires Sane(cfg)
  {
    Lookup(l, key).Some? && TokensAt(cfg, Lookup(l, key).value.bucket, now) > 0
  }

  /** One token of the identity's is spent. */
  ghost predicate Spent(cfg: Config, l: Lru, l': Lru, key: Ip, now: int)
    requires Sane(cfg)
  {
    && Lookup(l, key).Some? && Lookup(l', key).Some?
    && Lookup(l', key).value.bucket.tokens == TokensAt(cfg, Lookup(l, key).value.bucket, now) - 1
  }

  lemma AllowedForToken(cfg: Config, l: Lru, key: Ip, now: int)
    requires Sane(cfg) && Distinct(l.entries)
    ensures var (l', ok) := LimiterSpec.AllowRequest(cfg, l, key, now);
            (ok <==> TokenLeft(cfg, l, key, now)) && (ok ==> Spent(cfg, l, l', key, now))
  {
    hide Distinct, LimiterSpec.AllowRequest;
    AllowEffect(cfg, l, key, now, key);
  }

  class CoreEngine {
    const connectionLimiter: ConnectionLimiter
    const requestRateLimiter: RequestRateLimiter
    var clients: map<nat, ClientCtx>

    ghost predicate Valid()
      reads this, connectionLimiter, requestRateLimiter, requestRateLimiter.pool
    {
      && BucketsValid()
      && requestRateLimiter.normalize == connectionLimiter.normalize
      && (forall id <- clients :: clients[id].rateLimiterAcquired ==> clients[id].ipAcquired)
    }

    /** Both limiters count exactly what the open clients hold, and no identity exceeds its cap. */
    ghost predicate Conserved()
      requires Valid()
      reads this, connectionLimiter, requestRateLimiter, requestRateLimiter.pool
    {
      && (forall k :: connectionLimiter.Count(k) == |Counted(clients, connectionLimiter.normalize, k)|)
      && (forall k :: References(k) == |Holding(clients, connectionLimiter.normalize, k)|)
      && (forall k :: connectionLimiter.Count(k) <= connectionLimiter.maxConnectionsPerIp)
    }

    constructor (cfg: Config, cap: nat, capacity: nat, normalize: Ip -> Ip)
      requires Sane(cfg) && capacity < NONE
      ensures Valid() && Conserved() && clients == map[]
    {
      connectionLimiter := new ConnectionLimiter(cap, normalize);
      requestRateLimiter := new RequestRateLimiter(cfg, normalize, capacity);
      clients := map[];
    }

    /** A client connects; its slot was reset. */
    method Accept(id: nat, peer: Ip)
      requires Valid() && Conserved() && id !in clients
      modifies this`clients
      ensures Valid() && Conserved() && clients == old(clients)[id := ClientCtx(peer, false, false)]
    {
      hide BucketsValid, RefCount, Counted, Holding, References;
      forall k {
        ClientArrives(clients, connectionLimiter.normalize, id, peer, k);
      }
      clients := clients[id := ClientCtx(peer, false, false)];
    }

    ghost predicate BucketsValid()
      reads requestRateLimiter, requestRateLimiter.pool
    {
      requestRateLimiter.Valid() && Distinct(requestRateLimiter.Contents().entries)
    }

    /** References on an identity's bucket. */
    ghost function References(k: Ip): nat
      requires BucketsValid()
      reads requestRateLimiter, requestRateLimiter.pool
    {
      RefCount(requestRateLimiter.Contents(), k)
    }

    /** The limiter's buckets, as the move-to-front list they stand for. */
    ghost function Buckets(): Lru
      requires BucketsValid()
      reads requestRateLimiter, requestRateLimiter.pool
    {
      requestRateLimiter.Contents()
    }

    method ReleaseBucket(ip: Ip)
      requires BucketsValid()
      modifies requestRateLimiter.pool
      ensures BucketsValid()
      ensures var key := requestRateLimiter.normalize(ip);
              forall k :: References(k) == if k == key && old(References(k)) > 0 then old(References(k)) - 1
                  else old(References(k))
    {
      hide RequestRateLimiter.Valid, LimiterSpec.Release, Distinct;
      ghost var l, key := requestRateLimiter.Contents(), requestRateLimiter.normalize(ip);
      requestRateLimiter.Release(ip);
      ReleaseEffect(l, key, key);
      forall k
        ensures RefCount(Release(l, key), k)
             == if k == key && RefCount(l, k) > 0 then RefCount(l, k) - 1 else RefCount(l, k)
      {
        ReleaseEffect(l, key, k);
      }
    }

    method AcquireBucket(ip: Ip, insertOk: bool, now: int) returns (ok: bool)
      requires BucketsValid()
      modifies requestRateLimiter, requestRateLimiter.pool
      ensures BucketsValid()
      ensures (Buckets(), ok)
           == Acquire(requestRateLimiter.cfg, old(Buckets()), requestRateLimiter.normalize(ip), insertOk, now)
      ensures var key := requestRateLimiter.normalize(ip);
              forall k :: References(k) == old(References(k)) + if ok && k == key then 1 else 0
    {
      hide RequestRateLimiter.Valid, LimiterSpec.Acquire, Distinct;
      ghost var l, key := requestRateLimiter.Contents(), requestRateLimiter.normalize(ip);
      ok := requestRateLimiter.Acquire(ip, insertOk, now);
      AcquireEffect(requestRateLimiter.cfg, l, key, insertOk, now, key);
      forall k ensures RefCount(requestRateLimiter.Contents(), k) == RefCount(l, k) + if ok && k == key then 1 else 0 {
        AcquireEffect(requestRateLimiter.cfg, l, key, insertOk, now, k);
      }
    }

    lemma SaneBuckets()
      requires BucketsValid()
      ensures Sane(requestRateLimiter.cfg)
    {
    }

    method SpendToken(ip: Ip, now: int) returns (ok: bool)
      requires BucketsValid()
      modifies requestRateLimiter, requestRateLimiter.pool
      ensures BucketsValid() && forall k :: References(k) == old(References(k))
      ensures Sane(requestRateLimiter.cfg)
      ensures (Buckets(), ok)
           == LimiterSpec.AllowRequest(requestRateLimiter.cfg, old(Buckets()), requestRateLimiter.normalize(ip), now)
    {
      hide RequestRateLimiter.Valid, LimiterSpec.AllowRequest, Distinct, TakeToken;
      SaneBuckets();
      ghost var l, key := requestRateLimiter.Contents(), requestRateLimiter.normalize(ip);
      ok := requestRateLimiter.AllowRequest(ip, now);
      AllowEffect(requestRateLimiter.cfg, l, key, now, key);
      forall k ensures RefCount(requestRateLimiter.Contents(), k) == RefCount(l, k) {
        AllowEffect(requestRateLimiter.cfg, l, key, now, k);
      }
    }

    /** The identity's connection is counted: it is below the cap, and has an entry or gets one. */
    ghost predicate Room(key: Ip, insertOk: bool)
      reads connectionLimiter
    {
      && connectionLimiter.Count(key) < connectionLimiter.maxConnectionsPerIp
      && (insertOk || key in connectionLimiter.connLimits)
    }

    /** A request of an open client. Its first one resolves the address and counts the connection;
        the bucket is held from the first request for which the limiter could track the identity. A
        client that cannot be counted has reached its connection limit; one that is counted and holds
        its bucket is let through for a token, which is spent; every other has reached its request
        limit. */
    method AllowRequest(id: nat, resolved: Ip, connInsertOk: bool, rateInsertOk: bool, now: int)
      returns (r: RateLimitResult)
      requires Valid() && Conserved() && id in clients
      modifies this`clients, connectionLimiter, requestRateLimiter, requestRateLimiter.pool
      ensures Valid() && Conserved() && Sane(requestRateLimiter.cfg)
      ensures var cfg, was, l := requestRateLimiter.cfg, old(clients[id]), old(Buckets());
              var peer := if was.ipAcquired then was.connInfo else resolved;
              var key := requestRateLimiter.normalize(peer);
              var counted := was.ipAcquired || old(Room(key, connInsertOk));
              var (tracked, acquired) := Acquire(cfg, l, key, rateInsertOk, now);
              var held := was.rateLimiterAcquired || (counted && acquired);
              var asked := if counted && !was.rateLimiterAcquired then tracked else l;
              && clients == old(clients)[id := ClientCtx(peer, counted, held)]
              && (forall k :: connectionLimiter.Count(k)
                           == old(connectionLimiter.Count(k)) + if counted && !was.ipAcquired && k == key then 1 else 0)
              && Buckets() == (if held then LimiterSpec.AllowRequest(cfg, asked, key, now).0 else asked)
              && (r == ConnectionLimit <==> !counted)
              && (r == Allowed <==> held && TokenLeft(cfg, asked, key, now))
              && (r == Allowed ==> Spent(cfg, asked, Buckets(), key, now))
    {
      hide BucketsValid, RefCount, Counted, Holding, References, Acquire, LimiterSpec.AllowRequest, TokenLeft, Spent;
      ghost var cfg := requestRateLimiter.cfg;
      SaneBuckets();
      if !clients[id].ipAcquired {
        var counted := CountConnection(id, resolved, connInsertOk);
        if !counted {
          return ConnectionLimit;
        }
      }
      if !clients[id].rateLimiterAcquired {
        var held := HoldBucket(id, rateInsertOk, now);
        if !held {
          return RequestLimit;
        }
      }
      ghost var asked, key := Buckets(), requestRateLimiter.normalize(clients[id].connInfo);
      DistinctBuckets();
      AllowedForToken(cfg, asked, key, now);
      var passed := SpendToken(clients[id].connInfo, now);
      return if passed then Allowed else RequestLimit;
    }

    lemma DistinctBuckets()
      requires BucketsValid()
      ensures Distinct(Buckets().entries)
    {
    }

    /** Resolves the client's address and counts its connection. */
    method CountConnection(id: nat, resolved: Ip, insertOk: bool) returns (ok: bool)
      requires Valid() && Conserved() && id in clients && !clients[id].ipAcquired
      modifies this`clients, connectionLimiter
      ensures Valid() && Conserved() && clients == old(clients)[id := ClientCtx(resolved, ok, false)]
      ensures var key := requestRateLimiter.normalize(resolved);
              && ok == old(Room(key, insertOk))
              && forall k :: connectionLimiter.Count(k)
                          == old(connectionLimiter.Count(k)) + if ok && k == key then 1 else 0
      ensures Buckets() == old(Buckets())
    {
      hide BucketsValid, RefCount, Counted, Holding, References;
      ghost var before := clients;
      clients := clients[id := clients[id].(connInfo := resolved)];
      ok := connectionLimiter.AllowConnection(resolved, insertOk);
      if ok {
        clients := clients[id := clients[id].(ipAcquired := true)];
      }
      assert clients == before[id := ClientCtx(resolved, ok, false)];
      forall k ensures |Counted(clients, connectionLimiter.normalize, k)|
          == |Counted(before, connectionLimiter.normalize, k)|
              + (if ok && k == connectionLimiter.normalize(resolved) then 1 else 0)
                  && |Holding(clients, connectionLimiter.normalize, k)|
                      == |Holding(before, connectionLimiter.normalize, k)| {
        ClientChanges(before, connectionLimiter.normalize, id, clients[id], k);
      }
    }

    /** Takes a reference on the client's bucket. */
    method HoldBucket(id: nat, insertOk: bool, now: int) returns (ok: bool)
      requires Valid() && Conserved() && id in clients && clients[id].ipAcquired && !clients[id].rateLimiterAcquired
      modifies this`clients, requestRateLimiter, requestRateLimiter.pool
      ensures Valid() && Conserved() && clients == old(clients)[id := old(clients)[id].(rateLimiterAcquired := ok)]
      ensures (Buckets(), ok) == Acquire(requestRateLimiter.cfg, old(Buckets()),
                                         requestRateLimiter.normalize(old(clients)[id].connInfo), insertOk, now)
    {
      hide BucketsValid, RefCount, Counted, Holding, References;
      ghost var before := clients;
      ok := AcquireBucket(clients[id].connInfo, insertOk, now);
      if ok {
        clients := clients[id := clients[id].(rateLimiterAcquired := true)];
      }
      forall k ensures |Counted(clients, connectionLimiter.normalize, k)|
          == |Counted(before, connectionLimiter.normalize, k)|
                  && |Holding(clients, connectionLimiter.normalize, k)|
                      == |Holding(before, connectionLimiter.normalize, k)|
                          + (if ok && k == connectionLimiter.normalize(clients[id].connInfo) then 1 else 0) {
        ClientChanges(before, connectionLimiter.normalize, id, clients[id], k);
      }
      assert clients == before[id := before[id].(rateLimiterAcquired := ok)];
    }

    /** A client closes: what it holds is given back. */
    method HandleClose(id: nat)
      requires Valid() && Conserved() && id in clients
      modifies this`clients, connectionLimiter, requestRateLimiter.pool
      ensures Valid() && Conserved() && clients == old(clients) - {id}
    {
      hide BucketsValid, RefCount, Counted, Holding, References;
      var ctx := clients[id];
      if ctx.ipAcquired {
        connectionLimiter.ReleaseConnection(ctx.connInfo);
      }
      if ctx.rateLimiterAcquired {
        ReleaseBucket(ctx.connInfo);
      }
      forall k ensures var key := connectionLimiter.normalize(ctx.connInfo);
                  && |Counted(clients - {id}, connectionLimiter.normalize, k)|
                      == |Counted(clients, connectionLimiter.normalize, k)|
                       - (if ctx.ipAcquired && k == key then 1 else 0)
                  && |Holding(clients - {id}, connectionLimiter.normalize, k)|
                      == |Holding(clients, connectionLimiter.normalize, k)|
                       - (if ctx.rateLimiterAcquired && k == key then 1 else 0) {
        ClientLeaves(clients, connectionLimiter.normalize, id, k);
      }
      clients := clients - {id};
    }
  }

  lemma ClientArrives(clients: map<nat, ClientCtx>, normalize: Ip -> Ip, id: nat, peer: Ip, k: Ip)
    requires id !in clients
    ensures Counted(clients[id := ClientCtx(peer, false, false)], normalize, k) == Counted(clients, normalize, k)
    ensures Holding(clients[id := ClientCtx(peer, false, false)], normalize, k) == Holding(clients, normalize, k)
  {
  }

  /** A client that gains one of its bits, or changes address while it holds neither. */
  lemma ClientChanges(clients: map<nat, ClientCtx>, normalize: Ip -> Ip, id: nat, c: ClientCtx, k: Ip)
    requires id in clients
    requires !clients[id].rateLimiterAcquired
            && (clients[id].ipAcquired ==> c.ipAcquired && c.connInfo == clients[id].connInfo)
    ensures var clients' := clients[id := c];
            && |Counted(clients', normalize, k)| == |Counted(clients, normalize, k)|
                + (if c.ipAcquired && !clients[id].ipAcquired && normalize(c.connInfo) == k then 1 else 0)
            && |Holding(clients', normalize, k)| == |Holding(clients, normalize, k)|
                + (if c.rateLimiterAcquired && normalize(c.connInfo) == k then 1 else 0)
  {
    hide Counted, Holding;
    CountedChanges(clients, normalize, id, c, k);
    HoldingChanges(clients, normalize, id, c, k);
  }

  lemma CountedChanges(clients: map<nat, ClientCtx>, normalize: Ip -> Ip, id: nat, c: ClientCtx, k: Ip)
    requires id in clients && (clients[id].ipAcquired ==> c.ipAcquired && c.connInfo == clients[id].connInfo)
    ensures |Counted(clients[id := c], normalize, k)|
         == |Counted(clients, normalize, k)|
             + (if c.ipAcquired && !clients[id].ipAcquired && normalize(c.connInfo) == k then 1 else 0)
  {
    hide Counted;
    var extra := if c.ipAcquired && normalize(c.connInfo) == k then {id} else {};
    CountedJoins(clients, normalize, id, c, k);
    CountedLeaves(clients, normalize, id, k);
    With(Counted(clients, normalize, k), id);
    assert Counted(clients, normalize, k) + {} == Counted(clients, normalize, k);
  }

  lemma CountedJoins(clients: map<nat, ClientCtx>, normalize: Ip -> Ip, id: nat, c: ClientCtx, k: Ip)
    requires id in clients && (clients[id].ipAcquired ==> c.ipAcquired && c.connInfo == clients[id].connInfo)
    ensures Counted(clients[id := c], normalize, k)
         == Counted(clients, normalize, k) + if c.ipAcquired && normalize(c.connInfo) == k then {id} else {}
  {
  }

  lemma With(s: set<nat>, id: nat)
    ensures |s + {id}| == |s| + if id in s then 0 else 1
  {
    if id in s {
      assert s + {id} == s;
    }
  }

  lemma HoldingChanges(clients: map<nat, ClientCtx>, normalize: Ip -> Ip, id: nat, c: ClientCtx, k: Ip)
    requires id in clients && !clients[id].rateLimiterAcquired
    ensures |Holding(clients[id := c], normalize, k)|
         == |Holding(clients, normalize, k)| + (if c.rateLimiterAcquired && normalize(c.connInfo) == k then 1 else 0)
  {
    var extra := if c.rateLimiterAcquired && normalize(c.connInfo) == k then {id} else {};
    assert Holding(clients[id := c], normalize, k) == Holding(clients, normalize, k) + extra;
    assert id !in Holding(clients, normalize, k);
  }

  lemma ClientLeaves(clients: map<nat, ClientCtx>, normalize: Ip -> Ip, id: nat, k: Ip)
    requires id in clients
    ensures var c := clients[id];
            && |Counted(clients - {id}, normalize, k)|
                == |Counted(clients, normalize, k)| - (if c.ipAcquired && normalize(c.connInfo) == k then 1 else 0)
            && |Holding(clients - {id}, normalize, k)|
                == |Holding(clients, normalize, k)|
                 - (if c.rateLimiterAcquired && normalize(c.connInfo) == k then 1 else 0)
  {
    hide Counted, Holding;
    CountedLeaves(clients, normalize, id, k);
    HoldingLeaves(clients, normalize, id, k);
    Without(Counted(clients, normalize, k), id);
    Without(Holding(clients, normalize, k), id);
  }

  lemma CountedLeaves(clients: map<nat, ClientCtx>, normalize: Ip -> Ip, id: nat, k: Ip)
    requires id in clients
    ensures Counted(clients - {id}, normalize, k) == Counted(clients, normalize, k) - {id}
    ensures id in Counted(clients, normalize, k) <==> clients[id].ipAcquired && normalize(clients[id].connInfo) == k
  {
  }

  lemma HoldingLeaves(clients: map<nat, ClientCtx>, normalize: Ip -> Ip, id: nat, k: Ip)
    requires id in clients
    ensures Holding(clients - {id}, normalize, k) == Holding(clients, normalize, k) - {id}
    ensures id in Holding(clients, normalize, k)
            <==> clients[id].rateLimiterAcquired && normalize(clients[id].connInfo) == k
  {
  }

  lemma Without(s: set<nat>, id: nat)
    ensures |s - {id}| == |s| - if id in s then 1 else 0
  {
    if id !in s {
      assert s - {id} == s;
    }
  }
}
