/**
 * `ResilientSrvTopoServer` of go/vt/vtgate/srv_topo_server.go: three cache tables in
 * front of the serving-graph calls of a topology server, and the event counters.
 */
module ResilientSrvTopo {
  import opened Wrappers
  import opened SrvTopoCache
  import HealthFilter

  /** `topo.SrvKeyspace`, whose contents this cache never inspects. */
  datatype SrvKeyspace = SrvKeyspace(contents: string)

  /** The key of the keyspace-names table. */
  function NamesKey(cell: string): string
  {
    cell
  }

  /** The names table has one entry per cell: its key is the cell itself. */
  lemma NamesKeyInjective(cell1: string, cell2: string)
    ensures NamesKey(cell1) == NamesKey(cell2) <==> cell1 == cell2
  {
  }

  /** The key of the keyspace table: `cell + ":" + keyspace`. */
  function KeyspaceKey(cell: string, keyspace: string): (r: string)
    ensures |r| == |cell| + 1 + |keyspace|
    ensures r[..|cell|] == cell && r[|cell|] == ':' && r[|cell| + 1..] == keyspace
  {
    cell + ":" + keyspace
  }

  /** The key of the endpoints table: cell, keyspace, shard and tablet type joined by ":". */
  function EndPointsKey(cell: string, keyspace: string, shard: string, tabletType: string): (r: string)
    ensures |r| == |cell| + |keyspace| + |shard| + |tabletType| + 3
    ensures r[..|cell| + 1 + |keyspace|] == KeyspaceKey(cell, keyspace)
    ensures r[|cell| + 1 + |keyspace|] == ':'
    ensures r[|r| - |tabletType|..] == tabletType
  {
    cell + ":" + keyspace + ":" + shard + ":" + tabletType
  }

  /** Splitting at the first ':' recovers both halves when the head has no ':'. */
  lemma {:induction false} SplitAtColon(a1: string, b1: string, a2: string, b2: string)
    requires ':' !in a1 && ':' !in a2
    requires a1 + ":" + b1 == a2 + ":" + b2
    ensures a1 == a2 && b1 == b2
  {
    var key := a1 + ":" + b1;
    assert key == a2 + ":" + b2;
    assert key[|a1|] == ':' && key[|a2|] == ':';
    assert a1 == key[..|a1|] == a2;
    assert b1 == key[|a1| + 1..] == b2;
  }

  /** Keyspace keys tell their cells and keyspaces apart when cells contain no ':'. */
  lemma KeyspaceKeyInjective(cell1: string, keyspace1: string, cell2: string, keyspace2: string)
    requires ':' !in cell1 && ':' !in cell2
    ensures KeyspaceKey(cell1, keyspace1) == KeyspaceKey(cell2, keyspace2) <==>
            cell1 == cell2 && keyspace1 == keyspace2
  {
    if KeyspaceKey(cell1, keyspace1) == KeyspaceKey(cell2, keyspace2) {
      SplitAtColon(cell1, keyspace1, cell2, keyspace2);
    }
  }

  /** Endpoint keys tell their four parts apart when the first three contain no ':'. */
  lemma EndPointsKeyInjective(cell1: string, keyspace1: string, shard1: string, tabletType1: string,
                              cell2: string, keyspace2: string, shard2: string, tabletType2: string)
    requires ':' !in cell1 && ':' !in keyspace1 && ':' !in shard1
    requires ':' !in cell2 && ':' !in keyspace2 && ':' !in shard2
    ensures EndPointsKey(cell1, keyspace1, shard1, tabletType1) ==
            EndPointsKey(cell2, keyspace2, shard2, tabletType2) <==>
            cell1 == cell2 && keyspace1 == keyspace2 && shard1 == shard2 && tabletType1 == tabletType2
  {
    if EndPointsKey(cell1, keyspace1, shard1, tabletType1) == EndPointsKey(cell2, keyspace2, shard2, tabletType2) {
      var tail1 := shard1 + ":" + tabletType1;
      var tail2 := shard2 + ":" + tabletType2;
      assert EndPointsKey(cell1, keyspace1, shard1, tabletType1) == cell1 + ":" + (keyspace1 + ":" + tail1);
      assert EndPointsKey(cell2, keyspace2, shard2, tabletType2) == cell2 + ":" + (keyspace2 + ":" + tail2);
      SplitAtColon(cell1, keyspace1 + ":" + tail1, cell2, keyspace2 + ":" + tail2);
      SplitAtColon(keyspace1, tail1, keyspace2, tail2);
      SplitAtColon(shard1, tabletType1, shard2, tabletType2);
    }
  }

  /** Without that restriction two different requests can land on one entry. */
  lemma KeyspaceKeysCanCollide()
    ensures KeyspaceKey("a:b", "c") == KeyspaceKey("a", "b:c")
  {
    assert KeyspaceKey("a:b", "c") == ['a', ':', 'b', ':', 'c'];
    assert KeyspaceKey("a", "b:c") == ['a', ':', 'b', ':', 'c'];
  }

  /** The answer that the endpoints entry stores: upstream's result after health
      filtering, or upstream's error. */
  function FilteredFetch(upstream: Result<Option<HealthFilter.EndPoints>, TopoError>)
    : (r: Result<Option<HealthFilter.EndPoints>, TopoError>)
    ensures r.Err? <==> upstream.Err?
    ensures r.Err? ==> r == upstream
    ensures r.Ok? ==> (r.value.None? <==> upstream.value.None?)
    ensures r.Ok? && r.value.Some? ==>
              && |r.value.value.entries| <= |upstream.value.value.entries|
              && (|r.value.value.entries| == 0 <==> |upstream.value.value.entries| == 0)
  {
    match upstream
    case Ok(v) => Ok(HealthFilter.Filtered(v))
    case Err(e) => Err(e)
  }

  /** Health-filters a successful upstream endpoints answer; an error passes through. */
  method FilterFetched(upstream: Result<Option<HealthFilter.EndPoints>, TopoError>)
    returns (fetched: Result<Option<HealthFilter.EndPoints>, TopoError>)
    ensures fetched == FilteredFetch(upstream)
  {
    fetched := upstream;
    if upstream.Ok? {
      var filtered := HealthFilter.FilterUnhealthyServers(upstream.value);
      fetched := Ok(filtered);
    }
  }

  /** A scenario for one endpoints key with a TTL of 10 time units: the first fetch
      stores the healthy list, a call within the TTL is served from the cache, a failed
      refresh serves the stored list, and a later fetch with one unhealthy endpoint
      stores and returns only the healthy one. */
  lemma EndPointsScenario(e: TopoError)
    ensures
      var a := HealthFilter.EndPoint("a", map[]);
      var b := HealthFilter.EndPoint("b", map[HealthFilter.ReplicationLag := HealthFilter.ReplicationLagHigh]);
      var onlyA := Some(HealthFilter.EndPoints([a]));
      var r1 := Step(Unset(None), 10, 0, 0, FilteredFetch(Ok(onlyA)));
      var r2 := Step(r1.next, 10, 5, 5, Err(e));
      var r3 := Step(r2.next, 10, 12, 12, Err(e));
      var r4 := Step(r3.next, 10, 25, 25, FilteredFetch(Ok(Some(HealthFilter.EndPoints([a, b])))));
      && r1 == Reply(Ok(onlyA), EntryState(Some(0), onlyA), Refreshed)
      && r2 == Reply(Ok(onlyA), r1.next, Hit)
      && r3 == Reply(Ok(onlyA), r1.next, ServedStale)
      && r4 == Reply(Ok(onlyA), EntryState(Some(25), onlyA), Refreshed)
  {
    var a := HealthFilter.EndPoint("a", map[]);
    var b := HealthFilter.EndPoint("b", map[HealthFilter.ReplicationLag := HealthFilter.ReplicationLagHigh]);
    assert HealthFilter.IsHealthy(a) && !HealthFilter.IsHealthy(b);
    assert [a, b][..1] == [a];
    assert [a][..0] == [];
    assert HealthFilter.HealthyOf([a]) == [a];
    assert HealthFilter.HealthyOf([a, b]) == [a];
  }

  /** 1 when a call ended with the outcome a counter records, else 0. */
  function Bump(outcome: Outcome, counted: Outcome): nat
  {
    if outcome == counted then 1 else 0
  }

  class ResilientSrvTopoServer {
    /** The cache TTL (the `srv_topo_cache_ttl` flag), fixed at construction. */
    const ttl: nat

    var srvKeyspaceNamesCache: map<string, CacheEntry<seq<string>>>
    var srvKeyspaceCache: map<string, CacheEntry<Option<SrvKeyspace>>>
    var endPointsCache: map<string, CacheEntry<Option<HealthFilter.EndPoints>>>

    /** The "query", "cached" and "error" counters. */
    var queryCount: nat
    var cachedCount: nat
    var errorCount: nat

    ghost predicate Valid()
      reads this
    {
      Injective(srvKeyspaceNamesCache) && Injective(srvKeyspaceCache) && Injective(endPointsCache)
    }

    /** `NewResilientSrvTopoServer`: empty tables and zero counters. */
    constructor (ttl: nat)
      ensures Valid() && this.ttl == ttl
      ensures srvKeyspaceNamesCache == map[] && srvKeyspaceCache == map[] && endPointsCache == map[]
      ensures queryCount == 0 && cachedCount == 0 && errorCount == 0
    {
      this.ttl := ttl;
      srvKeyspaceNamesCache := map[];
      srvKeyspaceCache := map[];
      endPointsCache := map[];
      queryCount, cachedCount, errorCount := 0, 0, 0;
    }

    /** Records a failed fetch in the "cached" or "error" counter. */
    method CountOutcome(outcome: Outcome)
      modifies this`cachedCount, this`errorCount
      ensures cachedCount == old(cachedCount) + Bump(outcome, ServedStale)
      ensures errorCount == old(errorCount) + Bump(outcome, Uncached)
    {
      if outcome == ServedStale {
        cachedCount := cachedCount + 1;
      } else if outcome == Uncached {
        errorCount := errorCount + 1;
      }
    }

    /** `GetSrvKeyspaceNames(cell)`; `upstream` is what the topology server answers. */
    method GetSrvKeyspaceNames(cell: string, now: nat, storeTime: nat,
                               upstream: Result<seq<string>, TopoError>)
      returns (result: Result<seq<string>, TopoError>)
      requires Valid()
      modifies this, if NamesKey(cell) in srvKeyspaceNamesCache then {srvKeyspaceNamesCache[NamesKey(cell)]} else {}
      ensures Valid()
      ensures srvKeyspaceNamesCache.Keys == old(srvKeyspaceNamesCache.Keys) + {NamesKey(cell)}
      ensures NamesKey(cell) !in old(srvKeyspaceNamesCache) ==> fresh(srvKeyspaceNamesCache[NamesKey(cell)])
      ensures forall k :: k in old(srvKeyspaceNamesCache) ==> srvKeyspaceNamesCache[k] == old(srvKeyspaceNamesCache[k])
      ensures forall k :: k in old(srvKeyspaceNamesCache) && k != NamesKey(cell) ==>
                srvKeyspaceNamesCache[k].State() == old(srvKeyspaceNamesCache[k].State())
      ensures var reply := Step(old(Prior(srvKeyspaceNamesCache, NamesKey(cell), [])), ttl, now, storeTime, upstream);
        && Reply(result, srvKeyspaceNamesCache[NamesKey(cell)].State(), reply.outcome) == reply
        && cachedCount == old(cachedCount) + Bump(reply.outcome, ServedStale)
        && errorCount == old(errorCount) + Bump(reply.outcome, Uncached)
      ensures srvKeyspaceCache == old(srvKeyspaceCache) && endPointsCache == old(endPointsCache)
      ensures unchanged(srvKeyspaceCache.Values) && unchanged(endPointsCache.Values)
      ensures queryCount == old(queryCount) + 1
    {
      queryCount := queryCount + 1;
      var key := NamesKey(cell);
      var outcome;
      srvKeyspaceNamesCache, result, outcome := Access(srvKeyspaceNamesCache, key, [], ttl, now, storeTime, upstream);
      CountOutcome(outcome);
    }

    /** `GetSrvKeyspace(cell, keyspace)`. */
    method GetSrvKeyspace(cell: string, keyspace: string, now: nat, storeTime: nat,
                          upstream: Result<Option<SrvKeyspace>, TopoError>)
      returns (result: Result<Option<SrvKeyspace>, TopoError>)
      requires Valid()
      modifies this, if KeyspaceKey(cell, keyspace) in srvKeyspaceCache then {srvKeyspaceCache[KeyspaceKey(cell, keyspace)]} else {}
      ensures Valid()
      ensures srvKeyspaceCache.Keys == old(srvKeyspaceCache.Keys) + {KeyspaceKey(cell, keyspace)}
      ensures KeyspaceKey(cell, keyspace) !in old(srvKeyspaceCache) ==> fresh(srvKeyspaceCache[KeyspaceKey(cell, keyspace)])
      ensures forall k :: k in old(srvKeyspaceCache) ==> srvKeyspaceCache[k] == old(srvKeyspaceCache[k])
      ensures forall k :: k in old(srvKeyspaceCache) && k != KeyspaceKey(cell, keyspace) ==>
                srvKeyspaceCache[k].State() == old(srvKeyspaceCache[k].State())
      ensures var reply := Step(old(Prior(srvKeyspaceCache, KeyspaceKey(cell, keyspace), None)), ttl, now, storeTime, upstream);
        && Reply(result, srvKeyspaceCache[KeyspaceKey(cell, keyspace)].State(), reply.outcome) == reply
        && cachedCount == old(cachedCount) + Bump(reply.outcome, ServedStale)
        && errorCount == old(errorCount) + Bump(reply.outcome, Uncached)
      ensures srvKeyspaceNamesCache == old(srvKeyspaceNamesCache) && endPointsCache == old(endPointsCache)
      ensures unchanged(srvKeyspaceNamesCache.Values) && unchanged(endPointsCache.Values)
      ensures queryCount == old(queryCount) + 1
    {
      queryCount := queryCount + 1;
      var key := KeyspaceKey(cell, keyspace);
      var outcome;
      srvKeyspaceCache, result, outcome := Access(srvKeyspaceCache, key, None, ttl, now, storeTime, upstream);
      CountOutcome(outcome);
    }

    /** `GetEndPoints(cell, keyspace, shard, tabletType)`: a successful upstream answer
        is health-filtered before it is stored and returned. */
    method GetEndPoints(cell: string, keyspace: string, shard: string, tabletType: string,
                        now: nat, storeTime: nat,
                        upstream: Result<Option<HealthFilter.EndPoints>, TopoError>)
      returns (result: Result<Option<HealthFilter.EndPoints>, TopoError>)
      requires Valid()
      modifies this, if EndPointsKey(cell, keyspace, shard, tabletType) in endPointsCache then {endPointsCache[EndPointsKey(cell, keyspace, shard, tabletType)]} else {}
      ensures Valid()
      ensures endPointsCache.Keys == old(endPointsCache.Keys) + {EndPointsKey(cell, keyspace, shard, tabletType)}
      ensures EndPointsKey(cell, keyspace, shard, tabletType) !in old(endPointsCache) ==> fresh(endPointsCache[EndPointsKey(cell, keyspace, shard, tabletType)])
      ensures forall k :: k in old(endPointsCache) ==> endPointsCache[k] == old(endPointsCache[k])
      ensures forall k :: k in old(endPointsCache) && k != EndPointsKey(cell, keyspace, shard, tabletType) ==>
                endPointsCache[k].State() == old(endPointsCache[k].State())
      ensures var reply := Step(old(Prior(endPointsCache, EndPointsKey(cell, keyspace, shard, tabletType), None)), ttl, now, storeTime, FilteredFetch(upstream));
        && Reply(result, endPointsCache[EndPointsKey(cell, keyspace, shard, tabletType)].State(), reply.outcome) == reply
        && cachedCount == old(cachedCount) + Bump(reply.outcome, ServedStale)
        && errorCount == old(errorCount) + Bump(reply.outcome, Uncached)
      ensures srvKeyspaceNamesCache == old(srvKeyspaceNamesCache) && srvKeyspaceCache == old(srvKeyspaceCache)
      ensures unchanged(srvKeyspaceNamesCache.Values) && unchanged(srvKeyspaceCache.Values)
      ensures queryCount == old(queryCount) + 1
    {
      queryCount := queryCount + 1;
      var key := EndPointsKey(cell, keyspace, shard, tabletType);
      var fetched := FilterFetched(upstream);
      var outcome;
      endPointsCache, result, outcome := Access(endPointsCache, key, None, ttl, now, storeTime, fetched);
      CountOutcome(outcome);
    }
  }
}
