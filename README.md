# Resilient serving-graph cache (vitess vtgate), modelled in Dafny

vtgate resolves serving addresses through `ResilientSrvTopoServer`. This is a read-through
cache in front of a topology server, serving three kinds of lookups:
- the keyspace names of a cell;
- the `SrvKeyspace` record of a keyspace;
- the serving endpoints of a shard and tablet type.

Each lookup has its own table. The table maps a key to an entry holding the last fetched value
and the time it was fetched.

A call works like this:
- A value younger than the TTL is served without asking upstream.
- Otherwise upstream is asked. A success is stored with the current time.
- A failure is returned to the caller only if the key never held a value. Otherwise the old value
  is served and its time is left alone, so the next call asks again.
- Endpoint lists are health-filtered before they are stored. Endpoints whose replication lag is
  "high" are dropped, unless that would drop them all.

The files:
- `wrappers.dfy`: `Option` and `Result`. A Go `(value, error)` return is a `Result`. A nil
  pointer is `None`.
- `health_filter.dfy` (module `HealthFilter`): `filterUnhealthyServers`. The loop is method
  `FilterUnhealthyServers`, proved equal to the function `Filtered`. The lemmas about that
  function are: healthy subsequence in the original order, fail-open fallback, nil/empty
  pass-through, and idempotence.
- `cache_entry.dfy` (module `SrvTopoCache`): the three entry structs as one generic class
  `CacheEntry<V>`, whose fields are assigned in place. The refresh policy is the pure function
  `Step`, which `CacheEntry.GetOrRefresh` is proved against. `Run` folds `Step` over a sequence of
  calls. Lemmas about `Step` and `Run` state the policy. `LookupOrCreate` and `Access` are the
  table lookup and one call on one table.
- `srv_topo_server.dfy` (module `ResilientSrvTopo`): the class `ResilientSrvTopoServer`. It has
  the three maps, the `query`/`cached`/`error` counters and the TTL. Its three `Get` methods are
  each proved to follow `Step` on their own key and to change nothing else. The module also has
  the key functions and lemmas about them, and a scenario for the endpoints table.

Conventions of the model:
- Time is a `nat` passed in by the caller:
  - `now` is the reading at line 112;
  - `storeTime` is the second reading at line 131, kept separate because the code reads the clock
    twice.
- The TTL is a constructor argument in place of the `srv_topo_cache_ttl` flag.
- Go's zero `time.Time` is `insertionTime == None`. It is never fresh: in Go, `Sub` from the zero
  time saturates at the largest duration, which no TTL exceeds.
- A clock reading earlier than the stored time gives a negative age, which is fresh, as in Go.
- Upstream's answer is a `Result` argument, because the topology server is a foreign interface.
  It counts only when the entry is not fresh, and the lemmas show that a fresh call does not
  depend on it.
- A new entry holds the Go zero value of its payload: `[]` for the names list, `None` for the two
  pointer payloads.

About keys and clock readings:
- Keys are joined with ":" as the code builds them (lines 140 and 184: `cell + ":" + keyspace`,
  and so on). They are therefore not injective in general: `KeyspaceKeysCanCollide` exhibits two
  requests that share an entry. `KeyspaceKeyInjective` and `EndPointsKeyInjective` prove
  injectivity when the components before the last contain no ':'.
- The stored time is the second clock reading at line 131, not the `now` used for the freshness
  test at line 112.

## Model

| member | source | states |
|---|---|---|
| HealthFilter.FilterUnhealthyServers | go/vt/vtgate/srv_topo_server.go:229-252 | the loop's result is exactly `Filtered(endPoints)`: nil/empty input returned as is; otherwise the healthy endpoints when there are any, else the original list |
| HealthFilter.Lookup | go/vt/vtgate/srv_topo_server.go:238 | the health map is read as Go indexes a map: a present key gives its value, and a non-empty reading comes only from a present key |
| HealthFilter.IsHealthy | go/vt/vtgate/srv_topo_server.go:238 | an endpoint is healthy iff its health map does not hold "high" under the replication-lag key; one with no such key (or a nil map) is healthy |
| HealthFilter.Filtered | go/vt/vtgate/srv_topo_server.go:229-252 | nil stays nil and a list stays a list; the result is never longer than the input, and it is empty only when the input is |
| HealthFilter.HealthyOf | go/vt/vtgate/srv_topo_server.go:235-243 | the healthy list is no longer than the input and holds only healthy endpoints |
| HealthFilter.HealthyOfIsHealthySubsequence | go/vt/vtgate/srv_topo_server.go:235-243 | the healthy list is the input at a strictly increasing sequence of positions, and a position is among them iff its endpoint is healthy (original relative order, nothing else kept) |
| HealthFilter.HealthyIndicesShape | go/vt/vtgate/srv_topo_server.go:236-243 | the positions of kept endpoints are in range and strictly increasing, one per kept endpoint |
| HealthFilter.HealthyIndicesSelect | go/vt/vtgate/srv_topo_server.go:236-243 | each kept endpoint is the input's endpoint at its recorded position |
| HealthFilter.HealthyIndicesComplete | go/vt/vtgate/srv_topo_server.go:236-243 | a position is recorded iff the endpoint there is not reporting high replication lag |
| HealthFilter.HealthyOfMembers | go/vt/vtgate/srv_topo_server.go:236-243 | an endpoint is kept iff it is in the input and healthy |
| HealthFilter.HealthyOfEmptyIff | go/vt/vtgate/srv_topo_server.go:238-246 | nothing is kept iff every endpoint reports high replication lag |
| HealthFilter.HealthyOfAllHealthy | go/vt/vtgate/srv_topo_server.go:236-243 | a list with no unhealthy endpoint is kept whole |
| HealthFilter.FilterNilOrEmpty | go/vt/vtgate/srv_topo_server.go:230-233 | a nil or empty endpoint list is returned unchanged |
| HealthFilter.FilterKeepsHealthy | go/vt/vtgate/srv_topo_server.go:245-248 | with at least one healthy endpoint the result is exactly the healthy ones in order, no longer than the input, with the same membership as "in the input and healthy" |
| HealthFilter.FilterFailOpen | go/vt/vtgate/srv_topo_server.go:250-251 | when every endpoint is unhealthy the original list is returned |
| HealthFilter.FilterAllHealthy | go/vt/vtgate/srv_topo_server.go:235-248 | an all-healthy list is returned equal to the input |
| HealthFilter.FilterIdempotent | go/vt/vtgate/srv_topo_server.go:229-252 | filtering a filtered list changes nothing |
| SrvTopoCache.IsFresh | go/vt/vtgate/srv_topo_server.go:112 | only an entry with an insertion time can be fresh (Go's zero time never is); one stored at t is fresh at `now` iff `now < t + ttl` |
| SrvTopoCache.Step | go/vt/vtgate/srv_topo_server.go:111-133 | a call returns an error only as an uncached failure that leaves the entry as it was; a refresh stores the fetched value with the store time |
| SrvTopoCache.StepFreshHit | go/vt/vtgate/srv_topo_server.go:111-114 | a fresh entry returns its stored value with no error, keeps time and value, and the answer does not depend on what upstream would say |
| SrvTopoCache.StepUncachedFailure | go/vt/vtgate/srv_topo_server.go:118-122 | an upstream error on a never-set entry is returned as that error, the entry stays unset and the outcome is the error-counter one |
| SrvTopoCache.StepServeStale | go/vt/vtgate/srv_topo_server.go:123-126 | an upstream error after an earlier success returns the stored value with no error, leaves time and value unchanged (still not fresh, so the next call retries) and is the cached-counter outcome |
| SrvTopoCache.StepRefresh | go/vt/vtgate/srv_topo_server.go:130-133 | a successful fetch on a stale or unset entry stores the value with the store time and returns that same value |
| SrvTopoCache.StepErrorIff | go/vt/vtgate/srv_topo_server.go:116-133 | the caller sees an error iff upstream failed and the entry never held a value, and then it is upstream's error |
| SrvTopoCache.FreshWindow | go/vt/vtgate/srv_topo_server.go:111-114 | a value stored at t0 is served without a fetch for every call in [t0, t0 + ttl), and any call at or after t0 + ttl is not a cache hit |
| SrvTopoCache.RunFailuresKeepEntry | go/vt/vtgate/srv_topo_server.go:116-127 | any number of calls on which upstream fails leave the entry exactly as it was |
| SrvTopoCache.RunNeverPopulatedAlwaysFails | go/vt/vtgate/srv_topo_server.go:118-122 | if upstream always fails on a never-set entry, every call returns that call's upstream error and never a value |
| SrvTopoCache.RunStaleForever | go/vt/vtgate/srv_topo_server.go:123-126 | after a success, every later call on which upstream fails returns the last fetched value with no error |
| SrvTopoCache.RunKeepsPopulated | go/vt/vtgate/srv_topo_server.go:118-133 | once set, an insertion time is never cleared by any sequence of calls |
| SrvTopoCache.CacheEntry.constructor | go/vt/vtgate/srv_topo_server.go:55-77 | a new entry has no insertion time and holds the payload's zero value |
| SrvTopoCache.CacheEntry.GetOrRefresh | go/vt/vtgate/srv_topo_server.go:111-133 | the returned value or error, the entry's new time and value, and the outcome are exactly those of `Step` on the entry's old contents |
| SrvTopoCache.LookupOrCreate | go/vt/vtgate/srv_topo_server.go:95-103 | an existing entry is returned and the table kept; a missing key gets a new zero entry and the table gains only that key |
| SrvTopoCache.Access | go/vt/vtgate/srv_topo_server.go:95-133 | one call on one table: the table gains at most the key, keeps every entry object and key-to-entry injectivity, a new key's entry is newly allocated, only the key's entry may change, and the reply follows `Step` on its earlier contents (the zero entry for a new key) |
| ResilientSrvTopo.NamesKeyInjective | go/vt/vtgate/srv_topo_server.go:96 | the names table is keyed by the cell alone, so two cells share an entry iff they are equal |
| ResilientSrvTopo.KeyspaceKey | go/vt/vtgate/srv_topo_server.go:140 | the key is the cell, then ':' at position `|cell|`, then the keyspace |
| ResilientSrvTopo.EndPointsKey | go/vt/vtgate/srv_topo_server.go:184 | the key begins with the keyspace key of its cell and keyspace, followed by ':', ends with the tablet type, and has the four parts' lengths plus three separators |
| ResilientSrvTopo.SplitAtColon | go/vt/vtgate/srv_topo_server.go:140 | two keys `a + ":" + b` whose heads have no ':' are equal only if heads and tails are equal |
| ResilientSrvTopo.KeyspaceKeyInjective | go/vt/vtgate/srv_topo_server.go:140 | when cells contain no ':', keyspace keys are equal iff cell and keyspace are |
| ResilientSrvTopo.EndPointsKeyInjective | go/vt/vtgate/srv_topo_server.go:184 | when cell, keyspace and shard contain no ':', endpoint keys are equal iff all four parts are |
| ResilientSrvTopo.KeyspaceKeysCanCollide | go/vt/vtgate/srv_topo_server.go:140 | cell "a:b" with keyspace "c" and cell "a" with keyspace "b:c" build the same key |
| ResilientSrvTopo.FilteredFetch | go/vt/vtgate/srv_topo_server.go:205-219 | an upstream error reaches the entry unchanged; a successful answer keeps its nil-ness and is never longer than upstream's list, and is empty only when that list is |
| ResilientSrvTopo.FilterFetched | go/vt/vtgate/srv_topo_server.go:218-219 | a successful upstream endpoint answer is replaced by its health-filtered list; an error passes through |
| ResilientSrvTopo.EndPointsScenario | go/vt/vtgate/srv_topo_server.go:199-224 | with TTL 10: a fetch at 0 stores [A]; a call at 5 is a hit; a failed refresh at 12 serves [A]; a fetch of [A, B(lag high)] at 25 stores and returns [A] |
| ResilientSrvTopo.ResilientSrvTopoServer.constructor | go/vt/vtgate/srv_topo_server.go:81-90 | three empty tables, zero counters, the given TTL |
| ResilientSrvTopo.ResilientSrvTopoServer.CountOutcome | go/vt/vtgate/srv_topo_server.go:119-127 | the "cached" counter rises by one on a stale serve, the "error" counter on an uncached failure, neither otherwise |
| ResilientSrvTopo.ResilientSrvTopoServer.GetSrvKeyspaceNames | go/vt/vtgate/srv_topo_server.go:92-134 | the query counter rises by one; the names table, keyed by the cell, gains at most that key and keeps its entry objects, a new key's entry being newly allocated; only that key's entry changes, as `Step` says from its earlier contents; the result and the cached/error counters follow the same `Step`; the other tables are untouched |
| ResilientSrvTopo.ResilientSrvTopoServer.GetSrvKeyspace | go/vt/vtgate/srv_topo_server.go:136-178 | the same for the keyspace table under the key `cell + ":" + keyspace` |
| ResilientSrvTopo.ResilientSrvTopoServer.GetEndPoints | go/vt/vtgate/srv_topo_server.go:180-225 | the same for the endpoints table under the key `cell:keyspace:shard:tabletType`, with `Step` given the health-filtered upstream answer, so a refresh stores and returns the filtered list |

## Left out

- Mutexes: `server.mutex` guards the map lookup and `entry.mutex` guards each refresh. They give single-flight coalescing (one upstream call per key for concurrent callers) and make keys independent. The model has no concurrency: each call is one atomic step.
- Logging (`log.Errorf`, `log.Warningf`): output only. The stats object is reduced to three `nat` counters.
- The `srv_topo_cache_ttl` flag and its 1-second default: the TTL is a constructor argument.
- `time.Now` and `Duration` arithmetic: times are caller-supplied `nat` values. The nanosecond width and `Sub`'s saturation are captured only as far as "the zero time is never fresh".
- The `SrvTopoServer` interface and its implementations: each call takes upstream's answer as an argument. The model does not show that upstream is called at most once per call, or not at all on a fresh hit. It only shows that a fresh hit's reply does not depend on that answer.
- `topo.SrvKeyspace` is a datatype with one opaque string. `topo.EndPoint` is reduced to a host and its health map: `Uid` and `NamedPortMap` are not modelled, because the filter only reads `Health`. A nil health map is the empty map, which Go reads the same way.
- The values of `health.ReplicationLag` and `health.ReplicationLagHigh`: they live in go/vt/health, which is not part of this model. They are fixed constants here, and the properties rely only on "high" not being the empty string.
- Where the endpoint filter runs: `GetEndPoints` runs it before the entry's freshness test, where the code filters only after a successful fetch. The filter is pure, so the result and the new state are the same.
- `ttl` is a `nat`: a negative `srv_topo_cache_ttl`, which Go accepts and which makes nearly every call refresh, cannot be expressed.
- Payloads are values: in Go the caller receives the same `*topo.SrvKeyspace` or `*topo.EndPoints` pointer the cache stores, and on fail-open line 251 stores upstream's own pointer. Sharing and later mutation through those pointers are not modelled.
