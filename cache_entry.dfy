/**
 * One slot of the serving-graph cache: the `srvKeyspaceNamesEntry`, `srvKeyspaceEntry`
 * and `endPointsEntry` structs of go/vt/vtgate/srv_topo_server.go, which share one
 * shape (insertion time and last value) and one refresh policy, written once here
 * over the payload type `V`.
 */
module SrvTopoCache {
  import opened Wrappers

  /** The error an upstream topology call returns; its cause is not distinguished. */
  datatype TopoError = TopoError(message: string)

  /** The contents of an entry. `insertionTime == None` is Go's zero time: no value
      was ever fetched, and `value` still holds the Go zero value of its type. */
  datatype EntryState<V> = EntryState(insertionTime: Option<nat>, value: V)

  /** The zero entry that a lookup inserts for a new key; `zero` is the payload
      type's Go zero value (nil). */
  function Unset<V>(zero: V): EntryState<V>
  {
    EntryState(None, zero)
  }

  /** How a call was answered, which decides the counter it bumps. */
  datatype Outcome =
    | Hit          // fresh value served, upstream not asked
    | Refreshed    // upstream answered, value and time stored
    | ServedStale  // upstream failed, previous value served ("cached" counter)
    | Uncached     // upstream failed and nothing was ever cached ("error" counter)

  /** What one call returns to its caller, with the entry it leaves behind. */
  datatype Reply<V> = Reply(result: Result<V, TopoError>, next: EntryState<V>, outcome: Outcome)

  /** `time.Now().Sub(insertionTime) < ttl`. A zero insertion time gives the largest
      duration in Go, which no TTL exceeds, so an unset entry is never fresh. A clock
      reading before the insertion time gives a negative age, which is fresh. */
  predicate IsFresh<V>(s: EntryState<V>, ttl: nat, now: nat): (r: bool)
    ensures r ==> s.insertionTime.Some?
    ensures s.insertionTime.Some? ==> (r <==> now < s.insertionTime.value + ttl)
  {
    s.insertionTime.Some? && now - s.insertionTime.value < ttl
  }

  /** The refresh policy of one call on one entry. `fetched` is what upstream answers
      when asked; `storeTime` is the second clock reading taken before storing. */
  function Step<V>(s: EntryState<V>, ttl: nat, now: nat, storeTime: nat,
                   fetched: Result<V, TopoError>): (r: Reply<V>)
    ensures r.result.Err? ==> r.outcome == Uncached && r.next == s
    ensures r.outcome == Refreshed ==> fetched.Ok? && r.next == EntryState(Some(storeTime), fetched.value)
  {
    if IsFresh(s, ttl, now) then Reply(Ok(s.value), s, Hit)
    else match fetched
      case Err(e) =>
        if s.insertionTime.None? then Reply(Err(e), s, Uncached)
        else Reply(Ok(s.value), s, ServedStale)
      case Ok(v) => Reply(Ok(v), EntryState(Some(storeTime), v), Refreshed)
  }

  /** Fresh hit: the stored value is returned and the entry is left alone, whatever
      upstream would have answered. */
  lemma StepFreshHit<V>(s: EntryState<V>, ttl: nat, now: nat, storeTime: nat,
                        fetched: Result<V, TopoError>, other: Result<V, TopoError>)
    requires IsFresh(s, ttl, now)
    ensures Step(s, ttl, now, storeTime, fetched) == Reply(Ok(s.value), s, Hit)
    ensures Step(s, ttl, now, storeTime, fetched) == Step(s, ttl, now, storeTime, other)
  {
  }

  /** Never-populated failure: the upstream error reaches the caller, the entry stays
      unset. No freshness assumption is needed, since an unset entry is never fresh. */
  lemma StepUncachedFailure<V>(s: EntryState<V>, ttl: nat, now: nat, storeTime: nat, e: TopoError)
    requires s.insertionTime.None?
    ensures Step(s, ttl, now, storeTime, Err(e)) == Reply(Err(e), s, Uncached)
  {
  }

  /** Stale serve: a failure after an earlier success returns the stored value and
      leaves time and value as they were, so the next call asks upstream again. */
  lemma StepServeStale<V>(s: EntryState<V>, ttl: nat, now: nat, storeTime: nat, e: TopoError)
    requires s.insertionTime.Some? && !IsFresh(s, ttl, now)
    ensures Step(s, ttl, now, storeTime, Err(e)) == Reply(Ok(s.value), s, ServedStale)
    ensures !IsFresh(Step(s, ttl, now, storeTime, Err(e)).next, ttl, now)
  {
  }

  /** Successful refresh: the fetched value is stored with the store time and is
      exactly what the caller gets. */
  lemma StepRefresh<V>(s: EntryState<V>, ttl: nat, now: nat, storeTime: nat, v: V)
    requires !IsFresh(s, ttl, now)
    ensures Step(s, ttl, now, storeTime, Ok(v)) ==
            Reply(Ok(v), EntryState(Some(storeTime), v), Refreshed)
  {
  }

  /** The caller sees an error only when upstream failed on an entry that never held
      a value; every other call returns a value. */
  lemma StepErrorIff<V>(s: EntryState<V>, ttl: nat, now: nat, storeTime: nat,
                        fetched: Result<V, TopoError>)
    ensures Step(s, ttl, now, storeTime, fetched).result.Err? <==>
            s.insertionTime.None? && fetched.Err?
    ensures Step(s, ttl, now, storeTime, fetched).result.Err? ==>
            Step(s, ttl, now, storeTime, fetched).result == Err(fetched.error)
  {
  }

  /** TTL window: a value stored at `t0` is served without asking upstream for every
      call in [t0, t0 + ttl), and a call at or after t0 + ttl asks again. */
  lemma FreshWindow<V>(t0: nat, v: V, ttl: nat, now: nat, storeTime: nat,
                       fetched: Result<V, TopoError>)
    ensures var s := EntryState(Some(t0), v);
      t0 <= now < t0 + ttl ==> Step(s, ttl, now, storeTime, fetched) == Reply(Ok(v), s, Hit)
    ensures var s := EntryState(Some(t0), v);
      now >= t0 + ttl ==> Step(s, ttl, now, storeTime, fetched).outcome != Hit
  {
  }

  /** The arguments of one call as seen by an entry. */
  datatype Call<V> = Call(now: nat, storeTime: nat, fetched: Result<V, TopoError>)

  /** Successive calls on one entry: the final entry and what each call returned. */
  function Run<V>(s: EntryState<V>, ttl: nat, calls: seq<Call<V>>): (r: (EntryState<V>, seq<Result<V, TopoError>>))
    ensures |r.1| == |calls|
    decreases |calls|
  {
    if calls == [] then (s, [])
    else
      var c := calls[0];
      var reply := Step(s, ttl, c.now, c.storeTime, c.fetched);
      var rest := Run(reply.next, ttl, calls[1..]);
      (rest.0, [reply.result] + rest.1)
  }

  predicate AllFail<V>(calls: seq<Call<V>>)
  {
    forall i :: 0 <= i < |calls| ==> calls[i].fetched.Err?
  }

  /** Failures never change an entry: if upstream fails on every call, the entry ends
      as it started. */
  lemma {:induction false} RunFailuresKeepEntry<V>(s: EntryState<V>, ttl: nat, calls: seq<Call<V>>)
    requires AllFail(calls)
    ensures Run(s, ttl, calls).0 == s
  {
    if calls != [] {
      assert AllFail(calls[1..]) by {
        forall i | 0 <= i < |calls[1..]| ensures calls[1..][i].fetched.Err? {
          assert calls[1..][i] == calls[i + 1];
        }
      }
      RunFailuresKeepEntry(s, ttl, calls[1..]);
    }
  }

  /** If upstream always fails and the key never succeeded, every call returns the
      upstream error of that call and never a value. */
  lemma {:induction false} RunNeverPopulatedAlwaysFails<V>(s: EntryState<V>, ttl: nat, calls: seq<Call<V>>)
    requires s.insertionTime.None? && AllFail(calls)
    ensures forall i :: 0 <= i < |calls| ==> Run(s, ttl, calls).1[i] == Err(calls[i].fetched.error)
  {
    if calls != [] {
      assert AllFail(calls[1..]) by {
        forall i | 0 <= i < |calls[1..]| ensures calls[1..][i].fetched.Err? {
          assert calls[1..][i] == calls[i + 1];
        }
      }
      RunNeverPopulatedAlwaysFails(s, ttl, calls[1..]);
      forall i | 0 <= i < |calls| ensures Run(s, ttl, calls).1[i] == Err(calls[i].fetched.error) {
        if i > 0 {
          assert calls[1..][i - 1] == calls[i];
        }
      }
    }
  }

  /** After a success, failures are absorbed for ever: every later call returns the
      last fetched value with no error, until upstream succeeds again. */
  lemma {:induction false} RunStaleForever<V>(t0: nat, v: V, ttl: nat, calls: seq<Call<V>>)
    requires AllFail(calls)
    ensures forall i :: 0 <= i < |calls| ==> Run(EntryState(Some(t0), v), ttl, calls).1[i] == Ok(v)
  {
    if calls != [] {
      assert AllFail(calls[1..]) by {
        forall i | 0 <= i < |calls[1..]| ensures calls[1..][i].fetched.Err? {
          assert calls[1..][i] == calls[i + 1];
        }
      }
      RunStaleForever(t0, v, ttl, calls[1..]);
      forall i | 0 <= i < |calls| ensures Run(EntryState(Some(t0), v), ttl, calls).1[i] == Ok(v) {
        if i > 0 {
          assert calls[1..][i - 1] == calls[i];
        }
      }
    }
  }

  /** Once set, an insertion time is never cleared again, whatever upstream answers. */
  lemma {:induction false} RunKeepsPopulated<V>(s: EntryState<V>, ttl: nat, calls: seq<Call<V>>)
    requires s.insertionTime.Some?
    ensures Run(s, ttl, calls).0.insertionTime.Some?
    decreases |calls|
  {
    if calls != [] {
      var c := calls[0];
      RunKeepsPopulated(Step(s, ttl, c.now, c.storeTime, c.fetched).next, ttl, calls[1..]);
    }
  }

  /** A cache slot as the Go code keeps it: a heap object whose two fields are
      assigned in place. */
  class CacheEntry<V> {
    var insertionTime: Option<nat>
    var value: V

    /** The Go zero entry `&srvKeyspaceNamesEntry{}` (and its two siblings). */
    constructor (zero: V)
      ensures State() == Unset(zero)
    {
      insertionTime := None;
      value := zero;
    }

    function State(): EntryState<V>
      reads this
    {
      EntryState(insertionTime, value)
    }

    /** The body of each Get method after its entry is found: serve fresh, else ask
        upstream, store on success, and on failure serve stale or return the error. */
    method GetOrRefresh(ttl: nat, now: nat, storeTime: nat, fetched: Result<V, TopoError>)
      returns (result: Result<V, TopoError>, outcome: Outcome)
      modifies this
      ensures Reply(result, State(), outcome) == Step(old(State()), ttl, now, storeTime, fetched)
    {
      if IsFresh(State(), ttl, now) {
        return Ok(value), Hit;
      }
      if fetched.Err? {
        if insertionTime.None? {
          return Err(fetched.error), Uncached;
        }
        return Ok(value), ServedStale;
      }
      insertionTime := Some(storeTime);
      value := fetched.value;
      return Ok(fetched.value), Refreshed;
    }
  }

  /** No two keys of a table share an entry object, so a call changes one key only. */
  ghost predicate Injective<V>(m: map<string, CacheEntry<V>>)
  {
    forall a, b :: a in m && b in m && a != b ==> m[a] != m[b]
  }

  /** What a table holds for `key` before a call: the entry's contents, or the zero
      entry that a lookup would insert. */
  ghost function Prior<V>(m: map<string, CacheEntry<V>>, key: string, zero: V): EntryState<V>
    reads m.Values
  {
    if key in m then m[key].State() else Unset(zero)
  }

  /** The lookup-or-create step under the table lock: an existing entry is returned
      and the table kept; a missing key gets a new zero entry and nothing else changes. */
  method LookupOrCreate<V>(m: map<string, CacheEntry<V>>, key: string, zero: V)
    returns (m': map<string, CacheEntry<V>>, entry: CacheEntry<V>)
    requires Injective(m)
    ensures Injective(m') && key in m' && m'[key] == entry
    ensures key in m ==> m' == m && entry == m[key]
    ensures key !in m ==> fresh(entry) && entry.State() == Unset(zero) && m' == m[key := entry]
  {
    if key in m {
      entry := m[key];
      m' := m;
    } else {
      entry := new CacheEntry(zero);
      m' := m[key := entry];
    }
  }

  /** One Get call on one table: find or create the entry for `key` and let it answer.
      The table gains at most that key and keeps every entry object; only the key's
      entry changes (the modifies clause names nothing else). */
  method Access<V>(m: map<string, CacheEntry<V>>, key: string, zero: V,
                   ttl: nat, now: nat, storeTime: nat, fetched: Result<V, TopoError>)
    returns (m': map<string, CacheEntry<V>>, result: Result<V, TopoError>, outcome: Outcome)
    requires Injective(m)
    modifies if key in m then {m[key]} else {}
    ensures Injective(m')
    ensures key in m' && m' == m[key := m'[key]]
    ensures key in m ==> m'[key] == m[key]
    ensures key !in m ==> fresh(m'[key])
    ensures Reply(result, m'[key].State(), outcome) == Step(old(Prior(m, key, zero)), ttl, now, storeTime, fetched)
  {
    var entry;
    m', entry := LookupOrCreate(m, key, zero);
    result, outcome := entry.GetOrRefresh(ttl, now, storeTime, fetched);
  }
}
