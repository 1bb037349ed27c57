/**
 * The endpoint health filter of the serving-graph cache
 * (`filterUnhealthyServers` in go/vt/vtgate/srv_topo_server.go).
 */
module HealthFilter {
  import opened Wrappers

  /** Health-map key and level for replication lag; both come from go/vt/health,
      which is not part of this model. Only their being fixed strings matters. */
  const ReplicationLag: string := "replication_lag"
  const ReplicationLagHigh: string := "high"

  /** One serving address with its health map (a nil Go map is the empty map). */
  datatype EndPoint = EndPoint(host: string, health: map<string, string>)

  /** The `topo.EndPoints` record: an ordered list of endpoints. */
  datatype EndPoints = EndPoints(entries: seq<EndPoint>)

  /** Go's map index: a missing key reads as the empty string. */
  function Lookup(m: map<string, string>, key: string): (r: string)
    ensures key in m ==> r == m[key]
    ensures r != "" ==> key in m
  {
    if key in m then m[key] else ""
  }

  /** An endpoint is unhealthy exactly when its replication lag is reported high;
      one that reports no replication lag at all is healthy. */
  predicate IsHealthy(ep: EndPoint): (r: bool)
    ensures r <==> !(ReplicationLag in ep.health && ep.health[ReplicationLag] == ReplicationLagHigh)
    ensures ReplicationLag !in ep.health ==> r
  {
    Lookup(ep.health, ReplicationLag) != ReplicationLagHigh
  }

  /** The healthy endpoints of `s`, in their original order. */
  function HealthyOf(s: seq<EndPoint>): (r: seq<EndPoint>)
    ensures |r| <= |s|
    ensures forall k :: 0 <= k < |r| ==> IsHealthy(r[k])
  {
    if s == [] then []
    else HealthyOf(s[..|s| - 1]) + (if IsHealthy(s[|s| - 1]) then [s[|s| - 1]] else [])
  }

  /** The positions of the healthy endpoints of `s`, ascending (a witness for HealthyOf). */
  function HealthyIndices(s: seq<EndPoint>): (r: seq<nat>)
  {
    if s == [] then []
    else HealthyIndices(s[..|s| - 1]) + (if IsHealthy(s[|s| - 1]) then [|s| - 1] else [])
  }

  predicate StrictlyIncreasing(idx: seq<nat>)
  {
    forall i, j :: 0 <= i < j < |idx| ==> idx[i] < idx[j]
  }

  /** What `filterUnhealthyServers` returns: nil or empty input unchanged; otherwise the
      healthy endpoints if there are any, and the original list if there are none. */
  function Filtered(endPoints: Option<EndPoints>): (r: Option<EndPoints>)
    ensures r.None? <==> endPoints.None?
    ensures r.Some? ==> |r.value.entries| <= |endPoints.value.entries|
    ensures r.Some? ==> (|r.value.entries| == 0 <==> |endPoints.value.entries| == 0)
  {
    if endPoints.None? || |endPoints.value.entries| == 0 then endPoints
    else
      var healthy := HealthyOf(endPoints.value.entries);
      if |healthy| > 0 then Some(EndPoints(healthy)) else endPoints
  }

  /** The Go loop: builds the healthy list with one append per healthy endpoint. */
  method FilterUnhealthyServers(endPoints: Option<EndPoints>) returns (r: Option<EndPoints>)
    ensures r == Filtered(endPoints)
  {
    if endPoints.None? || |endPoints.value.entries| == 0 {
      return endPoints;
    }
    var entries := endPoints.value.entries;
    var healthyEndPoints: seq<EndPoint> := [];
    for i := 0 to |entries|
      invariant healthyEndPoints == HealthyOf(entries[..i])
    {
      assert entries[..i + 1][..i] == entries[..i];
      if !IsHealthy(entries[i]) {
        continue;
      }
      healthyEndPoints := healthyEndPoints + [entries[i]];
    }
    assert entries[..|entries|] == entries;
    if |healthyEndPoints| > 0 {
      return Some(EndPoints(healthyEndPoints));
    }
    return endPoints;
  }

  /** The healthy positions lie in range, ascend strictly, and exist for each kept endpoint. */
  lemma {:induction false} HealthyIndicesShape(s: seq<EndPoint>)
    ensures |HealthyIndices(s)| == |HealthyOf(s)|
    ensures forall k :: 0 <= k < |HealthyIndices(s)| ==> HealthyIndices(s)[k] < |s|
    ensures StrictlyIncreasing(HealthyIndices(s))
  {
    if s != [] {
      HealthyIndicesShape(s[..|s| - 1]);
    }
  }

  /** Each kept endpoint is the input's endpoint at the matching healthy position. */
  lemma {:induction false} HealthyIndicesSelect(s: seq<EndPoint>)
    ensures |HealthyIndices(s)| == |HealthyOf(s)|
    ensures forall k :: 0 <= k < |HealthyOf(s)| ==>
              HealthyIndices(s)[k] < |s| && HealthyOf(s)[k] == s[HealthyIndices(s)[k]]
  {
    if s != [] {
      var init := s[..|s| - 1];
      HealthyIndicesShape(init);
      HealthyIndicesSelect(init);
      assert forall k :: 0 <= k < |HealthyOf(init)| ==> HealthyOf(init)[k] == s[HealthyIndices(init)[k]];
    }
  }

  /** A position is listed iff the endpoint there is healthy. */
  lemma {:induction false} HealthyIndicesComplete(s: seq<EndPoint>)
    ensures forall j :: 0 <= j < |s| ==> (j in HealthyIndices(s) <==> IsHealthy(s[j]))
  {
    if s != [] {
      var init := s[..|s| - 1];
      HealthyIndicesComplete(init);
      HealthyIndicesShape(init);
      assert |s| - 1 !in HealthyIndices(init);
      assert forall j :: 0 <= j < |init| ==> init[j] == s[j];
    }
  }

  /** HealthyOf picks out exactly the healthy positions of `s`, in ascending order:
      it is the subsequence of `s` at the indices whose endpoint is healthy. */
  lemma HealthyOfIsHealthySubsequence(s: seq<EndPoint>)
    ensures var idx := HealthyIndices(s);
      && |idx| == |HealthyOf(s)|
      && StrictlyIncreasing(idx)
      && (forall k :: 0 <= k < |idx| ==> idx[k] < |s| && HealthyOf(s)[k] == s[idx[k]])
      && (forall j :: 0 <= j < |s| ==> (j in idx <==> IsHealthy(s[j])))
  {
    HealthyIndicesShape(s);
    HealthyIndicesSelect(s);
    HealthyIndicesComplete(s);
  }

  /** Membership: an endpoint is in HealthyOf(s) iff it is in `s` and healthy. */
  lemma {:induction false} HealthyOfMembers(s: seq<EndPoint>, ep: EndPoint)
    ensures ep in HealthyOf(s) <==> ep in s && IsHealthy(ep)
  {
    if s != [] {
      var init := s[..|s| - 1];
      HealthyOfMembers(init, ep);
      assert s == init + [s[|s| - 1]];
    }
  }

  /** HealthyOf is empty iff no endpoint of `s` is healthy. */
  lemma {:induction false} HealthyOfEmptyIff(s: seq<EndPoint>)
    ensures HealthyOf(s) == [] <==> forall k :: 0 <= k < |s| ==> !IsHealthy(s[k])
  {
    if s != [] {
      var init := s[..|s| - 1];
      HealthyOfEmptyIff(init);
      assert forall k :: 0 <= k < |init| ==> init[k] == s[k];
    }
  }

  /** A list of only healthy endpoints passes through HealthyOf unchanged. */
  lemma {:induction false} HealthyOfAllHealthy(s: seq<EndPoint>)
    requires forall k :: 0 <= k < |s| ==> IsHealthy(s[k])
    ensures HealthyOf(s) == s
  {
    if s != [] {
      var init := s[..|s| - 1];
      assert forall k :: 0 <= k < |init| ==> init[k] == s[k];
      HealthyOfAllHealthy(init);
      assert s == init + [s[|s| - 1]];
    }
  }

  /** A nil or empty endpoint list is returned as it is. */
  lemma FilterNilOrEmpty(endPoints: Option<EndPoints>)
    requires endPoints.None? || endPoints.value.entries == []
    ensures Filtered(endPoints) == endPoints
  {
  }

  /** With at least one healthy endpoint the result is exactly the healthy ones, in order,
      and no longer than the input. */
  lemma FilterKeepsHealthy(endPoints: Option<EndPoints>, i: nat)
    requires endPoints.Some? && i < |endPoints.value.entries|
    requires IsHealthy(endPoints.value.entries[i])
    ensures Filtered(endPoints) == Some(EndPoints(HealthyOf(endPoints.value.entries)))
    ensures |Filtered(endPoints).value.entries| <= |endPoints.value.entries|
    ensures forall ep :: ep in Filtered(endPoints).value.entries <==>
              ep in endPoints.value.entries && IsHealthy(ep)
  {
    HealthyOfEmptyIff(endPoints.value.entries);
    forall ep ensures ep in Filtered(endPoints).value.entries <==>
                ep in endPoints.value.entries && IsHealthy(ep) {
      HealthyOfMembers(endPoints.value.entries, ep);
    }
  }

  /** Fail open: when every endpoint is unhealthy, the original list is returned. */
  lemma FilterFailOpen(endPoints: Option<EndPoints>)
    requires endPoints.Some?
    requires forall k :: 0 <= k < |endPoints.value.entries| ==> !IsHealthy(endPoints.value.entries[k])
    ensures Filtered(endPoints) == endPoints
  {
    HealthyOfEmptyIff(endPoints.value.entries);
  }

  /** A list with no unhealthy endpoint comes back equal to the input. */
  lemma FilterAllHealthy(endPoints: Option<EndPoints>)
    requires endPoints.Some?
    requires forall k :: 0 <= k < |endPoints.value.entries| ==> IsHealthy(endPoints.value.entries[k])
    ensures Filtered(endPoints) == endPoints
  {
    HealthyOfAllHealthy(endPoints.value.entries);
  }

  /** Filtering an already filtered list changes nothing. */
  lemma FilterIdempotent(endPoints: Option<EndPoints>)
    ensures Filtered(Filtered(endPoints)) == Filtered(endPoints)
  {
    var once := Filtered(endPoints);
    if once != endPoints {
      HealthyOfAllHealthy(once.value.entries);
    }
  }
}
