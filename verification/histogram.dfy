/** What every history of observations leaves in the request metrics (internal/api/metrics.go). */
module Histogram {
  import opened Collections
  import opened Observability

  function AfterObservations(history: seq<Observation>): (s: State)
    ensures FullSlices(s.bucketCounts)
  {
    if history == [] then State(map[], map[], map[], map[])
    else Observed(AfterObservations(Init(history)), Last(history))
  }

  function Seen(history: seq<Observation>, route: string): nat {
    if history == [] then 0 else Seen(Init(history), route) + if Last(history).route == route then 1 else 0
  }

  function SeenWith(history: seq<Observation>, route: string, status: int): nat {
    if history == [] then 0
    else SeenWith(Init(history), route, status)
         + if Last(history).route == route && Last(history).status == status then 1 else 0
  }

  /** The observations of a route that took no longer than a bound. */
  function Within(history: seq<Observation>, route: string, bound: real): nat {
    if history == [] then 0
    else Within(Init(history), route, bound)
         + if Last(history).route == route && Last(history).seconds <= bound then 1 else 0
  }

  function Seconds(history: seq<Observation>, route: string): real {
    if history == [] then 0.0
    else Seconds(Init(history), route) + if Last(history).route == route then Last(history).seconds else 0.0
  }

  /** A route is in every map or in none, and each map holds exactly what its name says. */
  ghost predicate RouteExact(history: seq<Observation>, route: string) {
    var s := AfterObservations(history);
    if Seen(history, route) == 0 then
      route !in s.requestCount && route !in s.bucketCounts && route !in s.durationSum
    else
      && route in s.requestCount && s.requestCount[route] == Seen(history, route)
      && route in s.durationSum && s.durationSum[route] == Seconds(history, route)
      && route in s.bucketCounts
      && forall i :: 0 <= i < |BUCKETS| ==> s.bucketCounts[route][i] == Within(history, route, BUCKETS[i])
  }

  lemma {:induction false} NeverSeen(history: seq<Observation>, route: string)
    requires Seen(history, route) == 0
    ensures Seconds(history, route) == 0.0
    ensures forall bound :: Within(history, route, bound) == 0
  {
    if history != [] {
      NeverSeen(Init(history), route);
    }
  }

  lemma {:induction false} RoutesAreExact(history: seq<Observation>, route: string)
    ensures RouteExact(history, route)
  {
    if history != [] {
      RoutesAreExact(Init(history), route);
      if Seen(Init(history), route) == 0 {
        NeverSeen(Init(history), route);
      }
    }
  }

  /** The request counter's series are exactly the pairs observed, each with its count. */
  ghost predicate StatusExact(history: seq<Observation>, route: string, status: int) {
    var requests := AfterObservations(history).requests;
    && Get(requests, (route, status)) == SeenWith(history, route, status)
    && ((route, status) in requests <==> SeenWith(history, route, status) > 0)
  }

  lemma {:induction false} StatusesAreExact(history: seq<Observation>, route: string, status: int)
    ensures StatusExact(history, route, status)
  {
    if history != [] {
      StatusesAreExact(Init(history), route, status);
    }
  }

  lemma {:induction false} WiderBound(history: seq<Observation>, route: string, bound: real, wider: real)
    requires bound <= wider
    ensures Within(history, route, bound) <= Within(history, route, wider) <= Seen(history, route)
  {
    if history != [] {
      WiderBound(Init(history), route, bound, wider);
    }
  }

  /** The request counter's series of one route. */
  function OfRoute(requests: map<RequestKey, nat>, route: string): map<RequestKey, nat> {
    map key | key in requests && key.0 == route :: requests[key]
  }

  lemma {:induction false} StatusesAddUp(history: seq<Observation>, route: string)
    ensures Total(OfRoute(AfterObservations(history).requests, route)) == Seen(history, route)
  {
    if history == [] {
      assert OfRoute(AfterObservations(history).requests, route) == map[];
    } else {
      StatusesAddUp(Init(history), route);
      var before, o := AfterObservations(Init(history)).requests, Last(history);
      var after := Bump(before, (o.route, o.status));
      if o.route == route {
        assert OfRoute(after, route) == Bump(OfRoute(before, route), (o.route, o.status));
        TotalBump(OfRoute(before, route), (o.route, o.status));
      } else {
        assert OfRoute(after, route) == OfRoute(before, route);
      }
    }
  }

  lemma BucketsAscend(i: nat, j: nat)
    requires i <= j < |BUCKETS|
    ensures BUCKETS[i] <= BUCKETS[j]
  {
    assert forall k :: 0 <= k < |BUCKETS| - 1 ==> BUCKETS[k] <= BUCKETS[k + 1];
    if i < j {
      BucketsAscend(i, j - 1);
    }
  }

  lemma BucketsNest(history: seq<Observation>, route: string, i: nat, j: nat)
    requires Seen(history, route) > 0 && i <= j < |BUCKETS|
    ensures var s := AfterObservations(history);
      && route in s.bucketCounts && route in s.requestCount
      && s.bucketCounts[route][i] <= s.bucketCounts[route][j] <= s.requestCount[route]
  {
    RoutesAreExact(history, route);
    BucketsAscend(i, j);
    WiderBound(history, route, BUCKETS[i], BUCKETS[j]);
  }

  /** Counts never decrease from bucket to bucket, and never exceed the route's request count. */
  ghost predicate Cumulative(s: State, route: string)
    requires FullSlices(s.bucketCounts) && route in s.bucketCounts && route in s.requestCount
  {
    forall i, j :: 0 <= i <= j < |BUCKETS| ==>
      s.bucketCounts[route][i] <= s.bucketCounts[route][j] <= s.requestCount[route]
  }

  /** A route that was observed was observed with some status; one that was not, with none. */
  lemma {:induction false} SomeStatus(history: seq<Observation>, route: string) returns (status: int)
    ensures Seen(history, route) > 0 ==> SeenWith(history, route, status) > 0
    ensures forall other :: SeenWith(history, route, other) <= Seen(history, route)
  {
    status := 0;
    if history != [] {
      status := SomeStatus(Init(history), route);
      if Last(history).route == route {
        status := Last(history).status;
      }
    }
  }

  /**
   * For every history and route: all four maps agree on which routes exist; every pair of route and
   * status has its exact count, and no other pair a series; each bucket counts the observations not
   * above its bound, cumulatively; and the request count is the sum over statuses.
   */
  lemma HistogramExactly(history: seq<Observation>, route: string)
    ensures RouteExact(history, route)
    ensures forall status :: StatusExact(history, route, status)
    ensures Seen(history, route) > 0 <==> exists status :: (route, status) in AfterObservations(history).requests
    ensures Seen(history, route) > 0 ==> Cumulative(AfterObservations(history), route)
    ensures Total(OfRoute(AfterObservations(history).requests, route))
         == Get(AfterObservations(history).requestCount, route)
  {
    RoutesAreExact(history, route);
    StatusesAddUp(history, route);
    forall status ensures StatusExact(history, route, status) {
      StatusesAreExact(history, route, status);
    }
    var seen := SomeStatus(history, route);
    assert StatusExact(history, route, seen);
    if status :| (route, status) in AfterObservations(history).requests {
      assert StatusExact(history, route, status);
    }
    if Seen(history, route) > 0 {
      var s := AfterObservations(history);
      forall i, j | 0 <= i <= j < |BUCKETS|
        ensures s.bucketCounts[route][i] <= s.bucketCounts[route][j] <= s.requestCount[route]
      {
        BucketsNest(history, route, i, j);
      }
    }
  }
}
