/** The metrics collector (internal/api/metrics.go). Counters are natural numbers, durations reals. */
module Observability {
  import opened Collections

  const BUCKETS: seq<real> := [0.001, 0.005, 0.01, 0.025, 0.05, 0.1, 0.25, 0.5, 1.0, 2.5, 5.0, 10.0]

  const MAX_CLASSES: nat := 64

  const OTHER: string := "other"

  datatype Observation = Observation(route: string, status: int, seconds: real)

  type RequestKey = (string, int)

  datatype State = State(requests: map<RequestKey, nat>, bucketCounts: map<string, seq<nat>>,
                         durationSum: map<string, real>, requestCount: map<string, nat>)

  function Get<K>(m: map<K, nat>, k: K): nat { if k in m then m[k] else 0 }

  function Bump<K>(m: map<K, nat>, k: K): map<K, nat> { m[k := Get(m, k) + 1] }

  /** Every bucket whose bound the observation does not exceed goes up by one. */
  function Fill(counts: seq<nat>, seconds: real): (r: seq<nat>)
    requires |counts| == |BUCKETS|
    ensures |r| == |BUCKETS|
  {
    seq(|BUCKETS|, i requires 0 <= i < |BUCKETS| => counts[i] + if seconds <= BUCKETS[i] then 1 else 0)
  }

  method FillBuckets(before: seq<nat>, seconds: real) returns (counts: seq<nat>)
    requires |before| == |BUCKETS|
    ensures counts == Fill(before, seconds)
  {
    counts := before;
    for i := 0 to |BUCKETS|
      invariant |counts| == |BUCKETS|
      invariant forall k :: 0 <= k < |BUCKETS| ==>
                  counts[k] == before[k] + if k < i && seconds <= BUCKETS[k] then 1 else 0
    {
      if seconds <= BUCKETS[i] {
        counts := counts[i := counts[i] + 1];
      }
    }
  }

  predicate FullSlices(bucketCounts: map<string, seq<nat>>) {
    forall route :: route in bucketCounts ==> |bucketCounts[route]| == |BUCKETS|
  }

  /** A route's bucket slice, all zero when it has none yet. */
  function CountsOf(bucketCounts: map<string, seq<nat>>, route: string): (counts: seq<nat>)
    requires FullSlices(bucketCounts)
    ensures |counts| == |BUCKETS|
  {
    if route in bucketCounts then bucketCounts[route] else seq(|BUCKETS|, _ => 0)
  }

  function Observed(s: State, o: Observation): State
    requires FullSlices(s.bucketCounts)
  {
    State(Bump(s.requests, (o.route, o.status)),
          s.bucketCounts[o.route := Fill(CountsOf(s.bucketCounts, o.route), o.seconds)],
          s.durationSum[o.route := (if o.route in s.durationSum then s.durationSum[o.route] else 0.0) + o.seconds],
          Bump(s.requestCount, o.route))
  }

  /** A class past the cap is counted under "other". */
  function Failed(failures: map<string, nat>, class_: string): map<string, nat> {
    if class_ !in failures && |failures| >= MAX_CLASSES then Bump(failures, OTHER) else Bump(failures, class_)
  }

  class Metrics {
    var requests: map<RequestKey, nat>
    var failures: map<string, nat>
    var bucketCounts: map<string, seq<nat>>
    var durationSum: map<string, real>
    var requestCount: map<string, nat>

    constructor ()
      ensures Observations() == State(map[], map[], map[], map[]) && failures == map[]
    {
      requests, failures, bucketCounts, durationSum, requestCount := map[], map[], map[], map[], map[];
    }

    ghost function Observations(): State
      reads this
    {
      State(requests, bucketCounts, durationSum, requestCount)
    }

    method Observe(route: string, status: int, seconds: real)
      requires FullSlices(bucketCounts)
      modifies this
      ensures Observations() == Observed(old(Observations()), Observation(route, status, seconds))
      ensures FullSlices(bucketCounts) && failures == old(failures)
    {
      requests := Bump(requests, (route, status));
      requestCount := Bump(requestCount, route);
      durationSum := durationSum[route := (if route in durationSum then durationSum[route] else 0.0) + seconds];
      var counts := FillBuckets(CountsOf(bucketCounts, route), seconds);
      bucketCounts := bucketCounts[route := counts];
    }

    method ObserveFailure(class_: string)
      modifies this
      ensures failures == Failed(old(failures), class_)
      ensures Observations() == old(Observations())
    {
      if class_ !in failures && |failures| >= MAX_CLASSES {
        failures := Bump(failures, OTHER);
        return;
      }
      failures := Bump(failures, class_);
    }
  }

  // ---- totals -----------------------------------------------------------------------------

  ghost function Total<K(!new)>(m: map<K, nat>): nat
    decreases |m|
  {
    if m == map[] then 0 else var k :| k in m; m[k] + Total(m - {k})
  }

  lemma {:induction false} TotalWithout<K(!new)>(m: map<K, nat>, k: K)
    requires k in m
    ensures Total(m) == m[k] + Total(m - {k})
    decreases |m|
  {
    var j :| j in m && Total(m) == m[j] + Total(m - {j});
    if j != k {
      TotalWithout(m - {j}, k);
      TotalWithout(m - {k}, j);
      assert m - {j} - {k} == m - {k} - {j};
    }
  }

  lemma TotalBump<K(!new)>(m: map<K, nat>, k: K)
    ensures Total(Bump(m, k)) == Total(m) + 1
  {
    TotalWithout(Bump(m, k), k);
    assert Bump(m, k) - {k} == m - {k};
    if k in m {
      TotalWithout(m, k);
    } else {
      assert m - {k} == m;
    }
  }

  // ---- every history of failures --------------------------------------------------------------

  function AfterFailures(history: seq<string>): map<string, nat> {
    if history == [] then map[] else Failed(AfterFailures(Init(history)), Last(history))
  }

  /** The first 64 distinct classes of a history. */
  function Admitted(history: seq<string>): set<string> {
    if history == [] then {}
    else
      var before := Admitted(Init(history));
      if |before| < MAX_CLASSES then before + {Last(history)} else before
  }

  function CountOf(history: seq<string>, class_: string): nat {
    if history == [] then 0
    else CountOf(Init(history), class_) + if Last(history) == class_ then 1 else 0
  }

  /** What "other" stands for: itself, and every class outside a set. */
  function CountRest(history: seq<string>, classes: set<string>): nat {
    if history == [] then 0
    else CountRest(Init(history), classes)
         + if Last(history) == OTHER || Last(history) !in classes then 1 else 0
  }

  lemma {:induction false} AdmittedSize(history: seq<string>)
    ensures |Admitted(history)| <= 64
    ensures forall c :: c in Admitted(history) ==> c in history
    ensures |Admitted(history)| < 64 ==> forall c :: c in history ==> c in Admitted(history)
  {
    if history != [] {
      AdmittedSize(Init(history));
      assert history == Init(history) + [Last(history)];
    }
  }

  lemma {:induction false} CountsAbsent(history: seq<string>, class_: string)
    ensures CountOf(history, class_) == 0 <==> class_ !in history
  {
    if history != [] {
      CountsAbsent(Init(history), class_);
      assert history == Init(history) + [Last(history)];
    }
  }

  /** The failures map is exactly what the history says it is. */
  ghost predicate FailuresExact(history: seq<string>) {
    var m, admitted := AfterFailures(history), Admitted(history);
    && m.Keys == admitted + (if CountRest(history, admitted) > 0 then {OTHER} else {})
    && (forall c :: c in m && c != OTHER ==> m[c] == CountOf(history, c))
    && (OTHER in m ==> m[OTHER] == CountRest(history, admitted))
  }

  lemma BelowCap(history: seq<string>)
    requires history != [] && |Admitted(Init(history))| < MAX_CLASSES
    ensures FailuresExact(history)
  {
    var now := Admitted(history);
    AdmittedSize(Init(history));
    AdmittedSize(history);
    assert history == Init(history) + [Last(history)];
    WithinCap(history, now);
    OnlyOthers(history, now);
    assert AfterFailures(history).Keys == now;
  }

  /** While every class has its own series, "other" stands for itself only. */
  lemma {:induction false} OnlyOthers(history: seq<string>, classes: set<string>)
    requires forall c :: c in history ==> c in classes
    ensures CountRest(history, classes) == CountOf(history, OTHER)
    ensures CountRest(history, classes) > 0 ==> OTHER in history
  {
    if history != [] {
      assert history == Init(history) + [Last(history)];
      OnlyOthers(Init(history), classes);
    }
  }

  /** At the cap every class beyond the admitted ones is counted under "other". */
  lemma CountedAtCap(history: seq<string>)
    requires history != [] && FailuresExact(Init(history)) && |Admitted(Init(history))| >= MAX_CLASSES
    ensures var m, admitted, c := AfterFailures(Init(history)), Admitted(Init(history)), Last(history);
      && Admitted(history) == admitted
      && AfterFailures(history) == Bump(m, if c in m then c else OTHER)
      && ((if c in m then c else OTHER) == OTHER <==> c == OTHER || c !in admitted)
  {
    SubsetIsSmaller(Admitted(Init(history)), AfterFailures(Init(history)).Keys);
  }

  lemma KeysAtCap(history: seq<string>)
    requires history != [] && FailuresExact(Init(history)) && |Admitted(Init(history))| >= MAX_CLASSES
    ensures var m, admitted := AfterFailures(history), Admitted(history);
      m.Keys == admitted + (if CountRest(history, admitted) > 0 then {OTHER} else {})
  {
    CountedAtCap(history);
  }

  lemma OtherAtCap(history: seq<string>)
    requires history != [] && FailuresExact(Init(history)) && |Admitted(Init(history))| >= MAX_CLASSES
    ensures OTHER in AfterFailures(history) ==>
      AfterFailures(history)[OTHER] == CountRest(history, Admitted(history))
  {
    CountedAtCap(history);
    if OTHER in AfterFailures(history) && OTHER !in AfterFailures(Init(history)) {
      assert CountRest(Init(history), Admitted(history)) == 0;
    }
  }

  lemma AtCap(history: seq<string>)
    requires history != [] && FailuresExact(Init(history)) && |Admitted(Init(history))| >= MAX_CLASSES
    ensures FailuresExact(history)
  {
    CountedAtCap(history);
    KeysAtCap(history);
    OtherAtCap(history);
    forall d | d in AfterFailures(history) && d != OTHER ensures AfterFailures(history)[d] == CountOf(history, d) {
      assert d in AfterFailures(Init(history));
    }
  }

  lemma {:induction false} FailuresAreExact(history: seq<string>)
    ensures FailuresExact(history)
  {
    if history != [] {
      FailuresAreExact(Init(history));
      if |Admitted(Init(history))| < MAX_CLASSES {
        BelowCap(history);
      } else {
        AtCap(history);
      }
    }
  }

  lemma {:induction false} FailuresAddUp(history: seq<string>)
    ensures Total(AfterFailures(history)) == |history|
  {
    if history != [] {
      FailuresAddUp(Init(history));
      TotalBump(AfterFailures(Init(history)), OTHER);
      TotalBump(AfterFailures(Init(history)), Last(history));
    }
  }

  /**
   * Every class among the first 64 has its exact count, "other" has its own plus everything else,
   * the counts add up to the history, and there are never more than 65 series.
   */
  lemma FailuresExactly(history: seq<string>)
    ensures FailuresExact(history)
    ensures Total(AfterFailures(history)) == |history|
    ensures |AfterFailures(history)| <= 65
  {
    FailuresAreExact(history);
    FailuresAddUp(history);
    AdmittedSize(history);
    SubsetIsSmaller(AfterFailures(history).Keys, Admitted(history) + {OTHER});
  }

  /** No more than 64 distinct classes: nothing is folded, and every class has its exact count. */
  lemma {:induction false} WithinCap(history: seq<string>, classes: set<string>)
    requires |classes| <= 64 && forall c :: c in history ==> c in classes
    ensures AfterFailures(history).Keys == set c | c in history
    ensures forall c :: c in history ==> AfterFailures(history)[c] == CountOf(history, c)
  {
    if history != [] {
      var before, c := Init(history), Last(history);
      assert history == before + [c];
      WithinCap(before, classes);
      CountsAbsent(before, c);
      var m := AfterFailures(before);
      if c !in m {
        SubsetIsSmaller(m.Keys + {c}, classes);
      }
      assert AfterFailures(history) == Bump(m, c);
    }
  }
}
