/** The external scaler: the pinger that keeps the fleet's counts, and the handlers that
    answer KEDA from them and the hosts of the routing table, read anew for each host. */
module Scaler {
  import opened Basics
  import opened QueueCounts

  const INTERCEPTOR := "interceptor"
  const HTTP_REQUESTS := "http-requests"
  const UNKNOWN_HOST := "host not found in counts"

  // ---------- one view of the counts ----------

  /** Every routed host with at least zero, overridden by what the interceptors reported. */
  function Merged(counts: Counts, routed: set<Host>): Counts {
    Zeros(routed) + counts
  }

  function GetHostCount(host: Host, counts: Counts, routed: set<Host>): (count: Option<int>)
    ensures count == if host in Merged(counts, routed) then Some(Merged(counts, routed)[host]) else None
  {
    if host in counts then Some(counts[host])
    else if host in routed then Some(0)
    else None
  }

  function Zeros(hosts: set<Host>): Counts {
    map h | h in hosts :: 0
  }

  method MergeCountsWithRoutingTable(allCounts: Counts, tableHosts: seq<Host>) returns (merged: Counts)
    ensures merged == Merged(allCounts, Elems(tableHosts))
    ensures forall h :: h in merged <==> h in allCounts || h in tableHosts
    ensures forall h | h in merged :: merged[h] == if h in allCounts then allCounts[h] else 0
  {
    merged := map[];
    for i := 0 to |tableHosts|
      invariant merged == Zeros(Elems(tableHosts[..i]))
    {
      ElemsOfPrefix(tableHosts, i);
      merged := merged[tableHosts[i] := 0];
    }
    assert tableHosts[..|tableHosts|] == tableHosts;
    merged := OverlayCounts(merged, allCounts);
  }

  /** The second loop of the merge: reported counts override, in any order. */
  method OverlayCounts(zeros: Counts, counts: Counts) returns (merged: Counts)
    ensures merged == zeros + counts
  {
    merged := zeros;
    var rest := counts.Keys;
    while rest != {}
      invariant rest <= counts.Keys
      invariant merged.Keys == zeros.Keys + (counts.Keys - rest)
      invariant forall h | h in merged :: merged[h] == if h in counts && h !in rest then counts[h] else zeros[h]
      decreases |rest|
    {
      var key :| key in rest;
      merged := merged[key := counts[key]];
      rest := rest - {key};
    }
  }

  // ---------- what the handlers answer ----------

  /** What a handler finds when it gets to one host of its list: the pinger's counts and their
      aggregate, and the hosts of the routing table, at that time. */
  datatype View = View(counts: Counts, routed: set<Host>, aggregate: int) {
    predicate Knows(h: Host) {
      h in Merged(counts, routed)
    }

    /** What the host adds to the metric: an unknown one, `interceptor`, the aggregate. */
    function Share(h: Host): int {
      if Knows(h) then Merged(counts, routed)[h] else aggregate
    }
  }

  /** A view for each host of the list, in the order they are read. */
  ghost predicate Seen(hosts: seq<Host>, views: seq<View>) {
    |views| == |hosts|
  }

  /** The metric of the first `n` hosts: repeats count again. */
  function SumAlong(hosts: seq<Host>, views: seq<View>, n: nat): int
    requires Seen(hosts, views) && n <= |hosts|
  {
    if n == 0 then 0 else SumAlong(hosts, views, n - 1) + views[n - 1].Share(hosts[n - 1])
  }

  ghost predicate KnownUpTo(hosts: seq<Host>, views: seq<View>, n: nat)
    requires Seen(hosts, views) && n <= |hosts|
  {
    forall i | 0 <= i < n :: views[i].Knows(hosts[i])
  }

  ghost predicate AllKnown(hosts: seq<Host>, views: seq<View>)
    requires Seen(hosts, views)
  {
    KnownUpTo(hosts, views, |hosts|)
  }

  /** `interceptor` is listed and every host before it is known. */
  ghost predicate ReachesInterceptor(hosts: seq<Host>, views: seq<View>)
    requires Seen(hosts, views)
  {
    exists j :: 0 <= j < |hosts| && hosts[j] == INTERCEPTOR && KnownUpTo(hosts, views, j)
  }

  ghost function ActiveAnswer(hosts: seq<Host>, views: seq<View>): Result<bool>
    requires Seen(hosts, views)
  {
    if ReachesInterceptor(hosts, views) then Ok(true)
    else if AllKnown(hosts, views) then Ok(SumAlong(hosts, views, |hosts|) > 0)
    else Err(UNKNOWN_HOST)
  }

  datatype Metric = Metric(name: string, value: int)

  ghost function MetricAnswer(hosts: seq<Host>, views: seq<View>): Result<Metric>
    requires Seen(hosts, views)
  {
    if exists i :: 0 <= i < |hosts| && !views[i].Knows(hosts[i]) && hosts[i] != INTERCEPTOR then Err(UNKNOWN_HOST)
    else Ok(Metric(if AllKnown(hosts, views) then HTTP_REQUESTS else INTERCEPTOR, SumAlong(hosts, views, |hosts|)))
  }

  method IsActive(hosts: seq<Host>, views: seq<View>) returns (r: Result<bool>)
    requires Seen(hosts, views)
    ensures r == ActiveAnswer(hosts, views)
  {
    var totalHostCount := 0;
    for i := 0 to |hosts|
      invariant KnownUpTo(hosts, views, i) && forall j | 0 <= j < i :: hosts[j] != INTERCEPTOR
      invariant totalHostCount == SumAlong(hosts, views, i)
    {
      if hosts[i] == INTERCEPTOR {
        return Ok(true);
      }
      var hostCount := GetHostCount(hosts[i], views[i].counts, views[i].routed);
      if hostCount.None? {
        return Err(UNKNOWN_HOST);
      }
      totalHostCount := totalHostCount + hostCount.value;
    }
    r := Ok(totalHostCount > 0);
  }

  method GetMetrics(hosts: seq<Host>, views: seq<View>) returns (r: Result<Metric>)
    requires Seen(hosts, views)
    ensures r == MetricAnswer(hosts, views)
  {
    var totalCount, metricName := 0, HTTP_REQUESTS;
    for i := 0 to |hosts|
      invariant totalCount == SumAlong(hosts, views, i)
      invariant forall j | 0 <= j < i :: views[j].Knows(hosts[j]) || hosts[j] == INTERCEPTOR
      invariant metricName == if KnownUpTo(hosts, views, i) then HTTP_REQUESTS else INTERCEPTOR
    {
      var hostCount := GetHostCount(hosts[i], views[i].counts, views[i].routed);
      if hostCount.None? {
        if hosts[i] != INTERCEPTOR {
          return Err(UNKNOWN_HOST);
        }
        hostCount := Some(views[i].aggregate);
        metricName := INTERCEPTOR;
      }
      totalCount := totalCount + hostCount.value;
    }
    r := Ok(Metric(metricName, totalCount));
  }

  /** What the known hosts contribute: the merged counts alone, whatever the aggregates. */
  function CountsAlong(hosts: seq<Host>, views: seq<View>, n: nat): int
    requires Seen(hosts, views) && n <= |hosts|
  {
    if n == 0 then 0
    else CountsAlong(hosts, views, n - 1) + At(Merged(views[n - 1].counts, views[n - 1].routed), hosts[n - 1])
  }

  lemma {:induction false} SumOfKnown(hosts: seq<Host>, views: seq<View>, n: nat)
    requires Seen(hosts, views) && n <= |hosts| && KnownUpTo(hosts, views, n)
    ensures SumAlong(hosts, views, n) == CountsAlong(hosts, views, n)
  {
    if n > 0 {
      SumOfKnown(hosts, views, n - 1);
    }
  }

  /** On the same views and a list without `interceptor` the two handlers agree: both answer
      exactly when every host is known, and the app is active exactly when its metric, the sum
      of the merged counts along the list, is positive. */
  lemma HandlersAgree(hosts: seq<Host>, views: seq<View>)
    requires Seen(hosts, views) && INTERCEPTOR !in hosts
    ensures var active, metric := ActiveAnswer(hosts, views), MetricAnswer(hosts, views);
            && (active.Ok? <==> AllKnown(hosts, views))
            && (metric.Ok? <==> AllKnown(hosts, views))
            && (AllKnown(hosts, views) ==>
                  && metric.value == Metric(HTTP_REQUESTS, CountsAlong(hosts, views, |hosts|))
                  && (active.value <==> metric.value.value > 0))
  {
    assert !ReachesInterceptor(hosts, views);
    if AllKnown(hosts, views) {
      SumOfKnown(hosts, views, |hosts|);
    } else {
      var i :| 0 <= i < |hosts| && !views[i].Knows(hosts[i]);
      assert hosts[i] in hosts;
    }
  }

  /** With no negative count, the metric of known hosts is positive exactly if some listed host's
      count is. */
  lemma {:induction false} BusyIffSomeHostIs(hosts: seq<Host>, views: seq<View>, n: nat)
    requires Seen(hosts, views) && n <= |hosts| && KnownUpTo(hosts, views, n)
    requires forall i | 0 <= i < n :: views[i].Share(hosts[i]) >= 0
    ensures SumAlong(hosts, views, n) >= 0
    ensures SumAlong(hosts, views, n) > 0 <==> exists i :: 0 <= i < n && views[i].Share(hosts[i]) > 0
  {
    if n > 0 {
      BusyIffSomeHostIs(hosts, views, n - 1);
    }
  }

  // ---------- the answers, host by host ----------

  /** A host is known if it is reported or routed; a reported one has its count, one that is only
      routed counts zero, and any other the aggregate. */
  lemma KnownIffReportedOrRouted(v: View, h: Host)
    ensures v.Knows(h) <==> h in v.counts || h in v.routed
    ensures v.Share(h) == if h in v.counts then v.counts[h] else if h in v.routed then 0 else v.aggregate
  {
  }

  /** The metric of a single host. */
  lemma MetricOfOne(h: Host, v: View)
    ensures MetricAnswer([h], [v]) ==
            if h in v.counts then Ok(Metric("http-requests", v.counts[h]))
            else if h in v.routed then Ok(Metric("http-requests", 0))
            else if h == "interceptor" then Ok(Metric("interceptor", v.aggregate))
            else Err(UNKNOWN_HOST)
  {
    KnownIffReportedOrRouted(v, h);
    assert [v][0].Knows([h][0]) <==> v.Knows(h);
    assert SumAlong([h], [v], 1) == SumAlong([h], [v], 0) + v.Share(h);
  }

  /** How the metrics of two lists make that of both: an error if either is one, else the values add
      up and the name is `interceptor` if either is. */
  function Combined(a: Result<Metric>, b: Result<Metric>): Result<Metric> {
    if a.Err? then a else if b.Err? then b
    else
      var name := if a.value.name == "interceptor" then a.value.name else b.value.name;
      Ok(Metric(name, a.value.value + b.value.value))
  }

  lemma {:induction false} SumOfConcat(a: seq<Host>, va: seq<View>, b: seq<Host>, vb: seq<View>, n: nat)
    requires Seen(a, va) && Seen(b, vb) && n <= |b|
    ensures SumAlong(a + b, va + vb, |a| + n) == SumAlong(a, va, |a|) + SumAlong(b, vb, n)
  {
    if n == 0 {
      SumOfPrefix(a, va, b, vb, |a|);
    } else {
      SumOfConcat(a, va, b, vb, n - 1);
    }
  }

  lemma {:induction false} SumOfPrefix(a: seq<Host>, va: seq<View>, b: seq<Host>, vb: seq<View>, n: nat)
    requires Seen(a, va) && Seen(b, vb) && n <= |a|
    ensures SumAlong(a + b, va + vb, n) == SumAlong(a, va, n)
  {
    if n > 0 {
      SumOfPrefix(a, va, b, vb, n - 1);
    }
  }

  /** Some host is neither known nor `interceptor`. */
  ghost predicate Foreign(hosts: seq<Host>, views: seq<View>)
    requires Seen(hosts, views)
  {
    exists i :: 0 <= i < |hosts| && !views[i].Knows(hosts[i]) && hosts[i] != INTERCEPTOR
  }

  lemma KnownOfConcat(a: seq<Host>, va: seq<View>, b: seq<Host>, vb: seq<View>)
    requires Seen(a, va) && Seen(b, vb)
    ensures AllKnown(a + b, va + vb) <==> AllKnown(a, va) && AllKnown(b, vb)
    ensures Foreign(a + b, va + vb) <==> Foreign(a, va) || Foreign(b, vb)
  {
    var hosts, views := a + b, va + vb;
    forall i | 0 <= i < |a| ensures hosts[i] == a[i] && views[i] == va[i] {
    }
    forall i | 0 <= i < |b| ensures hosts[|a| + i] == b[i] && views[|a| + i] == vb[i] {
    }
    if Foreign(b, vb) {
      var i :| 0 <= i < |b| && !vb[i].Knows(b[i]) && b[i] != INTERCEPTOR;
      assert !views[|a| + i].Knows(hosts[|a| + i]);
    }
    if AllKnown(hosts, views) {
      forall i | 0 <= i < |b| ensures vb[i].Knows(b[i]) {
        assert views[|a| + i].Knows(hosts[|a| + i]);
      }
    }
  }

  /** The metric of a list is made of those of its hosts, whatever the readings. */
  lemma MetricOfConcat(a: seq<Host>, va: seq<View>, b: seq<Host>, vb: seq<View>)
    requires Seen(a, va) && Seen(b, vb)
    ensures MetricAnswer(a + b, va + vb) == Combined(MetricAnswer(a, va), MetricAnswer(b, vb))
    ensures MetricAnswer([], []) == Ok(Metric("http-requests", 0))
  {
    SumOfConcat(a, va, b, vb, |b|);
    KnownOfConcat(a, va, b, vb);
  }

  /** The first `interceptor` of a list decides whether it is active: true if every host before it is
      reported or routed, an error otherwise. */
  lemma InterceptorDecides(hosts: seq<Host>, views: seq<View>, j: nat)
    requires Seen(hosts, views) && j < |hosts| && hosts[j] == "interceptor"
    requires forall i | 0 <= i < j :: hosts[i] != "interceptor"
    ensures ActiveAnswer(hosts, views) ==
            if forall i | 0 <= i < j :: hosts[i] in views[i].counts || hosts[i] in views[i].routed then Ok(true)
            else Err(UNKNOWN_HOST)
  {
    forall i | 0 <= i < |hosts| ensures views[i].Knows(hosts[i]) <==>
                                        hosts[i] in views[i].counts || hosts[i] in views[i].routed {
      KnownIffReportedOrRouted(views[i], hosts[i]);
    }
    if KnownUpTo(hosts, views, j) {
      assert ReachesInterceptor(hosts, views);
    } else {
      var i :| 0 <= i < j && !views[i].Knows(hosts[i]);
      assert !AllKnown(hosts, views) && !ReachesInterceptor(hosts, views);
    }
  }

  /** An app scaled to zero, of which every host is routed and none reported, is not active and has
      the metric zero: it is known without a single request. */
  lemma {:induction false} IdleAppIsKnown(hosts: seq<Host>, views: seq<View>)
    requires Seen(hosts, views) && "interceptor" !in hosts
    requires forall i | 0 <= i < |hosts| :: hosts[i] in views[i].routed && hosts[i] !in views[i].counts
    ensures ActiveAnswer(hosts, views) == Ok(false)
    ensures MetricAnswer(hosts, views) == Ok(Metric("http-requests", 0))
  {
    forall i | 0 <= i < |hosts| ensures views[i].Knows(hosts[i]) && views[i].Share(hosts[i]) == 0 {
      KnownIffReportedOrRouted(views[i], hosts[i]);
    }
    HandlersAgree(hosts, views);
    BusyIffSomeHostIs(hosts, views, |hosts|);
    SumOfKnown(hosts, views, |hosts|);
  }

  // ---------- the pinger ----------

  /** What one call of `fetchCounts` gives: the snapshots in order of arrival, or an error. */
  type Fetch = Result<seq<Counts>>

  /** The snapshots of the last successful fetch, none before the first. */
  ghost function LastGood(history: seq<Fetch>): seq<Counts> {
    if history == [] then []
    else if history[|history| - 1].Ok? then history[|history| - 1].value
    else LastGood(history[..|history| - 1])
  }

  /** What wakes the pinger's loop. */
  datatype Event = Cancelled | Ticked(fetch: Fetch) | FleetChanged(fetch: Fetch)

  /** The loop ends at a cancellation or a failed tick, never at a failed fleet event. */
  predicate Stops(e: Event) {
    e.Cancelled? || (e.Ticked? && e.fetch.Err?)
  }

  /** How many of the events the loop takes, counting the one that ends it. */
  function Taken(events: seq<Event>): (n: nat)
    ensures n <= |events|
  {
    if events == [] then 0 else if Stops(events[0]) then 1 else 1 + Taken(events[1..])
  }

  function Fetches(events: seq<Event>): seq<Fetch> {
    if events == [] then [] else
      Fetches(events[..|events| - 1])
      + if events[|events| - 1].Cancelled? then [] else [events[|events| - 1].fetch]
  }

  /** The loop takes all events up to and including the first that is a cancellation or a failed
      tick; a failed fetch for a fleet event does not end it. */
  lemma {:induction false} TakenIsFirstStop(events: seq<Event>)
    ensures forall i | 0 <= i < Taken(events) - 1 ::
              !events[i].Cancelled? && (events[i].Ticked? ==> events[i].fetch.Ok?)
    ensures Taken(events) < |events| ==>
              && Taken(events) > 0
              && var last := events[Taken(events) - 1]; last.Cancelled? || (last.Ticked? && last.fetch.Err?)
  {
    if events != [] && !Stops(events[0]) {
      TakenIsFirstStop(events[1..]);
      forall i | 0 <= i < Taken(events) - 1 ensures !Stops(events[i]) {
        assert i > 0 ==> events[i] == events[1..][i - 1];
      }
    }
  }

  /** Every event but a cancellation makes its fetch, in order. */
  lemma {:induction false} EveryEventFetches(events: seq<Event>)
    requires forall i | 0 <= i < |events| :: !events[i].Cancelled?
    ensures |Fetches(events)| == |events| && forall i | 0 <= i < |events| :: Fetches(events)[i] == events[i].fetch
  {
    if events != [] {
      EveryEventFetches(events[..|events| - 1]);
    }
  }

  /** The fetches of the events that the loop takes: of all of them, or all but a last cancellation. */
  lemma TakenFetches(events: seq<Event>)
    ensures var n := Taken(events);
            var made := if n > 0 && events[n - 1].Cancelled? then n - 1 else n;
            && |Fetches(events[..n])| == made
            && forall i | 0 <= i < made :: !events[i].Cancelled? && Fetches(events[..n])[i] == events[i].fetch
  {
    var n := Taken(events);
    TakenIsFirstStop(events);
    if n > 0 && events[n - 1].Cancelled? {
      assert events[..n][..n - 1] == events[..n - 1];
      EveryEventFetches(events[..n - 1]);
    } else {
      EveryEventFetches(events[..n]);
    }
  }

  lemma OneMoreEvent(events: seq<Event>, i: nat)
    requires i < |events|
    ensures Taken(events[i..]) == if Stops(events[i]) then 1 else 1 + Taken(events[i + 1..])
    ensures Fetches(events[..i + 1]) ==
            Fetches(events[..i]) + if events[i].Cancelled? then [] else [events[i].fetch]
  {
    assert events[i..][1..] == events[i + 1..];
    assert events[..i + 1][..i] == events[..i];
  }

  class Pinger {
    var allCounts: Counts
    var aggregateCount: int
    ghost var history: seq<Fetch>

    /** Both fields come from the same fetch, the last successful one. */
    ghost predicate Valid()
      reads this
    {
      allCounts == Totals(LastGood(history)) && aggregateCount == Sum(allCounts)
    }

    /** `newQueuePinger`: a first fetch is made at once, and its error is handed on. */
    constructor (first: Fetch)
      ensures Valid() && history == [first]
      ensures first.Err? ==> allCounts == map[] && aggregateCount == 0
    {
      allCounts, aggregateCount, history := map[], 0, [];
      new;
      assert Totals([]) == map[];
      var _ := FetchAndSaveCounts(first);
    }

    method FetchAndSaveCounts(fetch: Fetch) returns (ok: bool)
      requires Valid()
      modifies this
      ensures Valid() && history == old(history) + [fetch] && ok == fetch.Ok?
      ensures !ok ==> allCounts == old(allCounts) && aggregateCount == old(aggregateCount)
      ensures ok ==> allCounts == Totals(fetch.value) && aggregateCount == SumOfAggregates(fetch.value)
    {
      ok := fetch.Ok?;
      if ok {
        allCounts, aggregateCount := AddUp(fetch.value);
      }
      history := history + [fetch];
      assert history[..|history| - 1] == old(history);
    }

    /** `start`, over the events that wake it. It goes on after a failed fetch for a fleet event and
        ends at a cancellation or a failed tick; every event it takes makes its fetch, but for a
        cancellation. */
    method Start(events: seq<Event>) returns (taken: nat)
      requires Valid()
      modifies this
      ensures Valid() && taken <= |events|
      ensures forall i | 0 <= i < taken - 1 :: !events[i].Cancelled? && (events[i].Ticked? ==> events[i].fetch.Ok?)
      ensures taken < |events| ==>
                && taken > 0
                && (events[taken - 1].Cancelled? || (events[taken - 1].Ticked? && events[taken - 1].fetch.Err?))
      ensures var made := if taken > 0 && events[taken - 1].Cancelled? then taken - 1 else taken;
              && |history| == |old(history)| + made && old(history) <= history
              && forall i | 0 <= i < made :: !events[i].Cancelled? && history[|old(history)| + i] == events[i].fetch
    {
      taken := Serve(events);
      TakenIsFirstStop(events);
      TakenFetches(events);
    }

    /** Its loop. */
    method Serve(events: seq<Event>) returns (taken: nat)
      requires Valid()
      modifies this
      ensures Valid() && taken == Taken(events)
      ensures history == old(history) + Fetches(events[..taken])
    {
      taken := 0;
      while taken < |events|
        invariant taken <= |events| && Valid()
        invariant Taken(events) == taken + Taken(events[taken..])
        invariant history == old(history) + Fetches(events[..taken])
      {
        var e := events[taken];
        OneMoreEvent(events, taken);
        taken := taken + 1;
        if e.Cancelled? {
          return;
        }
        var ok := FetchAndSaveCounts(e.fetch);
        if e.Ticked? && !ok {
          return;
        }
      }
    }
  }
}
