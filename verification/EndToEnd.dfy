/** From a pending request on some interceptor to the scaler's answer: counters, fan-in, host
    list and handler together. */
module EndToEnd {
  import opened Basics
  import opened QueueCounts
  import opened Scaler
  import opened HostStrings
  import Q = QueueProtocol
  import QueueHistory
  import FanIn

  /** One interceptor up to the moment its counts are read. */
  datatype Interceptor = Interceptor(cfg: Q.Config, tr: seq<Q.State>, steps: seq<Q.Step>) {
    /** Its commits have found the scanned counts still at one, as in a calm run. */
    ghost predicate RunsExactly() {
      Q.Run(cfg, tr, steps) && Q.CommitsStillOne(tr, steps, |steps|)
    }

    function Last(): Q.State {
      if tr == [] then Q.Init(0) else tr[|tr| - 1]
    }
  }

  /** What the pinger fetches: the counts of every interceptor. */
  function Answers(fleet: seq<Interceptor>): seq<Result<Counts>>
  {
    seq(|fleet|, i requires 0 <= i < |fleet| => Ok(fleet[i].Last().counts))
  }

  /** A request for `h` is live there, or its cooldown runs. */
  ghost predicate Busy(s: Q.State, h: Host) {
    Q.Live(s, h) != {} || h in s.postponed
  }

  lemma CountsWhatIsBusy(one: Interceptor, h: Host)
    requires one.RunsExactly()
    ensures At(one.Last().counts, h) >= 0
    ensures At(one.Last().counts, h) > 0 <==> Busy(one.Last(), h)
  {
    Q.InvAlongRun(one.cfg, one.tr, one.steps, |one.steps|);
    assert At(one.Last().counts, h) == |Q.Live(one.Last(), h)| + Q.Cooling(one.Last(), h);
    assert Q.Live(one.Last(), h) != {} <==> |Q.Live(one.Last(), h)| > 0;
  }

  ghost predicate BusySomewhere(fleet: seq<Interceptor>, h: Host) {
    exists j :: 0 <= j < |fleet| && Busy(fleet[j].Last(), h)
  }

  lemma FleetTotals(fleet: seq<Interceptor>, h: Host)
    requires forall j | 0 <= j < |fleet| :: fleet[j].RunsExactly()
    ensures var total := At(Totals(FanIn.Values(Answers(fleet))), h);
            total >= 0 && (total > 0 <==> BusySomewhere(fleet, h))
  {
    var cs := FanIn.Values(Answers(fleet));
    forall j | 0 <= j < |cs| ensures At(cs[j], h) >= 0 && (At(cs[j], h) > 0 <==> Busy(fleet[j].Last(), h)) {
      CountsWhatIsBusy(fleet[j], h);
    }
    TotalPositiveIff(cs, h);
    if h !in AllHosts(cs) {
      AbsentTotalsZero(cs, h);
    }
    if j :| 0 <= j < |fleet| && Busy(fleet[j].Last(), h) {
      assert At(cs[j], h) > 0;
    }
  }

  /** One fetch of the pinger: the fleet as it was read, and a schedule of the fan-in that has
      returned. */
  datatype Poll = Poll(fleet: seq<Interceptor>, net: seq<FanIn.State>, netSteps: seq<FanIn.Step>) {
    ghost predicate Valid() {
      && (forall j | 0 <= j < |fleet| :: fleet[j].RunsExactly())
      && FanIn.Run(Answers(fleet), net, netSteps) && net[|netSteps|].main.Returned?
    }

    /** The counts it leaves with the pinger. */
    ghost function Counts(): Counts
      requires Valid()
    {
      Totals(net[|netSteps|].consumed)
    }
  }

  lemma PollCountsWhatIsBusy(poll: Poll, h: Host)
    requires poll.Valid()
    ensures poll.net[|poll.netSteps|].main.ok
    ensures At(poll.Counts(), h) >= 0 && (At(poll.Counts(), h) > 0 <==> BusySomewhere(poll.fleet, h))
  {
    FanIn.MainConsumesEachOnce(Answers(poll.fleet), poll.net, poll.netSteps, |poll.netSteps|);
    FleetTotals(poll.fleet, h);
  }

  /** What the handler reads when it gets to a host are the counts of some fetch, which may be
      another one for each host; table and aggregate may be anything. */
  ghost predicate Polled(hosts: seq<Host>, views: seq<View>, polls: seq<Poll>) {
    && |polls| == |views| == |hosts|
    && forall i | 0 <= i < |hosts| :: polls[i].Valid() && views[i].counts == polls[i].Counts()
  }

  /** For any host list that survives its metadata and of which every host is known when it is read:
      the fetches succeed, and `IsActive` answers true if and only if `interceptor` is listed, or some
      listed host had a live request or was cooling down on some interceptor of its fetch. */
  lemma ActiveIffBusy(hosts: seq<Host>, views: seq<View>, polls: seq<Poll>, scalerAddress: string)
    requires hosts != [] && forall h | h in hosts :: ',' !in h
    requires Polled(hosts, views, polls) && AllKnown(hosts, views)
    ensures HostsFromMetadata(TriggerMetadata(scalerAddress, hosts)) == Ok(hosts)
    ensures forall i | 0 <= i < |hosts| :: polls[i].net[|polls[i].netSteps|].main.ok
    ensures ActiveAnswer(hosts, views) ==
            Ok(INTERCEPTOR in hosts || exists i :: 0 <= i < |hosts| && BusySomewhere(polls[i].fleet, hosts[i]))
  {
    HostListRoundTripIff(scalerAddress, hosts);
    forall i | 0 <= i < |hosts|
      ensures polls[i].net[|polls[i].netSteps|].main.ok && views[i].Share(hosts[i]) >= 0
      ensures views[i].Share(hosts[i]) > 0 <==> BusySomewhere(polls[i].fleet, hosts[i])
    {
      PollCountsWhatIsBusy(polls[i], hosts[i]);
      assert views[i].Knows(hosts[i]);
    }
    BusyIffSomeHostIs(hosts, views, |hosts|);
    if j :| 0 <= j < |hosts| && hosts[j] == INTERCEPTOR {
      assert ReachesInterceptor(hosts, views);
    }
  }

  /** That commits find the counts at one is needed: after the enforcer's race, one live request adds up to a
      count of zero and the scaler reports its app as inactive. */
  lemma RaceHidesTraffic(h: Host) returns (tr: seq<Q.State>, steps: seq<Q.Step>)
    requires h != INTERCEPTOR
    ensures Q.Run(QueueHistory.COOLDOWN, tr, steps)
    ensures Q.Live(tr[|steps|], h) == {2}
    ensures ActiveAnswer([h], [View(tr[|steps|].counts, {}, 0)]) == Ok(false)
  {
    var tr0, steps0 := QueueHistory.RaceBreaksCount(h);
    var step := Q.Arrive(2, h);
    var s := tr0[10];
    tr, steps := tr0 + [Q.Apply(QueueHistory.COOLDOWN, s, step)], steps0 + [step];
    var view := View(tr[|steps|].counts, {}, 0);
    assert Merged(view.counts, {}) == map[h := 0];
    assert SumAlong([h], [view], 1) == SumAlong([h], [view], 0) + view.Share(h);
  }
}
