/** `fetchCounts` as a network of goroutines over unbuffered channels: per endpoint a
    fetcher and a forwarder joined by a private channel, one shared channel into the main
    goroutine, and a closer that waits for the forwarders. `results[i]` is what the request
    to endpoint `i` returns. */
module FanIn {
  import opened Basics
  import opened QueueCounts

  datatype Fetcher = Fetching | Sending(counts: Counts) | Fetched | FetchFailed
  datatype Forwarder = Receiving | Forwarding(counts: Counts) | Delivered | Done
  datatype Closer = NotStarted | Waiting | Closed
  datatype Main = Spawning | AwaitingFetches | Draining | Returned(ok: bool)

  datatype State = State(
    spawned: nat,
    fetchers: seq<Fetcher>,
    forwarders: seq<Forwarder>,
    closer: Closer,
    main: Main,
    consumed: seq<Counts>)

  datatype Step =
    | Spawn                   // main starts the next fetcher and forwarder
    | StartCloser             // main starts the closer and begins to wait
    | FetchReturns(i: nat)    // a request returns, well or badly
    | HandOver(i: nat)        // the private channel of endpoint i
    | Deliver(i: nat)         // the shared channel: forwarder i to main
    | ForwarderExits(i: nat)  // the deferred `wg.Done`
    | CloseChannel            // `wg.Wait` returns and the shared channel is closed
    | JoinFetches             // `fetchGrp.Wait` returns
    | Finish                  // main's range loop sees the closed channel

  function Init(n: nat): State {
    State(0, seq(n, _ => Fetching), seq(n, _ => Receiving), NotStarted, Spawning, [])
  }

  ghost predicate Sized(results: seq<Result<Counts>>, s: State) {
    |s.fetchers| == |s.forwarders| == |results|
  }

  ghost predicate Enabled(results: seq<Result<Counts>>, s: State, step: Step)
    requires Sized(results, s)
  {
    match step
    case Spawn => s.main.Spawning? && s.spawned < |results|
    case StartCloser => s.main.Spawning? && s.spawned == |results|
    case FetchReturns(i) => i < |results| && i < s.spawned && s.fetchers[i].Fetching?
    case HandOver(i) => i < |results| && s.fetchers[i].Sending? && s.forwarders[i].Receiving?
    case Deliver(i) => i < |results| && s.forwarders[i].Forwarding? && s.main.Draining? && !s.closer.Closed?
    case ForwarderExits(i) => i < |results| && s.forwarders[i].Delivered?
    case CloseChannel => s.closer.Waiting? && forall i | 0 <= i < |results| :: s.forwarders[i].Done?
    case JoinFetches =>
      s.main.AwaitingFetches? && forall i | 0 <= i < |results| :: s.fetchers[i].Fetched? || s.fetchers[i].FetchFailed?
    case Finish => s.main.Draining? && s.closer.Closed?
  }

  ghost function Apply(results: seq<Result<Counts>>, s: State, step: Step): State
    requires Sized(results, s) && Enabled(results, s, step)
  {
    match step
    case Spawn => s.(spawned := s.spawned + 1)
    case StartCloser => s.(closer := Waiting, main := AwaitingFetches)
    case FetchReturns(i) =>
      s.(fetchers := s.fetchers[i := if results[i].Ok? then Sending(results[i].value) else FetchFailed])
    case HandOver(i) =>
      s.(fetchers := s.fetchers[i := Fetched], forwarders := s.forwarders[i := Forwarding(s.fetchers[i].counts)])
    case Deliver(i) =>
      s.(forwarders := s.forwarders[i := Delivered], consumed := s.consumed + [s.forwarders[i].counts])
    case ForwarderExits(i) => s.(forwarders := s.forwarders[i := Done])
    case CloseChannel => s.(closer := Closed)
    case JoinFetches =>
      s.(main := if exists i :: 0 <= i < |s.fetchers| && s.fetchers[i].FetchFailed? then Returned(false) else Draining)
    case Finish => s.(main := Returned(true))
  }

  ghost predicate Run(results: seq<Result<Counts>>, tr: seq<State>, steps: seq<Step>) {
    && |tr| == |steps| + 1
    && tr[0] == Init(|results|)
    && forall i {:trigger steps[i]} | 0 <= i < |steps| ::
        && Sized(results, tr[i]) && Enabled(results, tr[i], steps[i])
        && tr[i + 1] == Apply(results, tr[i], steps[i])
  }

  // ---------- the invariant ----------

  /** Endpoint `i`: what its fetcher and forwarder can hold, together. */
  ghost predicate Linked(result: Result<Counts>, f: Fetcher, w: Forwarder, started: bool, main: Main) {
    && (!started ==> f.Fetching? && w.Receiving?)
    && (f.Sending? ==> result == Ok(f.counts))
    && (f.Fetched? ==> result.Ok?)
    && (f.FetchFailed? ==> result.Err?)
    && (w.Receiving? <==> !f.Fetched?)
    && (w.Forwarding? ==> result == Ok(w.counts))
    && (w.Delivered? || w.Done? ==> main.Draining? || main == Returned(true))
    && (main.Draining? || main == Returned(true) ==> f.Fetched?)
  }

  ghost predicate Inv(results: seq<Result<Counts>>, s: State) {
    && Sized(results, s) && s.spawned <= |results|
    && (forall i | 0 <= i < |results| :: Linked(results[i], s.fetchers[i], s.forwarders[i], i < s.spawned, s.main))
    && (s.closer.NotStarted? <==> s.main.Spawning?)
    && (!s.main.Spawning? ==> s.spawned == |results|)
    && (s.closer.Closed? ==> forall i | 0 <= i < |results| :: s.forwarders[i].Done?)
    && (s.main == Returned(true) ==> s.closer.Closed?)
    && (s.main == Returned(false) ==> exists i :: 0 <= i < |results| && s.fetchers[i].FetchFailed?)
    && Balanced(results, s)
  }

  function Share(result: Result<Counts>, c: Counts): nat {
    if result == Ok(c) then 1 else 0
  }

  /** How many of the first `n` endpoints answer `c`. */
  ghost function Expected(results: seq<Result<Counts>>, c: Counts, n: nat): nat
    requires n <= |results|
  {
    if n == 0 then 0 else Expected(results, c, n - 1) + Share(results[n - 1], c)
  }

  predicate HasDelivered(w: Forwarder) {
    w.Delivered? || w.Done?
  }

  /** How many of them have not reached main with it yet. */
  ghost function Undelivered(results: seq<Result<Counts>>, ws: seq<Forwarder>, c: Counts, n: nat): nat
    requires |ws| == |results| && n <= |results|
  {
    if n == 0 then 0
    else Undelivered(results, ws, c, n - 1) + if HasDelivered(ws[n - 1]) then 0 else Share(results[n - 1], c)
  }

  lemma {:induction false} UndeliveredAtFirst(results: seq<Result<Counts>>, ws: seq<Forwarder>, c: Counts, n: nat)
    requires |ws| == |results| && n <= |results| && forall i | 0 <= i < n :: !HasDelivered(ws[i])
    ensures Undelivered(results, ws, c, n) == Expected(results, c, n)
  {
    if n > 0 {
      UndeliveredAtFirst(results, ws, c, n - 1);
    }
  }

  lemma {:induction false} UndeliveredAtLast(results: seq<Result<Counts>>, ws: seq<Forwarder>, c: Counts, n: nat)
    requires |ws| == |results| && n <= |results| && forall i | 0 <= i < n :: HasDelivered(ws[i])
    ensures Undelivered(results, ws, c, n) == 0
  {
    if n > 0 {
      UndeliveredAtLast(results, ws, c, n - 1);
    }
  }

  /** Changing one forwarder matters only if it crosses the line of having delivered. */
  lemma {:induction false} UndeliveredAfter(results: seq<Result<Counts>>, ws: seq<Forwarder>, i: nat, w: Forwarder,
                                            c: Counts, n: nat)
    requires |ws| == |results| && i < |ws| && n <= |results|
    requires HasDelivered(ws[i]) ==> HasDelivered(w)
    ensures Undelivered(results, ws[i := w], c, n) == Undelivered(results, ws, c, n)
            - if i < n && HasDelivered(w) && !HasDelivered(ws[i]) then Share(results[i], c) else 0
  {
    if n > 0 {
      UndeliveredAfter(results, ws, i, w, c, n - 1);
    }
  }

  /** Each answer has been consumed as often as it has been given and delivered. */
  ghost predicate Balanced(results: seq<Result<Counts>>, s: State)
    requires Sized(results, s)
  {
    forall c :: multiset(s.consumed)[c] + Undelivered(results, s.forwarders, c, |results|)
                == Expected(results, c, |results|)
  }

  lemma InitInv(results: seq<Result<Counts>>)
    ensures Inv(results, Init(|results|))
  {
    forall c ensures Undelivered(results, Init(|results|).forwarders, c, |results|) == Expected(results, c, |results|) {
      UndeliveredAtFirst(results, Init(|results|).forwarders, c, |results|);
    }
  }

  lemma StepKeepsBalance(results: seq<Result<Counts>>, s: State, step: Step)
    requires Inv(results, s) && Enabled(results, s, step)
    requires step.HandOver? || step.Deliver? || step.ForwarderExits?
    ensures Balanced(results, Apply(results, s, step))
  {
    var s', i := Apply(results, s, step), step.i;
    assert Linked(results[i], s.fetchers[i], s.forwarders[i], i < s.spawned, s.main);
    forall c
      ensures multiset(s'.consumed)[c] + Undelivered(results, s'.forwarders, c, |results|)
              == Expected(results, c, |results|)
    {
      UndeliveredAfter(results, s.forwarders, i, s'.forwarders[i], c, |results|);
      assert multiset(s.consumed)[c] + Undelivered(results, s.forwarders, c, |results|)
             == Expected(results, c, |results|);
    }
  }

  lemma ForwardKeepsInv(results: seq<Result<Counts>>, s: State, step: Step)
    requires Inv(results, s) && Enabled(results, s, step)
    requires step.HandOver? || step.Deliver? || step.ForwarderExits?
    ensures Inv(results, Apply(results, s, step))
  {
    StepKeepsBalance(results, s, step);
    var i := step.i;
    assert Linked(results[i], s.fetchers[i], s.forwarders[i], i < s.spawned, s.main);
  }

  lemma FetchKeepsInv(results: seq<Result<Counts>>, s: State, i: nat)
    requires Inv(results, s) && Enabled(results, s, FetchReturns(i))
    ensures Inv(results, Apply(results, s, FetchReturns(i)))
  {
    var s' := Apply(results, s, FetchReturns(i));
    assert Linked(results[i], s.fetchers[i], s.forwarders[i], i < s.spawned, s.main);
    if s.main == Returned(false) {
      var j :| 0 <= j < |results| && s.fetchers[j].FetchFailed?;
      assert s'.fetchers[j].FetchFailed?;
    }
  }

  lemma JoinKeepsInv(results: seq<Result<Counts>>, s: State)
    requires Inv(results, s) && Enabled(results, s, JoinFetches)
    ensures Inv(results, Apply(results, s, JoinFetches))
  {
  }

  lemma StepKeepsInv(results: seq<Result<Counts>>, s: State, step: Step)
    requires Inv(results, s) && Enabled(results, s, step)
    ensures Inv(results, Apply(results, s, step))
  {
    match step
    case HandOver(_) => ForwardKeepsInv(results, s, step);
    case Deliver(_) => ForwardKeepsInv(results, s, step);
    case ForwarderExits(_) => ForwardKeepsInv(results, s, step);
    case FetchReturns(i) => FetchKeepsInv(results, s, i);
    case JoinFetches => JoinKeepsInv(results, s);
    case Spawn =>
    case StartCloser =>
    case CloseChannel =>
    case Finish =>
  }

  lemma {:induction false} InvAlongRun(results: seq<Result<Counts>>, tr: seq<State>, steps: seq<Step>, k: nat)
    requires Run(results, tr, steps) && k <= |steps|
    ensures Inv(results, tr[k])
  {
    if k == 0 {
      InitInv(results);
    } else {
      InvAlongRun(results, tr, steps, k - 1);
      var step := steps[k - 1];
      StepKeepsInv(results, tr[k - 1], step);
    }
  }

  // ---------- safety ----------

  /** No goroutine is about to send on the shared channel once it is closed, and it is closed
      only after every forwarder has delivered and exited. */
  lemma NoSendAfterClose(results: seq<Result<Counts>>, tr: seq<State>, steps: seq<Step>, k: nat)
    requires Run(results, tr, steps) && k <= |steps| && tr[k].closer.Closed?
    ensures Sized(results, tr[k]) && forall i | 0 <= i < |results| :: tr[k].forwarders[i].Done?
    ensures forall c :: multiset(tr[k].consumed)[c] == Expected(results, c, |results|)
  {
    InvAlongRun(results, tr, steps, k);
    forall c ensures multiset(tr[k].consumed)[c] == Expected(results, c, |results|) {
      UndeliveredAtLast(results, tr[k].forwarders, c, |results|);
    }
  }

  ghost predicate AllOk(results: seq<Result<Counts>>) {
    forall i | 0 <= i < |results| :: results[i].Ok?
  }

  function Values(results: seq<Result<Counts>>): (vs: seq<Counts>)
    requires forall i | 0 <= i < |results| :: results[i].Ok?
  {
    seq(|results|, i requires 0 <= i < |results| => results[i].value)
  }

  lemma {:induction false} ExpectedIsAll(results: seq<Result<Counts>>, c: Counts, n: nat)
    requires AllOk(results) && n <= |results|
    ensures Expected(results, c, n) == multiset(Values(results)[..n])[c]
  {
    if n > 0 {
      ExpectedIsAll(results, c, n - 1);
      assert Values(results)[..n] == Values(results)[..n - 1] + [results[n - 1].value];
    }
  }

  /** Main returns well exactly when no request failed, and it has then consumed the result of
      every endpoint once and nothing else. */
  lemma MainConsumesEachOnce(results: seq<Result<Counts>>, tr: seq<State>, steps: seq<Step>, k: nat)
    requires Run(results, tr, steps) && k <= |steps| && tr[k].main.Returned?
    ensures tr[k].main.ok <==> AllOk(results)
    ensures AllOk(results) ==> multiset(tr[k].consumed) == multiset(Values(results))
    ensures AllOk(results) ==> Totals(tr[k].consumed) == Totals(Values(results))
  {
    InvAlongRun(results, tr, steps, k);
    var s := tr[k];
    if s.main.ok {
      assert forall i | 0 <= i < |results| :: Linked(results[i], s.fetchers[i], s.forwarders[i], true, s.main);
      NoSendAfterClose(results, tr, steps, k);
      assert Values(results)[..|results|] == Values(results);
      forall c ensures multiset(s.consumed)[c] == multiset(Values(results))[c] {
        ExpectedIsAll(results, c, |results|);
      }
      OrderOfArrivalIrrelevant(s.consumed, Values(results));
    } else {
      var i :| 0 <= i < |results| && s.fetchers[i].FetchFailed?;
      assert Linked(results[i], s.fetchers[i], s.forwarders[i], true, s.main);
    }
  }

  /** After a failed request the forwarder of that endpoint never gets past its receive, so the
      shared channel is never closed and the goroutines stay behind. */
  lemma FailedFetchLeaks(results: seq<Result<Counts>>, tr: seq<State>, steps: seq<Step>, k: nat, i: nat)
    requires Run(results, tr, steps) && k <= |steps| && i < |results| && results[i].Err?
    ensures Sized(results, tr[k]) && tr[k].forwarders[i].Receiving? && !tr[k].closer.Closed?
  {
    InvAlongRun(results, tr, steps, k);
    assert Linked(results[i], tr[k].fetchers[i], tr[k].forwarders[i], i < tr[k].spawned, tr[k].main);
  }

  /** Once main has returned, the shared channel is closed and every forwarder has exited if no
      request failed; otherwise that never comes about. */
  lemma GoroutinesEndIff(results: seq<Result<Counts>>, tr: seq<State>, steps: seq<Step>, k: nat)
    requires Run(results, tr, steps) && k <= |steps| && tr[k].main.Returned?
    ensures Sized(results, tr[k])
    ensures (tr[k].closer.Closed? && forall i | 0 <= i < |results| :: tr[k].forwarders[i].Done?) <==> AllOk(results)
    ensures !AllOk(results) ==>
              forall m | k <= m <= |steps| :: !tr[m].closer.Closed? && exists i :: StuckForwarder(results, tr[m], i)
  {
    InvAlongRun(results, tr, steps, k);
    MainConsumesEachOnce(results, tr, steps, k);
    if i :| 0 <= i < |results| && results[i].Err? {
      forall m | k <= m <= |steps| ensures !tr[m].closer.Closed? && StuckForwarder(results, tr[m], i) {
        FailedFetchLeaks(results, tr, steps, m, i);
      }
      assert StuckForwarder(results, tr[k], i);
    }
  }

  ghost predicate StuckForwarder(results: seq<Result<Counts>>, s: State, i: nat) {
    i < |results| && results[i].Err? && i < |s.forwarders| && s.forwarders[i].Receiving?
  }

  /** And there is such a run, for any error of a single endpoint: main returns it, the forwarder
      and the closer wait for ever. */
  lemma FailingRun(error: string) returns (tr: seq<State>, steps: seq<Step>)
    ensures Run([Err(error)], tr, steps) && steps == [Spawn, StartCloser, FetchReturns(0), JoinFetches]
    ensures tr[4] == State(1, [FetchFailed], [Receiving], Waiting, Returned(false), [])
    ensures forall step :: !Enabled([Err(error)], tr[4], step)
  {
    steps := [Spawn, StartCloser, FetchReturns(0), JoinFetches];
    tr := [State(0, [Fetching], [Receiving], NotStarted, Spawning, []),
           State(1, [Fetching], [Receiving], NotStarted, Spawning, []),
           State(1, [Fetching], [Receiving], Waiting, AwaitingFetches, []),
           State(1, [FetchFailed], [Receiving], Waiting, AwaitingFetches, []),
           State(1, [FetchFailed], [Receiving], Waiting, Returned(false), [])];
    var results: seq<Result<Counts>> := [Err(error)];
    assert tr[0] == Init(|results|);
    assert tr[3].fetchers[0].FetchFailed?;
    forall i | 0 <= i < |steps|
      ensures Sized(results, tr[i]) && Enabled(results, tr[i], steps[i])
      ensures tr[i + 1] == Apply(results, tr[i], steps[i])
    {
      assert i == 0 || i == 1 || i == 2 || i == 3;
    }
    forall step ensures !Enabled(results, tr[4], step) {
      assert !tr[4].forwarders[0].Done?;
    }
  }

  // ---------- progress ----------

  /** As long as main has not returned, some goroutine can move. */
  lemma NeverDeadlocks(results: seq<Result<Counts>>, tr: seq<State>, steps: seq<Step>, k: nat) returns (next: Step)
    requires Run(results, tr, steps) && k <= |steps| && !tr[k].main.Returned?
    ensures Sized(results, tr[k]) && Enabled(results, tr[k], next)
  {
    InvAlongRun(results, tr, steps, k);
    var s := tr[k];
    match s.main
    case Spawning =>
      next := if s.spawned < |results| then Spawn else StartCloser;
    case AwaitingFetches =>
      if i :| 0 <= i < |results| && s.fetchers[i].Fetching? {
        next := FetchReturns(i);
      } else if i :| 0 <= i < |results| && s.fetchers[i].Sending? {
        assert Linked(results[i], s.fetchers[i], s.forwarders[i], true, s.main);
        next := HandOver(i);
      } else {
        next := JoinFetches;
      }
    case Draining =>
      if s.closer.Closed? {
        next := Finish;
      } else if i :| 0 <= i < |results| && s.forwarders[i].Forwarding? {
        next := Deliver(i);
      } else if i :| 0 <= i < |results| && s.forwarders[i].Delivered? {
        next := ForwarderExits(i);
      } else {
        assert forall i | 0 <= i < |results| :: Linked(results[i], s.fetchers[i], s.forwarders[i], true, s.main);
        next := CloseChannel;
      }
  }

  // ---------- termination ----------

  function FetcherRank(f: Fetcher): nat {
    if f.Fetching? then 1 else 0
  }

  function ForwarderRank(w: Forwarder): nat {
    match w case Receiving => 3 case Forwarding(_) => 2 case Delivered => 1 case Done => 0
  }

  ghost function FetcherRanks(fs: seq<Fetcher>, n: nat): nat
    requires n <= |fs|
  {
    if n == 0 then 0 else FetcherRanks(fs, n - 1) + FetcherRank(fs[n - 1])
  }

  ghost function ForwarderRanks(ws: seq<Forwarder>, n: nat): nat
    requires n <= |ws|
  {
    if n == 0 then 0 else ForwarderRanks(ws, n - 1) + ForwarderRank(ws[n - 1])
  }

  lemma {:induction false} FetcherRanksAfter(fs: seq<Fetcher>, i: nat, f: Fetcher, n: nat)
    requires i < |fs| && n <= |fs|
    ensures FetcherRanks(fs[i := f], n) ==
            FetcherRanks(fs, n) + if i < n then FetcherRank(f) - FetcherRank(fs[i]) else 0
  {
    if n > 0 {
      FetcherRanksAfter(fs, i, f, n - 1);
    }
  }

  lemma {:induction false} ForwarderRanksAfter(ws: seq<Forwarder>, i: nat, w: Forwarder, n: nat)
    requires i < |ws| && n <= |ws|
    ensures ForwarderRanks(ws[i := w], n) ==
            ForwarderRanks(ws, n) + if i < n then ForwarderRank(w) - ForwarderRank(ws[i]) else 0
  {
    if n > 0 {
      ForwarderRanksAfter(ws, i, w, n - 1);
    }
  }

  lemma {:induction false} RanksAtFirst(fs: seq<Fetcher>, ws: seq<Forwarder>, n: nat)
    requires n <= |fs| && n <= |ws| && forall i | 0 <= i < n :: fs[i].Fetching? && ws[i].Receiving?
    ensures FetcherRanks(fs, n) == n && ForwarderRanks(ws, n) == 3 * n
  {
    if n > 0 {
      RanksAtFirst(fs, ws, n - 1);
    }
  }

  lemma {:induction false} RanksAtLast(fs: seq<Fetcher>, ws: seq<Forwarder>, n: nat)
    requires n <= |fs| && n <= |ws| && forall i | 0 <= i < n :: fs[i].Fetched? && ws[i].Done?
    ensures FetcherRanks(fs, n) == 0 && ForwarderRanks(ws, n) == 0
  {
    if n > 0 {
      RanksAtLast(fs, ws, n - 1);
    }
  }

  /** The steps left to take if all goes well: every step lowers it. */
  ghost function Measure(results: seq<Result<Counts>>, s: State): int {
    |results| - s.spawned + FetcherRanks(s.fetchers, |s.fetchers|) + ForwarderRanks(s.forwarders, |s.forwarders|)
    + (if s.closer.Closed? then 0 else 1)
    + (match s.main case Spawning => 3 case AwaitingFetches => 2 case Draining => 1 case Returned(_) => 0)
  }

  lemma EndpointStepLowersMeasure(results: seq<Result<Counts>>, s: State, step: Step)
    requires Sized(results, s) && Enabled(results, s, step)
    requires step.FetchReturns? || step.HandOver? || step.Deliver? || step.ForwarderExits?
    ensures Measure(results, Apply(results, s, step)) == Measure(results, s) - 1
  {
    var s', i := Apply(results, s, step), step.i;
    assert s'.fetchers == s.fetchers[i := s'.fetchers[i]] && s'.forwarders == s.forwarders[i := s'.forwarders[i]];
    FetcherRanksAfter(s.fetchers, i, s'.fetchers[i], |results|);
    ForwarderRanksAfter(s.forwarders, i, s'.forwarders[i], |results|);
  }

  lemma StepLowersMeasure(results: seq<Result<Counts>>, s: State, step: Step)
    requires Inv(results, s) && Enabled(results, s, step)
    ensures Measure(results, Apply(results, s, step)) < Measure(results, s)
    ensures AllOk(results) ==> Measure(results, Apply(results, s, step)) == Measure(results, s) - 1
  {
    if step.FetchReturns? || step.HandOver? || step.Deliver? || step.ForwarderExits? {
      EndpointStepLowersMeasure(results, s, step);
    } else if step.JoinFetches? && AllOk(results) {
      forall i | 0 <= i < |results| ensures !s.fetchers[i].FetchFailed? {
        assert Linked(results[i], s.fetchers[i], s.forwarders[i], i < s.spawned, s.main);
      }
    }
  }

  lemma {:induction false} MeasureAlongRun(results: seq<Result<Counts>>, tr: seq<State>, steps: seq<Step>, k: nat)
    requires Run(results, tr, steps) && k <= |steps|
    ensures 0 <= Measure(results, tr[k]) <= 5 * |results| + 4 - k
    ensures AllOk(results) ==> Measure(results, tr[k]) == 5 * |results| + 4 - k
  {
    if k == 0 {
      RanksAtFirst(tr[0].fetchers, tr[0].forwarders, |results|);
    } else {
      MeasureAlongRun(results, tr, steps, k - 1);
      InvAlongRun(results, tr, steps, k - 1);
      InvAlongRun(results, tr, steps, k);
      var step := steps[k - 1];
      StepLowersMeasure(results, tr[k - 1], step);
    }
  }

  lemma NothingLeftToDo(results: seq<Result<Counts>>, s: State)
    requires Inv(results, s) && s.main == Returned(true)
    ensures Measure(results, s) == 0
  {
    forall i | 0 <= i < |results| ensures s.fetchers[i].Fetched? && s.forwarders[i].Done? {
      assert Linked(results[i], s.fetchers[i], s.forwarders[i], i < s.spawned, s.main);
    }
    RanksAtLast(s.fetchers, s.forwarders, |results|);
  }

  /** Every schedule of `n` endpoints ends within `5n + 4` steps; one that cannot go on has main
      returned, and if no request failed main returns after exactly `5n + 4` steps. */
  lemma EveryScheduleEnds(results: seq<Result<Counts>>, tr: seq<State>, steps: seq<Step>)
    requires Run(results, tr, steps)
    ensures |steps| <= 5 * |results| + 4
    ensures Sized(results, tr[|steps|])
    ensures (forall step :: !Enabled(results, tr[|steps|], step)) ==> tr[|steps|].main.Returned?
    ensures AllOk(results) ==> (tr[|steps|].main.Returned? <==> |steps| == 5 * |results| + 4)
  {
    MeasureAlongRun(results, tr, steps, |steps|);
    InvAlongRun(results, tr, steps, |steps|);
    if !tr[|steps|].main.Returned? {
      var next := NeverDeadlocks(results, tr, steps, |steps|);
      StepLowersMeasure(results, tr[|steps|], next);
      StepKeepsInv(results, tr[|steps|], next);
    } else if AllOk(results) {
      MainConsumesEachOnce(results, tr, steps, |steps|);
      NothingLeftToDo(results, tr[|steps|]);
    }
  }
}
