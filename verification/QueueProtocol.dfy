/** The pending-request counter of one interceptor as a step system.

    Every request handler, the cooldown enforcer and the clock take steps in any
    order; one step is one critical section of the queue's lock, or one read of the
    clock outside it. */
module QueueProtocol {
  import opened Basics

  type Request = nat
  type Time = int

  /** Where the handler of one request stands. */
  datatype Phase =
    | Serving(host: Host)                   // counted, `next` is running
    | Decrementing(host: Host)              // decided to subtract one
    | Postponing(host: Host)                // read a count of one, will read the clock
    | Posting(host: Host, deadline: Time)   // has its deadline, will store it
  {
    predicate AboutToPostpone() {
      Postponing? || Posting?
    }
  }

  datatype Config = Config(shouldPostpone: bool, postponeDuration: Time)

  /** `scanned` is the enforcer's `hostsToModify` between its two critical sections. */
  datatype State = State(
    counts: map<Host, int>,
    postponed: map<Host, Time>,
    requests: map<Request, Phase>,
    scanned: Option<set<Host>>,
    now: Time)

  /** `Scan` carries the reading of the clock made for each postponed host and the time
      at which the scan ends, because the enforcer reads the clock once per host. */
  datatype Step =
    | Arrive(request: Request, host: Host)
    | FinishRead(request: Request)
    | ReadClock(request: Request)
    | FinishPostpone(request: Request)
    | FinishDecrement(request: Request)
    | Scan(clock: map<Host, Time>, end: Time)
    | Commit
    | Tick(to: Time)

  // ---------- what one critical section does to the maps ----------

  function Resized(counts: map<Host, int>, host: Host, delta: int): map<Host, int> {
    counts[host := At(counts, host) + delta]
  }

  function Due(counts: map<Host, int>, postponed: map<Host, Time>, clock: map<Host, Time>): set<Host>
    requires postponed.Keys <= clock.Keys
  {
    set h | h in postponed && postponed[h] < clock[h] && At(counts, h) == 1
  }

  function Zeroed(counts: map<Host, int>, hosts: set<Host>): map<Host, int> {
    counts + map h | h in hosts :: 0
  }

  // ---------- the steps ----------

  predicate Enabled(s: State, step: Step) {
    match step
    case Arrive(r, _) => r !in s.requests
    case FinishRead(r) => r in s.requests && s.requests[r].Serving?
    case ReadClock(r) => r in s.requests && s.requests[r].Postponing?
    case FinishPostpone(r) => r in s.requests && s.requests[r].Posting?
    case FinishDecrement(r) => r in s.requests && s.requests[r].Decrementing?
    case Scan(clock, end) =>
      && s.scanned.None?
      && s.postponed.Keys <= clock.Keys
      && s.now <= end
      && forall h | h in s.postponed :: s.now <= clock[h] <= end
    case Commit => s.scanned.Some?
    case Tick(to) => s.now <= to
  }

  function Apply(cfg: Config, s: State, step: Step): State
    requires Enabled(s, step)
  {
    match step
    case Arrive(r, h) =>
      s.(counts := Resized(s.counts, h, 1), requests := s.requests[r := Serving(h)])
    case FinishRead(r) =>
      var h := s.requests[r].host;
      var phase := if cfg.shouldPostpone && At(s.counts, h) == 1 then Postponing(h) else Decrementing(h);
      s.(requests := s.requests[r := phase])
    case ReadClock(r) =>
      s.(requests := s.requests[r := Posting(s.requests[r].host, s.now + cfg.postponeDuration)])
    case FinishPostpone(r) =>
      s.(postponed := s.postponed[s.requests[r].host := s.requests[r].deadline], requests := s.requests - {r})
    case FinishDecrement(r) =>
      s.(counts := Resized(s.counts, s.requests[r].host, -1), requests := s.requests - {r})
    case Scan(clock, end) =>
      s.(scanned := Some(Due(s.counts, s.postponed, clock)), now := end)
    case Commit =>
      s.(counts := Zeroed(s.counts, s.scanned.value),
         postponed := s.postponed - s.scanned.value,
         scanned := None)
    case Tick(to) => s.(now := to)
  }

  function Init(start: Time): State {
    State(map[], map[], map[], None, start)
  }

  /** `tr` and `steps` are one run: any number of steps in any order, from the empty queue. */
  ghost predicate Run(cfg: Config, tr: seq<State>, steps: seq<Step>) {
    && |tr| == |steps| + 1
    && tr[0] == Init(tr[0].now)
    && forall i {:trigger steps[i]} | 0 <= i < |steps| ::
        Enabled(tr[i], steps[i]) && tr[i + 1] == Apply(cfg, tr[i], steps[i])
  }

  /** A run given step by step. */
  lemma RunOf(cfg: Config, states: nat -> State, moves: nat -> Step, n: nat)
    returns (tr: seq<State>, steps: seq<Step>)
    requires states(0) == Init(states(0).now)
    requires forall i: nat {:trigger moves(i)} | i < n ::
               Enabled(states(i), moves(i)) && states(i + 1) == Apply(cfg, states(i), moves(i))
    ensures Run(cfg, tr, steps) && |steps| == n
    ensures (forall i: nat | i <= n :: tr[i] == states(i)) && forall i: nat | i < n :: steps[i] == moves(i)
  {
    tr, steps := seq(n + 1, i requires 0 <= i => states(i)), seq(n, i requires 0 <= i => moves(i));
  }

  // ---------- what the counter is meant to say ----------

  /** The requests for `h` that have arrived and not yet finished. */
  function Live(s: State, h: Host): set<Request> {
    set r | r in s.requests && s.requests[r].host == h
  }

  function Cooling(s: State, h: Host): int {
    if h in s.postponed then 1 else 0
  }

  /** Every count is the number of live requests, plus one while the host is cooling down. */
  ghost predicate Exact(s: State) {
    forall h {:trigger At(s.counts, h)} :: At(s.counts, h) == |Live(s, h)| + Cooling(s, h)
  }

  /** At most one finisher per host is about to postpone, and only where no entry exists. */
  ghost predicate SolePostponer(s: State) {
    forall r | r in s.requests && s.requests[r].AboutToPostpone() ::
      && s.requests[r].host !in s.postponed
      && forall r' | r' in s.requests && s.requests[r'].AboutToPostpone()
                     && s.requests[r'].host == s.requests[r].host :: r' == r
  }

  /** A scanned host still has its entry, and that entry is overdue. */
  ghost predicate ScannedOverdue(s: State) {
    s.scanned.Some? ==> forall h | h in s.scanned.value :: h in s.postponed && s.postponed[h] < s.now
  }

  ghost predicate Inv(s: State) {
    Exact(s) && SolePostponer(s) && ScannedOverdue(s)
  }

  /** The check that the enforcer made at its scan still holds: every scanned count is one. */
  ghost predicate StillOne(s: State) {
    s.scanned.Some? ==> forall h | h in s.scanned.value :: At(s.counts, h) == 1
  }

  /** No request for a scanned host arrives between a scan and its commit. */
  ghost predicate Calm(tr: seq<State>, steps: seq<Step>)
    requires |tr| == |steps| + 1
  {
    forall i {:trigger steps[i]} | 0 <= i < |steps| && steps[i].Arrive? && tr[i].scanned.Some? ::
      steps[i].host !in tr[i].scanned.value
  }

  /** Every commit up to step `k` finds each scanned count still at one. */
  ghost predicate CommitsStillOne(tr: seq<State>, steps: seq<Step>, k: nat)
    requires |tr| == |steps| + 1 && k <= |steps|
  {
    forall i {:trigger steps[i]} | 0 <= i < k && steps[i].Commit? :: StillOne(tr[i])
  }

  // ---------- live requests, step by step ----------

  lemma LiveAfterArrive(s: State, s': State, r: Request, host: Host, h: Host)
    requires r !in s.requests && s'.requests == s.requests[r := Serving(host)]
    ensures |Live(s', h)| == |Live(s, h)| + (if h == host then 1 else 0)
  {
    if h == host {
      assert Live(s', h) == Live(s, h) + {r};
    } else {
      assert Live(s', h) == Live(s, h);
    }
  }

  lemma LiveAfterLeaving(s: State, s': State, r: Request, h: Host)
    requires r in s.requests && s'.requests == s.requests - {r}
    ensures |Live(s', h)| == |Live(s, h)| - (if h == s.requests[r].host then 1 else 0)
  {
    if h == s.requests[r].host {
      assert Live(s', h) == Live(s, h) - {r};
    } else {
      assert Live(s', h) == Live(s, h);
    }
  }

  lemma LiveAfterPhase(s: State, s': State, r: Request, phase: Phase, h: Host)
    requires r in s.requests && phase.host == s.requests[r].host
    requires s'.requests == s.requests[r := phase]
    ensures Live(s', h) == Live(s, h)
  {
  }

  /** A request that is counted, alone, on a host without entry is the only live one. */
  lemma SoleLive(s: State, r: Request, r': Request)
    requires Exact(s) && r in s.requests && r' in s.requests
    requires s.requests[r'].host == s.requests[r].host
    requires At(s.counts, s.requests[r].host) == 1
    ensures s.requests[r].host !in s.postponed && r' == r
  {
    var h := s.requests[r].host;
    assert r in Live(s, h) && r' in Live(s, h);
    if r' != r {
      assert {r, r'} <= Live(s, h);
      SubsetSize({r, r'}, Live(s, h));
    } else {
      SubsetSize({r}, Live(s, h));
    }
  }

  lemma SubsetSize<T>(a: set<T>, b: set<T>)
    requires a <= b
    ensures |a| <= |b|
  {
    assert b == a + (b - a);
  }

  // ---------- the invariant, step by step ----------

  lemma ArriveKeepsInv(cfg: Config, s: State, step: Step)
    requires Inv(s) && step.Arrive? && Enabled(s, step)
    ensures Inv(Apply(cfg, s, step))
  {
    var s' := Apply(cfg, s, step);
    forall h ensures At(s'.counts, h) == |Live(s', h)| + Cooling(s', h) {
      LiveAfterArrive(s, s', step.request, step.host, h);
      assert At(s.counts, h) == |Live(s, h)| + Cooling(s, h);
    }
  }

  lemma FinishReadKeepsInv(cfg: Config, s: State, step: Step)
    requires Inv(s) && step.FinishRead? && Enabled(s, step)
    ensures Inv(Apply(cfg, s, step))
  {
    var s', r := Apply(cfg, s, step), step.request;
    forall h ensures At(s'.counts, h) == |Live(s', h)| + Cooling(s', h) {
      LiveAfterPhase(s, s', r, s'.requests[r], h);
      assert At(s.counts, h) == |Live(s, h)| + Cooling(s, h);
    }
    if s'.requests[r].Postponing? {
      forall r' | r' in s.requests && s.requests[r'].host == s.requests[r].host
        ensures r' == r && s.requests[r].host !in s.postponed
      {
        SoleLive(s, r, r');
      }
    }
  }

  lemma ReadClockKeepsInv(cfg: Config, s: State, step: Step)
    requires Inv(s) && step.ReadClock? && Enabled(s, step)
    ensures Inv(Apply(cfg, s, step))
  {
    var s', r := Apply(cfg, s, step), step.request;
    forall h ensures At(s'.counts, h) == |Live(s', h)| + Cooling(s', h) {
      LiveAfterPhase(s, s', r, s'.requests[r], h);
      assert At(s.counts, h) == |Live(s, h)| + Cooling(s, h);
    }
  }

  lemma LeaveKeepsInv(cfg: Config, s: State, step: Step)
    requires Inv(s) && (step.FinishPostpone? || step.FinishDecrement?) && Enabled(s, step)
    ensures Inv(Apply(cfg, s, step))
  {
    var s' := Apply(cfg, s, step);
    forall h ensures At(s'.counts, h) == |Live(s', h)| + Cooling(s', h) {
      LiveAfterLeaving(s, s', step.request, h);
      assert At(s.counts, h) == |Live(s, h)| + Cooling(s, h);
    }
  }

  lemma ScanKeepsInv(cfg: Config, s: State, step: Step)
    requires Inv(s) && (step.Scan? || step.Tick?) && Enabled(s, step)
    ensures Inv(Apply(cfg, s, step))
  {
    var s' := Apply(cfg, s, step);
    forall h ensures At(s'.counts, h) == |Live(s', h)| + Cooling(s', h) {
      assert Live(s', h) == Live(s, h);
      assert At(s.counts, h) == |Live(s, h)| + Cooling(s, h);
    }
  }

  /** From a state of the invariant, a commit keeps the counts exact exactly when every
      scanned count is still one, which is when no scanned host has a live request. */
  lemma CommitExactIff(cfg: Config, s: State)
    requires Inv(s) && Enabled(s, Commit)
    ensures Exact(Apply(cfg, s, Commit)) <==> StillOne(s)
    ensures StillOne(s) <==> forall h | h in s.scanned.value :: Live(s, h) == {}
    ensures StillOne(s) ==> Inv(Apply(cfg, s, Commit))
  {
    var s' := Apply(cfg, s, Commit);
    forall h
      ensures At(s'.counts, h) == |Live(s', h)| + Cooling(s', h)
              <==> (h in s.scanned.value ==> At(s.counts, h) == 1)
      ensures h in s.scanned.value ==> (At(s.counts, h) == 1 <==> Live(s, h) == {})
    {
      assert Live(s', h) == Live(s, h);
      assert At(s.counts, h) == |Live(s, h)| + Cooling(s, h);
      assert Live(s, h) == {} <==> |Live(s, h)| == 0;
    }
  }

  lemma StepKeepsInv(cfg: Config, s: State, step: Step)
    requires Inv(s) && Enabled(s, step)
    requires step.Commit? ==> StillOne(s)
    ensures Inv(Apply(cfg, s, step))
  {
    match step
    case Arrive(_, _) => ArriveKeepsInv(cfg, s, step);
    case FinishRead(_) => FinishReadKeepsInv(cfg, s, step);
    case ReadClock(_) => ReadClockKeepsInv(cfg, s, step);
    case FinishPostpone(_) => LeaveKeepsInv(cfg, s, step);
    case FinishDecrement(_) => LeaveKeepsInv(cfg, s, step);
    case Scan(_, _) => ScanKeepsInv(cfg, s, step);
    case Tick(_) => ScanKeepsInv(cfg, s, step);
    case Commit => CommitExactIff(cfg, s);
  }

  lemma {:induction false} InvAlongRun(cfg: Config, tr: seq<State>, steps: seq<Step>, k: nat)
    requires Run(cfg, tr, steps) && k <= |steps| && CommitsStillOne(tr, steps, k)
    ensures Inv(tr[k])
  {
    if k == 0 {
      forall h ensures At(tr[0].counts, h) == |Live(tr[0], h)| + Cooling(tr[0], h) {
        assert Live(tr[0], h) == {};
      }
    } else {
      InvAlongRun(cfg, tr, steps, k - 1);
      var step := steps[k - 1];
      StepKeepsInv(cfg, tr[k - 1], step);
    }
  }

  // ---------- when the counts are exact ----------

  lemma {:induction false} ExactForcesStillOne(cfg: Config, tr: seq<State>, steps: seq<Step>, k: nat)
    requires Run(cfg, tr, steps) && k <= |steps|
    requires forall i | 0 <= i < |tr| :: Exact(tr[i])
    ensures CommitsStillOne(tr, steps, k)
  {
    if k > 0 {
      ExactForcesStillOne(cfg, tr, steps, k - 1);
      InvAlongRun(cfg, tr, steps, k - 1);
      if steps[k - 1].Commit? {
        CommitExactIff(cfg, tr[k - 1]);
      }
    }
  }

  /** The counts are exact in every state of a run if and only if each commit finds every
      scanned count still at one: the very check the enforcer does not repeat. */
  lemma ExactIffCommitsStillOne(cfg: Config, tr: seq<State>, steps: seq<Step>)
    requires Run(cfg, tr, steps)
    ensures (forall i | 0 <= i < |tr| :: Exact(tr[i])) <==> CommitsStillOne(tr, steps, |steps|)
  {
    if forall i | 0 <= i < |tr| :: Exact(tr[i]) {
      ExactForcesStillOne(cfg, tr, steps, |steps|);
    }
    if CommitsStillOne(tr, steps, |steps|) {
      forall i | 0 <= i < |tr| ensures Exact(tr[i]) {
        InvAlongRun(cfg, tr, steps, i);
      }
    }
  }

  // ---------- calm runs ----------

  ghost predicate ScannedQuiet(s: State) {
    s.scanned.Some? ==> forall h | h in s.scanned.value :: Live(s, h) == {}
  }

  lemma StepKeepsQuiet(cfg: Config, s: State, step: Step)
    requires Inv(s) && ScannedQuiet(s) && Enabled(s, step)
    requires step.Arrive? && s.scanned.Some? ==> step.host !in s.scanned.value
    ensures ScannedQuiet(Apply(cfg, s, step))
  {
    var s' := Apply(cfg, s, step);
    if s'.scanned.Some? {
      forall h | h in s'.scanned.value ensures Live(s', h) == {} {
        assert At(s.counts, h) == |Live(s, h)| + Cooling(s, h);
        assert step.Scan? ==> |Live(s, h)| == 0;
        assert Live(s, h) == {};
        assert Live(s', h) <= Live(s, h);
      }
    }
  }

  lemma {:induction false} QuietAlongRun(cfg: Config, tr: seq<State>, steps: seq<Step>, k: nat)
    requires Run(cfg, tr, steps) && Calm(tr, steps) && k <= |steps|
    ensures CommitsStillOne(tr, steps, k) && ScannedQuiet(tr[k])
  {
    if k > 0 {
      QuietAlongRun(cfg, tr, steps, k - 1);
      InvAlongRun(cfg, tr, steps, k - 1);
      var step := steps[k - 1];
      StepKeepsQuiet(cfg, tr[k - 1], step);
      if step.Commit? {
        CommitExactIff(cfg, tr[k - 1]);
      }
    }
  }

  /** In every calm run: the counts are exact and never negative, at most one finisher per
      host is about to postpone, and a commit zeroes only hosts with no live request. */
  lemma CalmRunIsExact(cfg: Config, tr: seq<State>, steps: seq<Step>, k: nat)
    requires Run(cfg, tr, steps) && Calm(tr, steps) && k <= |steps|
    ensures CommitsStillOne(tr, steps, k) && Exact(tr[k]) && SolePostponer(tr[k])
    ensures forall h {:trigger At(tr[k].counts, h)} :: At(tr[k].counts, h) >= 0
    ensures k < |steps| && steps[k].Commit? ==> forall h | h in tr[k].scanned.value :: Live(tr[k], h) == {}
  {
    QuietAlongRun(cfg, tr, steps, k);
    InvAlongRun(cfg, tr, steps, k);
  }

  // ---------- as long as commits find the counts at one ----------

  /** A finisher postpones exactly when it is the last live request of a host that is not
      already cooling down. */
  lemma PostponesIffLast(cfg: Config, tr: seq<State>, steps: seq<Step>, k: nat)
    requires Run(cfg, tr, steps) && k < |steps| && CommitsStillOne(tr, steps, k)
    requires steps[k].FinishRead? && cfg.shouldPostpone
    ensures var r := steps[k].request; var h := tr[k].requests[r].host;
            tr[k + 1].requests[r].Postponing? <==> Live(tr[k], h) == {r} && h !in tr[k].postponed
  {
    InvAlongRun(cfg, tr, steps, k);
    var s, r := tr[k], steps[k].request;
    var h := s.requests[r].host;
    assert At(s.counts, h) == |Live(s, h)| + Cooling(s, h);
    assert r in Live(s, h);
    if At(s.counts, h) == 1 {
      forall r' | r' in Live(s, h) ensures r' == r {
        SoleLive(s, r, r');
      }
    }
  }

  /** The enforcer picks a host exactly when its entry is overdue and no request for it is live:
      it neither misses an idle host nor touches a busy one. */
  lemma ScanPicksIff(cfg: Config, tr: seq<State>, steps: seq<Step>, k: nat, h: Host)
    requires Run(cfg, tr, steps) && k < |steps| && CommitsStillOne(tr, steps, k) && steps[k].Scan?
    ensures h in tr[k + 1].scanned.value <==>
            h in tr[k].postponed && tr[k].postponed[h] < steps[k].clock[h] && Live(tr[k], h) == {}
  {
    InvAlongRun(cfg, tr, steps, k);
    var s := tr[k];
    assert At(s.counts, h) == |Live(s, h)| + Cooling(s, h);
    assert Live(s, h) == {} <==> |Live(s, h)| == 0;
  }
}
