/** What the counter says about the whole history of a run: the conservation law, the
    hold of the cooldown, and the runs that show where the guarantees end. */
module QueueHistory {
  import opened Basics
  import opened QueueProtocol

  // ---------- conservation ----------

  /** How often the first `k` steps stored a deadline for `h`. */
  ghost function Posted(tr: seq<State>, steps: seq<Step>, h: Host, k: nat): nat
    requires |tr| == |steps| + 1 && k <= |steps|
  {
    if k == 0 then 0 else
      Posted(tr, steps, h, k - 1) + if PostsFor(tr[k - 1], steps[k - 1], h) then 1 else 0
  }

  ghost predicate PostsFor(s: State, step: Step, h: Host) {
    step.FinishPostpone? && step.request in s.requests && s.requests[step.request].host == h
  }

  /** The sum of the counts of `h` that commits overwrote in the first `k` steps. */
  ghost function Overwritten(tr: seq<State>, steps: seq<Step>, h: Host, k: nat): int
    requires |tr| == |steps| + 1 && k <= |steps|
  {
    if k == 0 then 0 else
      Overwritten(tr, steps, h, k - 1) + if Clears(tr[k - 1], steps[k - 1], h) then At(tr[k - 1].counts, h) else 0
  }

  /** The step is a commit that zeroes `h` and drops its entry. */
  ghost predicate Clears(s: State, step: Step, h: Host) {
    step.Commit? && s.scanned.Some? && h in s.scanned.value
  }

  lemma StepBalance(cfg: Config, s: State, step: Step, h: Host)
    requires Enabled(s, step)
    ensures var s' := Apply(cfg, s, step);
            At(s'.counts, h) - |Live(s', h)| ==
              At(s.counts, h) - |Live(s, h)|
              + (if PostsFor(s, step, h) then 1 else 0)
              - (if Clears(s, step, h) then At(s.counts, h) else 0)
  {
    var s' := Apply(cfg, s, step);
    match step
    case Arrive(r, host) => LiveAfterArrive(s, s', r, host, h);
    case FinishRead(r) => LiveAfterPhase(s, s', r, s'.requests[r], h);
    case ReadClock(r) => LiveAfterPhase(s, s', r, s'.requests[r], h);
    case FinishPostpone(r) => LiveAfterLeaving(s, s', r, h);
    case FinishDecrement(r) => LiveAfterLeaving(s, s', r, h);
    case Scan(_, _) => assert Live(s', h) == Live(s, h);
    case Commit => assert Live(s', h) == Live(s, h);
    case Tick(_) => assert Live(s', h) == Live(s, h);
  }

  /** In every interleaving whatsoever, a count is the live requests plus the deadlines
      stored minus what commits overwrote. */
  lemma {:induction false} CountIsConserved(cfg: Config, tr: seq<State>, steps: seq<Step>, h: Host, k: nat)
    requires Run(cfg, tr, steps) && k <= |steps|
    ensures At(tr[k].counts, h) == |Live(tr[k], h)| + Posted(tr, steps, h, k) - Overwritten(tr, steps, h, k)
  {
    if k == 0 {
      assert Live(tr[0], h) == {};
    } else {
      CountIsConserved(cfg, tr, steps, h, k - 1);
      var step := steps[k - 1];
      StepBalance(cfg, tr[k - 1], step, h);
    }
  }

  // ---------- cooldown disabled ----------

  ghost predicate NothingPostponed(s: State) {
    && s.postponed == map[]
    && (s.scanned.Some? ==> s.scanned.value == {})
    && forall r | r in s.requests :: !s.requests[r].AboutToPostpone()
  }

  /** With the cooldown switched off, no entry ever exists and every count is the number of
      live requests, in every interleaving. */
  lemma {:induction false} DisabledCooldownCountsLive(cfg: Config, tr: seq<State>, steps: seq<Step>, k: nat)
    requires Run(cfg, tr, steps) && k <= |steps| && !cfg.shouldPostpone
    ensures NothingPostponed(tr[k])
    ensures forall h {:trigger At(tr[k].counts, h)} :: At(tr[k].counts, h) == |Live(tr[k], h)|
  {
    if k == 0 {
      forall h ensures At(tr[0].counts, h) == |Live(tr[0], h)| {
        assert Live(tr[0], h) == {};
      }
    } else {
      DisabledCooldownCountsLive(cfg, tr, steps, k - 1);
      var s, step := tr[k - 1], steps[k - 1];
      forall h ensures At(tr[k].counts, h) == |Live(tr[k], h)| {
        StepBalance(cfg, s, step, h);
        assert At(s.counts, h) == |Live(s, h)|;
      }
    }
  }

  // ---------- cooldown hold ----------

  ghost predicate Held(s: State, h: Host, deadline: Time) {
    h in s.postponed && s.postponed[h] == deadline && At(s.counts, h) >= 1
  }

  lemma EntryKeepsCount(s: State, h: Host)
    requires Inv(s) && h in s.postponed
    ensures At(s.counts, h) >= 1
  {
    assert At(s.counts, h) == |Live(s, h)| + Cooling(s, h);
  }

  /** Only a commit of a scan of `h` ends the hold, and it comes after the deadline. */
  lemma StepKeepsHold(cfg: Config, s: State, step: Step, h: Host, deadline: Time)
    requires Inv(s) && Enabled(s, step) && (step.Commit? ==> StillOne(s))
    requires Held(s, h, deadline)
    ensures if Clears(s, step, h) then deadline < s.now else Held(Apply(cfg, s, step), h, deadline)
  {
    if !Clears(s, step, h) {
      StepKeepsInv(cfg, s, step);
      EntryKeepsCount(Apply(cfg, s, step), h);
    }
  }

  /** Step `b` is a scan after step `i` that read the clock past the deadline for `h`, and the
      enforcer has taken no step between it and step `c`. */
  ghost predicate ScannedLate(steps: seq<Step>, i: nat, b: nat, c: nat, h: Host, deadline: Time) {
    && i < b < c <= |steps|
    && steps[b].Scan? && h in steps[b].clock && deadline < steps[b].clock[h]
    && forall m | b < m < c :: !steps[m].Scan? && !steps[m].Commit?
  }

  /** The hold goes on, and if the enforcer has picked the host, it read past the deadline. */
  ghost predicate HeldSoFar(tr: seq<State>, steps: seq<Step>, i: nat, j: nat, h: Host, deadline: Time)
    requires |tr| == |steps| + 1 && j <= |steps|
  {
    && Held(tr[j], h, deadline)
    && (tr[j].scanned.Some? && h in tr[j].scanned.value ==> exists b :: ScannedLate(steps, i, b, j, h, deadline))
  }

  /** Step `c` ended it, as the commit of such a scan. */
  ghost predicate ClearedLate(tr: seq<State>, steps: seq<Step>, i: nat, c: nat, h: Host, deadline: Time)
    requires |tr| == |steps| + 1 && c < |steps|
  {
    Clears(tr[c], steps[c], h) && deadline < tr[c].now && exists b :: ScannedLate(steps, i, b, c, h, deadline)
  }

  lemma HoldBegins(cfg: Config, tr: seq<State>, steps: seq<Step>, i: nat)
    requires Run(cfg, tr, steps) && i < |steps| && CommitsStillOne(tr, steps, i) && steps[i].FinishPostpone?
    ensures var p := tr[i].requests[steps[i].request]; HeldSoFar(tr, steps, i, i + 1, p.host, p.deadline)
  {
    var step := steps[i];
    InvAlongRun(cfg, tr, steps, i);
    StepKeepsInv(cfg, tr[i], step);
    EntryKeepsCount(tr[i + 1], tr[i].requests[step.request].host);
  }

  lemma HoldGoesOn(cfg: Config, tr: seq<State>, steps: seq<Step>, i: nat, j: nat, h: Host, deadline: Time)
    requires Run(cfg, tr, steps) && i < j < |steps| && CommitsStillOne(tr, steps, j + 1)
    requires HeldSoFar(tr, steps, i, j, h, deadline)
    ensures ClearedLate(tr, steps, i, j, h, deadline) || HeldSoFar(tr, steps, i, j + 1, h, deadline)
  {
    var s, s', step := tr[j], tr[j + 1], steps[j];
    InvAlongRun(cfg, tr, steps, j);
    StepKeepsHold(cfg, s, step, h, deadline);
    if step.Scan? {
      assert h in s'.scanned.value ==> ScannedLate(steps, i, j, j + 1, h, deadline);
    } else if !step.Commit? && s.scanned.Some? && h in s.scanned.value {
      var b :| ScannedLate(steps, i, b, j, h, deadline);
      assert ScannedLate(steps, i, b, j + 1, h, deadline);
    }
  }

  /** Once a deadline is stored for a host at step `i`, every later state still holds it with a
      count of at least one, unless some commit in between cleared the host, after a scan that had
      read the clock past the deadline. */
  lemma {:induction false} CooldownHolds(cfg: Config, tr: seq<State>, steps: seq<Step>, i: nat, j: nat)
    requires Run(cfg, tr, steps) && i < j <= |steps| && CommitsStillOne(tr, steps, j)
    requires steps[i].FinishPostpone?
    ensures var p := tr[i].requests[steps[i].request];
            || HeldSoFar(tr, steps, i, j, p.host, p.deadline)
            || exists c :: i < c < j && ClearedLate(tr, steps, i, c, p.host, p.deadline)
  {
    var p := tr[i].requests[steps[i].request];
    if j == i + 1 {
      HoldBegins(cfg, tr, steps, i);
    } else {
      CooldownHolds(cfg, tr, steps, i, j - 1);
      if HeldSoFar(tr, steps, i, j - 1, p.host, p.deadline) {
        HoldGoesOn(cfg, tr, steps, i, j - 1, p.host, p.deadline);
      }
    }
  }

  lemma {:induction false} ClockIsMonotone(cfg: Config, tr: seq<State>, steps: seq<Step>, i: nat, j: nat)
    requires Run(cfg, tr, steps) && i <= j <= |steps|
    ensures tr[i].now <= tr[j].now
  {
    if i < j {
      ClockIsMonotone(cfg, tr, steps, i, j - 1);
      var step := steps[j - 1];
    }
  }

  /** Until the clock passes the stored deadline the host is held, whatever requests come
      and go: its entry is unchanged and its count is at least one. */
  lemma HeldUntilDeadline(cfg: Config, tr: seq<State>, steps: seq<Step>, i: nat, j: nat)
    requires Run(cfg, tr, steps) && i < j <= |steps| && CommitsStillOne(tr, steps, j)
    requires steps[i].FinishPostpone?
    requires tr[j].now <= tr[i].requests[steps[i].request].deadline
    ensures Held(tr[j], tr[i].requests[steps[i].request].host, tr[i].requests[steps[i].request].deadline)
  {
    var p := tr[i].requests[steps[i].request];
    CooldownHolds(cfg, tr, steps, i, j);
    if !Held(tr[j], p.host, p.deadline) {
      var c :| i < c < j && ClearedLate(tr, steps, i, c, p.host, p.deadline);
      ClockIsMonotone(cfg, tr, steps, c, j);
    }
  }

  /** A finisher that has read the clock keeps its deadline until it stores it. */
  lemma {:induction false} DeadlineIsKept(cfg: Config, tr: seq<State>, steps: seq<Step>, i: nat, j: nat)
    requires Run(cfg, tr, steps) && i < j <= |steps| && steps[i].ReadClock?
    requires forall m | i < m < j :: steps[m] != FinishPostpone(steps[i].request)
    ensures var r := steps[i].request;
            && r in tr[j].requests
            && tr[j].requests[r] == Posting(tr[i].requests[r].host, tr[i].now + cfg.postponeDuration)
  {
    if j > i + 1 {
      DeadlineIsKept(cfg, tr, steps, i, j - 1);
      var step := steps[j - 1];
    }
  }

  /** The cooldown lasts its full duration: from the finisher's reading of the clock on, once its
      entry is stored, the host is held until the clock has passed that reading by more than the
      configured duration. */
  lemma HeldForCooldown(cfg: Config, tr: seq<State>, steps: seq<Step>, i: nat, j: nat, k: nat)
    requires Run(cfg, tr, steps) && i < j < k <= |steps| && CommitsStillOne(tr, steps, k)
    requires steps[i].ReadClock? && steps[j] == FinishPostpone(steps[i].request)
    requires forall m | i < m < j :: steps[m] != FinishPostpone(steps[i].request)
    requires tr[k].now <= tr[i].now + cfg.postponeDuration
    ensures Held(tr[k], tr[i].requests[steps[i].request].host, tr[i].now + cfg.postponeDuration)
  {
    DeadlineIsKept(cfg, tr, steps, i, j);
    HeldUntilDeadline(cfg, tr, steps, j, k);
  }

  // ---------- who leaves a cooldown behind ----------

  ghost predicate Leaves(step: Step, r: Request) {
    step == FinishPostpone(r) || step == FinishDecrement(r)
  }

  /** What a finisher decides when it reads the count it keeps until it leaves. */
  lemma {:induction false} DecisionIsKept(cfg: Config, tr: seq<State>, steps: seq<Step>, j: nat, k: nat)
    requires Run(cfg, tr, steps) && j < k <= |steps| && steps[j].FinishRead?
    requires forall m | j < m < k :: !Leaves(steps[m], steps[j].request)
    ensures var r := steps[j].request;
            && r in tr[k].requests && tr[k].requests[r].host == tr[j].requests[r].host
            && !tr[k].requests[r].Serving?
            && (tr[k].requests[r].AboutToPostpone() <==> tr[j + 1].requests[r].Postponing?)
  {
    var read := steps[j];
    if k > j + 1 {
      DecisionIsKept(cfg, tr, steps, j, k - 1);
      var step := steps[k - 1];
    }
  }

  /** In every run: a request that read the count at step `j` and leaves at step `k` leaves its host
      cooling down if and only if the host already was, or the cooldown is on and the count it read
      was one. */
  lemma LeavesCoolingIff(cfg: Config, tr: seq<State>, steps: seq<Step>, j: nat, k: nat)
    requires Run(cfg, tr, steps) && j < k < |steps|
    requires steps[j].FinishRead? && Leaves(steps[k], steps[j].request)
    requires forall m | j < m < k :: !Leaves(steps[m], steps[j].request)
    ensures var h := tr[j].requests[steps[j].request].host;
            h in tr[k + 1].postponed <==>
            h in tr[k].postponed || (cfg.shouldPostpone && At(tr[j].counts, h) == 1)
  {
    DecisionIsKept(cfg, tr, steps, j, k);
    var read, step := steps[j], steps[k];
  }

  /** As long as the counts are exact, that is if and only if the host already was, or the request
      was alone on a host without entry when it read, not when it leaves. */
  lemma ExactLeavesCoolingIff(cfg: Config, tr: seq<State>, steps: seq<Step>, j: nat, k: nat)
    requires Run(cfg, tr, steps) && j < k < |steps| && CommitsStillOne(tr, steps, j) && cfg.shouldPostpone
    requires steps[j].FinishRead? && Leaves(steps[k], steps[j].request)
    requires forall m | j < m < k :: !Leaves(steps[m], steps[j].request)
    ensures var r := steps[j].request; var h := tr[j].requests[r].host;
            h in tr[k + 1].postponed <==>
            h in tr[k].postponed || (Live(tr[j], h) == {r} && h !in tr[j].postponed)
  {
    PostponesIffLast(cfg, tr, steps, j);
    LeavesCoolingIff(cfg, tr, steps, j, k);
    var read := steps[j];
  }

  // ---------- runs that show where the guarantees end ----------

  const COOLDOWN := Config(true, 0)

  /** A host is scanned while idle; a request then arrives before the commit. */
  function RaceStep(h: Host, i: nat): Step {
    if i == 0 then Arrive(0, h)
    else if i == 1 then FinishRead(0)
    else if i == 2 then ReadClock(0)
    else if i == 3 then FinishPostpone(0)
    else if i == 4 then Tick(1)
    else if i == 5 then Scan(map[h := 1], 1)
    else if i == 6 then Arrive(1, h)
    else if i == 7 then Commit
    else if i == 8 then FinishRead(1)
    else FinishDecrement(1)
  }

  function RaceState(h: Host, i: nat): State {
    if i == 0 then State(map[], map[], map[], None, 0)
    else if i == 1 then State(map[h := 1], map[], map[0 := Serving(h)], None, 0)
    else if i == 2 then State(map[h := 1], map[], map[0 := Postponing(h)], None, 0)
    else if i == 3 then State(map[h := 1], map[], map[0 := Posting(h, 0)], None, 0)
    else if i == 4 then State(map[h := 1], map[h := 0], map[], None, 0)
    else if i == 5 then State(map[h := 1], map[h := 0], map[], None, 1)
    else if i == 6 then State(map[h := 1], map[h := 0], map[], Some({h}), 1)
    else if i == 7 then State(map[h := 2], map[h := 0], map[1 := Serving(h)], Some({h}), 1)
    else if i == 8 then State(map[h := 0], map[], map[1 := Serving(h)], None, 1)
    else if i == 9 then State(map[h := 0], map[], map[1 := Decrementing(h)], None, 1)
    else State(map[h := -1], map[], map[], None, 1)
  }

  lemma RaceMoves(h: Host, i: nat)
    requires i < 10
    ensures Enabled(RaceState(h, i), RaceStep(h, i))
    ensures RaceState(h, i + 1) == Apply(COOLDOWN, RaceState(h, i), RaceStep(h, i))
  {
    if i == 5 {
      assert Due(map[h := 1], map[h := 0], map[h := 1]) == {h};
    }
  }

  lemma RaceRuns(h: Host) returns (tr: seq<State>, steps: seq<Step>)
    ensures Run(COOLDOWN, tr, steps) && |steps| == 10
    ensures forall i: nat | i <= 10 :: tr[i] == RaceState(h, i)
    ensures forall i: nat | i < 10 :: steps[i] == RaceStep(h, i)
  {
    forall i: nat | i < 10
      ensures Enabled(RaceState(h, i), RaceStep(h, i))
      ensures RaceState(h, i + 1) == Apply(COOLDOWN, RaceState(h, i), RaceStep(h, i))
    {
      RaceMoves(h, i);
    }
    tr, steps := RunOf(COOLDOWN, (i: nat) => RaceState(h, i), (i: nat) => RaceStep(h, i), 10);
  }

  /** Without the calm hypothesis the counts do break: a commit zeroes a host that has a live
      request, and the request's own decrement then leaves the count at minus one. */
  lemma RaceBreaksCount(h: Host) returns (tr: seq<State>, steps: seq<Step>)
    ensures Run(COOLDOWN, tr, steps) && |steps| == 10
    ensures !Calm(tr, steps) && steps[7] == Commit
    ensures tr[8].counts == map[h := 0] && Live(tr[8], h) == {1}
    ensures tr[10] == State(map[h := -1], map[], map[], None, 1)
  {
    tr, steps := RaceRuns(h);
    assert tr[8] == RaceState(h, 8) && tr[10] == RaceState(h, 10) && steps[7] == RaceStep(h, 7);
    assert !Calm(tr, steps) by {
      assert steps[6] == RaceStep(h, 6) && tr[6] == RaceState(h, 6);
    }
  }

  /** Nor does the cooldown come about after that: the next request is alone on a host without
      entry, reads a count of zero, and leaves no cooldown behind. */
  lemma RaceSkipsCooldown(h: Host) returns (tr: seq<State>, steps: seq<Step>)
    ensures Run(COOLDOWN, tr, steps) && |steps| == 13
    ensures steps[11] == FinishRead(2) && steps[12] == FinishDecrement(2)
    ensures Live(tr[11], h) == {2} && h !in tr[11].postponed && At(tr[11].counts, h) == 0
    ensures Live(tr[13], h) == {} && h !in tr[13].postponed
  {
    var tr0, steps0 := RaceBreaksCount(h);
    var s := tr0[10];
    var s1 := Apply(COOLDOWN, s, Arrive(2, h));
    var s2 := Apply(COOLDOWN, s1, FinishRead(2));
    var s3 := Apply(COOLDOWN, s2, FinishDecrement(2));
    tr := tr0 + [s1, s2, s3];
    steps := steps0 + [Arrive(2, h), FinishRead(2), FinishDecrement(2)];
  }

  function OverlapStep(h: Host, i: nat): Step {
    if i < 2 then Arrive(i, h) else if i < 4 then FinishRead(i - 2) else FinishDecrement(if i == 4 then 0 else 1)
  }

  function OverlapState(h: Host, i: nat): State {
    var requests := map[0 := Serving(h), 1 := Serving(h)];
    if i == 0 then State(map[], map[], map[], None, 0)
    else if i == 1 then State(map[h := 1], map[], map[0 := Serving(h)], None, 0)
    else if i == 2 then State(map[h := 2], map[], requests, None, 0)
    else if i == 3 then State(map[h := 2], map[], requests[0 := Decrementing(h)], None, 0)
    else if i == 4 then State(map[h := 2], map[], requests[0 := Decrementing(h)][1 := Decrementing(h)], None, 0)
    else if i == 5 then State(map[h := 1], map[], map[1 := Decrementing(h)], None, 0)
    else State(map[h := 0], map[], map[], None, 0)
  }

  lemma OverlapMoves(h: Host, i: nat)
    requires i < 6
    ensures Enabled(OverlapState(h, i), OverlapStep(h, i))
    ensures OverlapState(h, i + 1) == Apply(COOLDOWN, OverlapState(h, i), OverlapStep(h, i))
  {
    if i == 1 {
      assert map[0 := Serving(h)][1 := Serving(h)] == map[0 := Serving(h), 1 := Serving(h)];
    }
  }

  /** Two overlapping finishes that both read a count of two leave no cooldown behind, even
      in a calm run with the cooldown switched on. */
  lemma OverlappingFinishesSkipCooldown(h: Host) returns (tr: seq<State>, steps: seq<Step>)
    ensures Run(COOLDOWN, tr, steps) && Calm(tr, steps)
    ensures |steps| == 6 && steps[5].FinishDecrement?
    ensures Live(tr[6], h) == {} && tr[6].postponed == map[] && tr[6].counts == map[h := 0]
  {
    forall i: nat | i < 6
      ensures Enabled(OverlapState(h, i), OverlapStep(h, i))
      ensures OverlapState(h, i + 1) == Apply(COOLDOWN, OverlapState(h, i), OverlapStep(h, i))
    {
      OverlapMoves(h, i);
    }
    tr, steps := RunOf(COOLDOWN, (i: nat) => OverlapState(h, i), (i: nat) => OverlapStep(h, i), 6);
  }
}
