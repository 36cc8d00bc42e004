/** Waiting for a deployment to have ready replicas. The informer stores a new state before it
    broadcasts it; the waiter subscribes before it reads the store, then listens. */
module WaitForReplicas {
  import opened Basics

  /** Namespace and name. */
  type Key = (string, string)

  /** A broadcast: an added or modified deployment, or the last known state of a deleted one. */
  datatype Event = Event(key: Key, ready: int, deleted: bool)

  datatype Waiter =
    | Starting
    | Subscribed             // has its watcher
    | Parked                 // read the store, not ready, listens
    | Served(replicas: int)  // returned without error
    | Failed                 // returned an error: not found, or the context was done

  /** `pending` are broadcasts that no watcher has been given yet, oldest first; `channel` are
      those that passed the waiter's filter and wait to be received. */
  datatype State = State(store: map<Key, int>, pending: seq<Event>, channel: seq<Event>, waiter: Waiter)

  datatype Step =
    | Store(key: Key, ready: int)  // the informer adds or updates a deployment
    | Remove(key: Key)             // the informer deletes one
    | Drop(key: Key)               // the same, but its handler is given no deployment and says nothing
    | Distribute                   // the broadcaster hands out its oldest event
    | Subscribe
    | Get
    | Receive
    | Cancel

  predicate CanServe(ready: int) {
    ready > 0
  }

  /** What an event in the loop's channel makes of the waiter. */
  function AfterEvent(ready: int): Waiter {
    if CanServe(ready) then Served(0) else Parked
  }

  predicate Enabled(s: State, step: Step) {
    match step
    case Store(_, _) => true
    case Remove(key) => key in s.store
    case Drop(key) => key in s.store
    case Distribute => s.pending != []
    case Subscribe => s.waiter.Starting?
    case Get => s.waiter.Subscribed?
    case Receive => s.waiter.Parked? && s.channel != []
    case Cancel => s.waiter.Parked?
  }

  /** `target` is the deployment that the waiter waits for. */
  function Apply(target: Key, s: State, step: Step): State
    requires Enabled(s, step)
  {
    match step
    case Store(key, ready) =>
      s.(store := s.store[key := ready], pending := s.pending + [Event(key, ready, false)])
    case Remove(key) =>
      s.(store := s.store - {key}, pending := s.pending + [Event(key, s.store[key], true)])
    case Drop(key) => s.(store := s.store - {key})
    case Distribute =>
      var e := s.pending[0];
      var listens := s.waiter.Subscribed? || s.waiter.Parked?;
      s.(pending := s.pending[1..],
         channel := if listens && e.key == target then s.channel + [e] else s.channel)
    case Subscribe => s.(waiter := Subscribed)
    case Get =>
      s.(waiter := if target !in s.store then Failed
                   else if CanServe(s.store[target]) then Served(s.store[target])
                   else Parked)
    case Receive => s.(channel := s.channel[1..], waiter := AfterEvent(s.channel[0].ready))
    case Cancel => s.(waiter := Failed)
  }

  ghost predicate Run(target: Key, tr: seq<State>, steps: seq<Step>) {
    && |tr| == |steps| + 1
    && tr[0] == State(map[], [], [], Starting)
    && forall i {:trigger steps[i]} | 0 <= i < |steps| ::
        Enabled(tr[i], steps[i]) && tr[i + 1] == Apply(target, tr[i], steps[i])
  }

  // ---------- no lost wakeup ----------

  function Matching(events: seq<Event>, key: Key): seq<Event> {
    if events == [] then []
    else (if events[0].key == key then [events[0]] else []) + Matching(events[1..], key)
  }

  lemma {:induction false} MatchingOneMore(events: seq<Event>, key: Key, e: Event)
    ensures Matching(events + [e], key) == Matching(events, key) + if e.key == key then [e] else []
  {
    if events != [] {
      MatchingOneMore(events[1..], key, e);
      assert (events + [e])[1..] == events[1..] + [e];
    }
  }

  /** The events about the target that are on their way to the waiter. */
  function Coming(target: Key, s: State): seq<Event> {
    s.channel + Matching(s.pending, target)
  }

  /** What the store has of the deployment is what the event says; it may have dropped it since. */
  predicate Reflects(e: Event, store: map<Key, int>) {
    e.key in store ==> !e.deleted && store[e.key] == e.ready
  }

  predicate NotReady(target: Key, store: map<Key, int>) {
    target !in store || store[target] <= 0
  }

  ghost predicate Inv(target: Key, s: State) {
    && (forall e | e in s.channel :: e.key == target)
    && (s.waiter.Starting? ==> s.channel == [])
    && (s.waiter.Starting? || s.waiter.Subscribed? || s.waiter.Parked? ==>
          var coming := Coming(target, s);
          if coming != [] then
            coming[|coming| - 1].key == target && Reflects(coming[|coming| - 1], s.store)
          else s.waiter.Parked? ==> NotReady(target, s.store))
  }

  lemma StoreKeepsInv(target: Key, s: State, step: Step)
    requires Inv(target, s) && Enabled(s, step) && (step.Store? || step.Remove?)
    ensures Inv(target, Apply(target, s, step))
  {
    var s' := Apply(target, s, step);
    var e := s'.pending[|s.pending|];
    MatchingOneMore(s.pending, target, e);
    assert Coming(target, s') == Coming(target, s) + if e.key == target then [e] else [];
    assert Reflects(e, s'.store);
  }

  lemma DistributeKeepsInv(target: Key, s: State)
    requires Inv(target, s) && Enabled(s, Distribute)
    ensures Inv(target, Apply(target, s, Distribute))
  {
    var s' := Apply(target, s, Distribute);
    if s.waiter.Starting? {
      assert Coming(target, s) == Coming(target, s') || Coming(target, s) == [s.pending[0]] + Coming(target, s');
    } else if s.waiter.Subscribed? || s.waiter.Parked? {
      assert Coming(target, s') == Coming(target, s);
    }
  }

  lemma ReceiveKeepsInv(target: Key, s: State)
    requires Inv(target, s) && Enabled(s, Receive)
    ensures Inv(target, Apply(target, s, Receive))
  {
    assert Coming(target, s) == [s.channel[0]] + Coming(target, Apply(target, s, Receive));
  }

  lemma {:induction false} InvAlongRun(target: Key, tr: seq<State>, steps: seq<Step>, k: nat)
    requires Run(target, tr, steps) && k <= |steps|
    ensures Inv(target, tr[k])
  {
    if k > 0 {
      InvAlongRun(target, tr, steps, k - 1);
      var s, step := tr[k - 1], steps[k - 1];
      match step
      case Store(_, _) => StoreKeepsInv(target, s, step);
      case Remove(_) => StoreKeepsInv(target, s, step);
      case Drop(_) =>
      case Distribute => DistributeKeepsInv(target, s);
      case Receive => ReceiveKeepsInv(target, s);
      case Subscribe =>
      case Get =>
      case Cancel =>
    }
  }

  /** Whenever the waiter is parked and nothing about its deployment is queued or on its way,
      the stored deployment has no ready replica; and whenever the stored one has, an event that
      wakes the waiter is already on its way. */
  lemma NoLostWakeup(target: Key, tr: seq<State>, steps: seq<Step>, k: nat)
    requires Run(target, tr, steps) && k <= |steps| && tr[k].waiter.Parked?
    ensures Coming(target, tr[k]) == [] ==> NotReady(target, tr[k].store)
    ensures !NotReady(target, tr[k].store) ==> exists e :: e in Coming(target, tr[k]) && e.ready > 0
  {
    InvAlongRun(target, tr, steps, k);
    var coming := Coming(target, tr[k]);
    if coming != [] {
      assert coming[|coming| - 1] in coming;
    }
  }

  // ---------- the wakeup does come ----------

  /** The waiter has been woken, or an event that will wake it is on its way. */
  ghost predicate WakeupComing(target: Key, s: State) {
    s.waiter == Served(0) || (s.waiter.Parked? && exists e :: e in Coming(target, s) && e.ready > 0)
  }

  /** How many events are still to be handed out and received. */
  function Backlog(s: State): nat {
    2 * |s.pending| + |s.channel|
  }

  lemma HandOutKeepsWakeup(target: Key, s: State, step: Step)
    requires WakeupComing(target, s) && Enabled(s, step) && (step.Distribute? || step.Receive?)
    ensures WakeupComing(target, Apply(target, s, step)) && Backlog(Apply(target, s, step)) < Backlog(s)
  {
    var s' := Apply(target, s, step);
    if s.waiter.Parked? {
      var e :| e in Coming(target, s) && e.ready > 0;
      if step.Receive? {
        assert Coming(target, s) == [s.channel[0]] + Coming(target, s');
        assert s'.waiter.Parked? ==> e in Coming(target, s');
      } else {
        assert Coming(target, s') == Coming(target, s);
      }
    }
  }

  lemma {:induction false} WakeupKeepsComing(target: Key, tr: seq<State>, steps: seq<Step>, k: nat, j: nat)
    requires Run(target, tr, steps) && k <= j <= |steps| && WakeupComing(target, tr[k])
    requires forall i | k <= i < j :: steps[i].Distribute? || steps[i].Receive?
    ensures WakeupComing(target, tr[j]) && Backlog(tr[j]) + (j - k) <= Backlog(tr[k])
  {
    if j > k {
      WakeupKeepsComing(target, tr, steps, k, j - 1);
      var step := steps[j - 1];
      HandOutKeepsWakeup(target, tr[j - 1], step);
    }
  }

  /** A parked waiter whose deployment is ready in the store returns once what is already queued is
      handed out, in whatever order: if from there on only the broadcaster and the waiter move, they
      cannot move more often than the backlog allows, and when they no longer can the waiter has
      returned. No further change of the deployment is needed. */
  lemma ReadyStoreWakesWaiter(target: Key, tr: seq<State>, steps: seq<Step>, k: nat)
    requires Run(target, tr, steps) && k <= |steps|
    requires tr[k].waiter.Parked? && !NotReady(target, tr[k].store)
    requires forall i | k <= i < |steps| :: steps[i].Distribute? || steps[i].Receive?
    ensures |steps| - k <= Backlog(tr[k])
    ensures !Enabled(tr[|steps|], Distribute) && !Enabled(tr[|steps|], Receive) ==> tr[|steps|].waiter == Served(0)
  {
    NoLostWakeup(target, tr, steps, k);
    WakeupKeepsComing(target, tr, steps, k, |steps|);
  }

  // ---------- success is never invented ----------

  ghost predicate WasStored(tr: seq<State>, k: nat, key: Key, ready: int) {
    exists i :: 0 <= i <= k && i < |tr| && key in tr[i].store && tr[i].store[key] == ready
  }

  lemma {:induction false} EventsWereStored(target: Key, tr: seq<State>, steps: seq<Step>, k: nat)
    requires Run(target, tr, steps) && k <= |steps|
    ensures forall e | e in tr[k].pending || e in tr[k].channel :: WasStored(tr, k, e.key, e.ready)
  {
    if k > 0 {
      EventsWereStored(target, tr, steps, k - 1);
      var s, step := tr[k - 1], steps[k - 1];
      forall e | e in tr[k].pending || e in tr[k].channel ensures WasStored(tr, k, e.key, e.ready) {
        if e in s.pending || e in s.channel {
          var i :| 0 <= i <= k - 1 && i < |tr| && e.key in tr[i].store && tr[i].store[e.key] == e.ready;
        } else if step.Store? {
          assert tr[k].store[e.key] == e.ready;
        } else {
          assert step.Remove? && tr[k - 1].store[e.key] == e.ready;
        }
      }
    }
  }

  /** A return without error means that the deployment was, at some time, stored with ready
      replicas; a positive number returned is one that was stored. */
  lemma {:induction false} ServedOnlyIfReady(target: Key, tr: seq<State>, steps: seq<Step>, k: nat)
    requires Run(target, tr, steps) && k <= |steps| && tr[k].waiter.Served?
    ensures exists ready :: ready > 0 && WasStored(tr, k, target, ready)
    ensures tr[k].waiter.replicas != 0 ==> WasStored(tr, k, target, tr[k].waiter.replicas)
  {
    var s, step := tr[k - 1], steps[k - 1];
    if s.waiter.Served? {
      ServedOnlyIfReady(target, tr, steps, k - 1);
      var ready :| ready > 0 && WasStored(tr, k - 1, target, ready);
      assert WasStored(tr, k, target, ready);
    } else if step.Get? {
      assert s.store[target] > 0 && WasStored(tr, k, target, s.store[target]);
    } else {
      InvAlongRun(target, tr, steps, k - 1);
      EventsWereStored(target, tr, steps, k - 1);
      var e := s.channel[0];
      assert e in s.channel;
      assert WasStored(tr, k - 1, target, e.ready);
      assert e.ready > 0 && WasStored(tr, k, target, e.ready);
    }
  }

  /** A cold start, so that none of the above is empty: the waiter parks on a deployment scaled to
      zero, the first replica becomes ready, and the queued event makes it return zero. */
  lemma ColdStart(target: Key) returns (tr: seq<State>, steps: seq<Step>)
    ensures Run(target, tr, steps) && |steps| == 7
    ensures tr[4].waiter.Parked? && Coming(target, tr[4]) == [] && NotReady(target, tr[4].store)
    ensures tr[5].waiter.Parked? && !NotReady(target, tr[5].store)
    ensures tr[7].waiter == Served(0)
  {
    var e0, e1 := Event(target, 0, false), Event(target, 1, false);
    steps := [Store(target, 0), Distribute, Subscribe, Get, Store(target, 1), Distribute, Receive];
    tr := [State(map[], [], [], Starting),
           State(map[target := 0], [e0], [], Starting),
           State(map[target := 0], [], [], Starting),
           State(map[target := 0], [], [], Subscribed),
           State(map[target := 0], [], [], Parked),
           State(map[target := 1], [e1], [], Parked),
           State(map[target := 1], [], [e1], Parked),
           State(map[target := 1], [], [], Served(0))];
    assert map[target := 0][target := 1] == map[target := 1];
  }

  // ---------- the loop itself ----------

  /** What one turn of the `select` finds. */
  datatype Signal = Deployment(ready: int) | NotADeployment | ContextDone

  predicate Decides(signal: Signal) {
    signal.ContextDone? || (signal.Deployment? && signal.ready > 0)
  }

  /** Where the waiter stands after its read of the store and the signals of its turns. */
  function Waited(first: Option<int>, signals: seq<Signal>): (w: Waiter)
    ensures w.Parked? || w.Served? || w.Failed?
  {
    if signals == [] then
      if first.None? then Failed else if CanServe(first.value) then Served(first.value) else Parked
    else
      var before, last := Waited(first, signals[..|signals| - 1]), signals[|signals| - 1];
      if !before.Parked? || !Decides(last) then before
      else if last.ContextDone? then Failed else Served(0)
  }

  lemma {:induction false} DecidedStays(first: Option<int>, signals: seq<Signal>, n: nat)
    requires n <= |signals| && !Waited(first, signals[..n]).Parked?
    ensures Waited(first, signals) == Waited(first, signals[..n])
  {
    if n == |signals| {
      assert signals[..n] == signals;
    } else {
      var front := signals[..|signals| - 1];
      assert front[..n] == signals[..n];
      DecidedStays(first, front, n);
    }
  }

  /** The wait function from its read of the store on, over the signals of its turns: `Parked`
      means that it is still waiting when they run out. */
  method Wait(first: Option<int>, signals: seq<Signal>) returns (outcome: Waiter, taken: nat)
    ensures outcome == Waited(first, signals)
    ensures first.None? ==> outcome == Failed
    ensures first.Some? && first.value > 0 ==> outcome == Served(first.value)
    ensures first.Some? && first.value <= 0 ==>
      && taken <= |signals|
      && (outcome.Parked? <==> forall i | 0 <= i < |signals| :: !Decides(signals[i]))
      && (outcome.Parked? ==> taken == |signals|)
      && (!outcome.Parked? ==>
            && taken > 0 && Decides(signals[taken - 1])
            && (forall i | 0 <= i < taken - 1 :: !Decides(signals[i]))
            && outcome == if signals[taken - 1].ContextDone? then Failed else Served(0))
  {
    taken := 0;
    assert signals[..0] == [];
    if first.None? {
      DecidedStays(first, signals, 0);
      return Failed, 0;
    }
    if CanServe(first.value) {
      DecidedStays(first, signals, 0);
      return Served(first.value), 0;
    }
    while taken < |signals|
      invariant taken <= |signals| && forall i | 0 <= i < taken :: !Decides(signals[i])
      invariant Waited(first, signals[..taken]) == Parked
    {
      var signal := signals[taken];
      assert signals[..taken + 1][..taken] == signals[..taken];
      taken := taken + 1;
      match signal {
        case Deployment(ready) =>
          if CanServe(ready) {
            DecidedStays(first, signals, taken);
            return Served(0), taken;
          }
        case NotADeployment =>
        case ContextDone =>
          DecidedStays(first, signals, taken);
          return Failed, taken;
      }
    }
    assert signals[..|signals|] == signals;
    outcome := Parked;
  }

  // ---------- the loop in a run ----------

  /** What the waiter gets from the steps `from .. to` of a run. */
  ghost function Signals(tr: seq<State>, steps: seq<Step>, from: nat, to: nat): seq<Signal>
    requires |tr| == |steps| + 1 && from <= to <= |steps|
  {
    if from == to then []
    else
      var step := steps[to - 1];
      Signals(tr, steps, from, to - 1)
      + if step.Receive? && tr[to - 1].channel != [] then [Deployment(tr[to - 1].channel[0].ready)]
        else if step.Cancel? then [ContextDone] else []
  }

  /** The store's answer to the waiter. */
  function Found(store: map<Key, int>, target: Key): Option<int> {
    if target in store then Some(store[target]) else None
  }

  /** In every run, from its read of the store at step `g` on, the waiter stands where the wait
      function stands: failed if the deployment was missing or the context was done first, served
      if it was ready at once or in an event, and waiting otherwise. */
  lemma {:induction false} WaiterIsWait(target: Key, tr: seq<State>, steps: seq<Step>, g: nat, k: nat)
    requires Run(target, tr, steps) && g < k <= |steps| && steps[g].Get?
    ensures tr[k].waiter == Waited(Found(tr[g].store, target), Signals(tr, steps, g + 1, k))
  {
    var get := steps[g];
    if k > g + 1 {
      WaiterIsWait(target, tr, steps, g, k - 1);
      var step := steps[k - 1];
      var before, now := Signals(tr, steps, g + 1, k - 1), Signals(tr, steps, g + 1, k);
      if step.Receive? || step.Cancel? {
        assert now[..|now| - 1] == before;
      } else {
        assert now == before;
      }
    }
  }
}
