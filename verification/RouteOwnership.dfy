/** Routes have no owner: which routes an object leaves behind when it goes, and whose routes it
    takes with it. */
module RouteOwnership {
  import opened Basics
  import opened RoutingTable
  import opened Finalizers
  import opened Reconciler
  import opened RoutingHistory
  import P = Propagation

  // ---------- what a release leaves behind ----------

  /** A step that takes an object's finalizer away removes exactly the hosts that the object lists
      in its `hosts` field at that time, whoever registered them; everything else stays routed as
      it was, and the ConfigMap says the same. */
  lemma ReleaseRoutes(codec: P.Codec, w: World, step: Step, name: string)
    requires P.RoundTrips(codec) && Enabled(w, step) && Guarded(w, name)
    requires !Guarded(Apply(codec, w, step), name)
    ensures var s, s', listed := w.routing, Apply(codec, w, step).routing, w.objects[name].spec.hosts;
            && (forall h :: h in s'.table <==> h in s.table && !(listed.Some? && h in listed.value))
            && (forall h | h in s'.table :: s'.table[h] == s.table[h])
            && P.Fetched(codec, s'.cm) == Some(s'.table)
  {
    StepReleasesCleanly(codec, w, step, name);
    RemovalEffect(codec, w.routing, ListedHosts(w.objects[name].spec), step.api.remove);
  }

  /** So it unroutes any given hosts, such as all those the object has ever asked for, if and only
      if each of them is listed at that time or was not routed anyway. */
  lemma ReleaseUnroutesIff(codec: P.Codec, w: World, step: Step, name: string, hosts: seq<Host>)
    requires P.RoundTrips(codec) && Enabled(w, step) && Guarded(w, name)
    requires !Guarded(Apply(codec, w, step), name)
    ensures Unrouted(codec, Apply(codec, w, step).routing, hosts) <==>
            var listed := w.objects[name].spec.hosts;
            forall h | h in hosts :: (listed.Some? && h in listed.value) || h !in w.routing.table
  {
    ReleaseRoutes(codec, w, step, name);
    var s' := Apply(codec, w, step).routing;
    if Unrouted(codec, s', hosts) {
      var listed := w.objects[name].spec.hosts;
      forall h | h in hosts ensures (listed.Some? && h in listed.value) || h !in w.routing.table {
        assert h !in s'.table;
      }
    }
  }

  // ---------- runs in which every call succeeds ----------

  const ALL_OK := Calls(true, true, true)
  const QUIET_API := Api(true, true, ALL_OK, ALL_OK, ALL_OK)

  const RELEASED: seq<string> := []
  const HELD := [HTTP_SCALED_OBJECT_FINALIZER]

  lemma SingleFinalizer()
    ensures Ensured(RELEASED) == HELD && Ensured(HELD) == HELD
    ensures FinalizedTo(HELD, true) == RELEASED
  {
    EnsureThenFinalize(RELEASED);
    assert Ensured(RELEASED) == HELD;
  }

  /** A quiet reconcile holds a live object and releases one under deletion; the ConfigMap ends up
      with the table. */
  lemma QuietReconcile(codec: P.Codec, w: World, name: string)
    requires P.RoundTrips(codec) && name in w.objects
    requires var o := w.objects[name];
             o.finalizers == HELD || (o.finalizers == RELEASED && !o.deleting)
    requires w.objects[name].deleting || (w.objects[name].spec.hosts.Some? <==> w.objects[name].spec.host.None?)
    ensures var w', o := Apply(codec, w, Reconcile(name, QUIET_API)), w.objects[name];
            && w'.objects == w.objects[name := o.(finalizers := if o.deleting then RELEASED else HELD)]
            && P.Fetched(codec, w'.routing.cm) == Some(w'.routing.table)
  {
    SingleFinalizer();
    ReconcilePublishesOnce(codec, w.routing, w.objects[name], QUIET_API);
  }

  function Empty(cm: P.ConfigMap): World {
    World(P.State(map[], cm, map[]), map[])
  }

  /** A run can be extended by any step that is enabled. */
  lemma Extended(codec: P.Codec, tr: seq<World>, steps: seq<Step>, step: Step)
    returns (tr': seq<World>, steps': seq<Step>)
    requires Run(codec, tr, steps) && Enabled(tr[|steps|], step)
    ensures Run(codec, tr', steps') && steps' == steps + [step] && |tr'| == |tr| + 1
    ensures tr'[..|tr|] == tr && tr'[|tr|] == Apply(codec, tr[|steps|], step)
  {
    tr', steps' := tr + [Apply(codec, tr[|steps|], step)], steps + [step];
  }

  /** The world after a step and a quiet reconcile. */
  function Settled(codec: P.Codec, w: World, step: Step, name: string): World
    requires Enabled(w, step)
  {
    Apply(codec, Apply(codec, w, step), Reconcile(name, QUIET_API))
  }

  lemma ThenReconciled(codec: P.Codec, tr: seq<World>, steps: seq<Step>, step: Step, name: string)
    returns (tr': seq<World>, steps': seq<Step>)
    requires Run(codec, tr, steps) && Enabled(tr[|steps|], step)
    ensures Run(codec, tr', steps') && |steps'| == |steps| + 2 && tr'[..|tr|] == tr
    ensures steps' == steps + [step, Reconcile(name, QUIET_API)]
    ensures tr'[|steps'|] == Settled(codec, tr[|steps|], step, name)
  {
    var tr1, steps1 := Extended(codec, tr, steps, step);
    tr', steps' := Extended(codec, tr1, steps1, Reconcile(name, QUIET_API));
    assert tr'[..|tr|] == tr1[..|tr|];
  }

  /** A user creates an object and it is reconciled: its hosts are routed, to its target where they
      were free. */
  lemma CreatedAndReconciled(codec: P.Codec, tr: seq<World>, steps: seq<Step>, name: string, spec: Spec, h: Host)
    returns (tr': seq<World>, steps': seq<Step>)
    requires Run(codec, tr, steps) && P.RoundTrips(codec) && name !in tr[|steps|].objects
    requires Asks(spec, h)
    ensures Run(codec, tr', steps') && |steps'| == |steps| + 2 && tr'[..|tr|] == tr
    ensures steps' == steps + [Create(name, spec, RELEASED), Reconcile(name, QUIET_API)]
    ensures var w, w' := tr[|steps|], tr'[|steps'|];
            && w'.objects == w.objects[name := HTTPScaledObject(spec, false, HELD)]
            && h in w'.routing.table
            && w'.routing.table[h] == if h in w.routing.table then w.routing.table[h] else spec.target
  {
    var w := Apply(codec, tr[|steps|], Create(name, spec, RELEASED));
    QuietReconcile(codec, w, name);
    RoutesAfterStep(codec, w, Reconcile(name, QUIET_API), h);
    tr', steps' := ThenReconciled(codec, tr, steps, Create(name, spec, RELEASED), name);
  }

  /** The `hosts` field lists `h`. */
  predicate Lists(spec: Spec, h: Host) {
    spec.hosts.Some? && h in spec.hosts.value
  }

  /** What deleting an object and reconciling it makes of the world. */
  ghost predicate Gone(codec: P.Codec, w: World, w': World, name: string, h: Host)
    requires name in w.objects
  {
    var spec := w.objects[name].spec;
    && w'.objects == w.objects[name := HTTPScaledObject(spec, true, RELEASED)]
    && (h in w'.routing.table <==> h in w.routing.table && !Lists(spec, h))
    && P.Fetched(codec, w'.routing.cm) == Some(w'.routing.table)
  }

  lemma QuietRelease(codec: P.Codec, w: World, name: string, h: Host)
    requires P.RoundTrips(codec) && name in w.objects && w.objects[name].deleting && w.objects[name].finalizers == HELD
    ensures Gone(codec, w, Apply(codec, w, Reconcile(name, QUIET_API)), name, h)
  {
    QuietReconcile(codec, w, name);
    RoutesAfterStep(codec, w, Reconcile(name, QUIET_API), h);
  }

  lemma QuietDeletion(codec: P.Codec, w: World, name: string, h: Host)
    requires P.RoundTrips(codec) && name in w.objects && w.objects[name].finalizers == HELD
    ensures Gone(codec, w, Settled(codec, w, MarkDeleted(name), name), name, h)
  {
    var marked, w' := Apply(codec, w, MarkDeleted(name)), Settled(codec, w, MarkDeleted(name), name);
    QuietRelease(codec, marked, name, h);
    StillGone(codec, w, marked, w', name, h);
  }

  /** Being marked as deleted before makes no difference to that. */
  lemma StillGone(codec: P.Codec, w: World, marked: World, w': World, name: string, h: Host)
    requires name in w.objects && marked.routing == w.routing
    requires marked.objects == w.objects[name := w.objects[name].(deleting := true)]
    requires Gone(codec, marked, w', name, h)
    ensures Gone(codec, w, w', name, h)
  {
  }

  /** A user deletes an object and it is reconciled: it is released, a host `h` stays routed
      exactly if it was and the object does not list it, and the ConfigMap says the same. */
  lemma DeletedAndReconciled(codec: P.Codec, tr: seq<World>, steps: seq<Step>, name: string, h: Host)
    returns (tr': seq<World>, steps': seq<Step>)
    requires Run(codec, tr, steps) && P.RoundTrips(codec)
    requires name in tr[|steps|].objects && tr[|steps|].objects[name].finalizers == HELD
    ensures Run(codec, tr', steps') && |steps'| == |steps| + 2 && tr'[..|tr|] == tr
    ensures steps' == steps + [MarkDeleted(name), Reconcile(name, QUIET_API)]
    ensures Gone(codec, tr[|steps|], tr'[|steps'|], name, h)
  {
    QuietDeletion(codec, tr[|steps|], name, h);
    tr', steps' := ThenReconciled(codec, tr, steps, MarkDeleted(name), name);
  }

  // ---------- routes that stay ----------

  /** An object that uses the deprecated `host` field is created, reconciled, deleted and
      reconciled; it is released and its host still routed. */
  lemma HostFieldLeaksRoute(codec: P.Codec, cm: P.ConfigMap, name: string, spec: Spec)
    returns (tr: seq<World>, steps: seq<Step>)
    requires P.RoundTrips(codec) && spec.hosts.None? && spec.host.Some?
    ensures Run(codec, tr, steps) && tr[0] == Empty(cm)
    ensures steps == [Create(name, spec, RELEASED), Reconcile(name, QUIET_API),
                      MarkDeleted(name), Reconcile(name, QUIET_API)]
    ensures var w := tr[4];
            && w.objects == map[name := HTTPScaledObject(spec, true, RELEASED)]
            && spec.host.value in w.routing.table && P.Fetched(codec, w.routing.cm) == Some(w.routing.table)
  {
    var h := spec.host.value;
    tr, steps := CreatedAndReconciled(codec, [Empty(cm)], [], name, spec, h);
    tr, steps := DeletedAndReconciled(codec, tr, steps, name, h);
  }

  function Listing(h: Host, target: Target): Spec {
    Spec(None, Some([h]), target)
  }

  /** A user edits the spec of a live object and it is reconciled: what was routed stays routed. */
  lemma EditedAndReconciled(codec: P.Codec, tr: seq<World>, steps: seq<Step>, name: string, spec: Spec, h: Host)
    returns (tr': seq<World>, steps': seq<Step>)
    requires Run(codec, tr, steps) && P.RoundTrips(codec) && (spec.hosts.Some? <==> spec.host.None?)
    requires name in tr[|steps|].objects && tr[|steps|].objects[name].finalizers == HELD
    requires !tr[|steps|].objects[name].deleting && h in tr[|steps|].routing.table
    ensures Run(codec, tr', steps') && |steps'| == |steps| + 2 && tr'[..|tr|] == tr
    ensures steps' == steps + [Edit(name, spec), Reconcile(name, QUIET_API)]
    ensures var w, w' := tr[|steps|], tr'[|steps'|];
            && w'.objects == w.objects[name := HTTPScaledObject(spec, false, HELD)]
            && h in w'.routing.table
  {
    var w := Apply(codec, tr[|steps|], Edit(name, spec));
    QuietReconcile(codec, w, name);
    RoutesAfterStep(codec, w, Reconcile(name, QUIET_API), h);
    tr', steps' := ThenReconciled(codec, tr, steps, Edit(name, spec), name);
  }

  /** An object that lists `a` is created and reconciled, edited to list `b` and reconciled, then
      deleted and reconciled; it is released and `a` still routed. */
  lemma EditLeaksRoute(codec: P.Codec, cm: P.ConfigMap, name: string, a: Host, b: Host, target: Target)
    returns (tr: seq<World>, steps: seq<Step>)
    requires P.RoundTrips(codec) && a != b
    ensures Run(codec, tr, steps) && tr[0] == Empty(cm)
    ensures steps == [Create(name, Listing(a, target), RELEASED), Reconcile(name, QUIET_API),
                      Edit(name, Listing(b, target)), Reconcile(name, QUIET_API),
                      MarkDeleted(name), Reconcile(name, QUIET_API)]
    ensures var w := tr[6];
            && w.objects == map[name := HTTPScaledObject(Listing(b, target), true, RELEASED)]
            && a in w.routing.table && P.Fetched(codec, w.routing.cm) == Some(w.routing.table)
  {
    tr, steps := CreatedAndReconciled(codec, [Empty(cm)], [], name, Listing(a, target), a);
    tr, steps := EditedAndReconciled(codec, tr, steps, name, Listing(b, target), a);
    tr, steps := DeletedAndReconciled(codec, tr, steps, name, a);
  }

  // ---------- routes that another object takes away ----------

  /** `first` has registered `h` and is live and well; `second` lists `h` too and is reconciled
      without getting the route. */
  lemma Shared(codec: P.Codec, cm: P.ConfigMap, first: string, second: string, h: Host, mine: Target, other: Target)
    returns (tr: seq<World>, steps: seq<Step>)
    requires P.RoundTrips(codec) && first != second
    ensures Run(codec, tr, steps) && tr[0] == Empty(cm)
    ensures steps == [Create(first, Listing(h, mine), RELEASED), Reconcile(first, QUIET_API),
                      Create(second, Listing(h, other), RELEASED), Reconcile(second, QUIET_API)]
    ensures tr[4].objects == map[first := HTTPScaledObject(Listing(h, mine), false, HELD),
                                 second := HTTPScaledObject(Listing(h, other), false, HELD)]
    ensures h in tr[4].routing.table && tr[4].routing.table[h] == mine
  {
    tr, steps := CreatedAndReconciled(codec, [Empty(cm)], [], first, Listing(h, mine), h);
    tr, steps := CreatedAndReconciled(codec, tr, steps, second, Listing(h, other), h);
  }

  /** Deleting `second` then takes the route of `first`, from the table and from every reader of
      the ConfigMap, while `first` stays as it was. */
  lemma DeletionTakesSharedRoute(codec: P.Codec, cm: P.ConfigMap, first: string, second: string, h: Host,
                                 mine: Target, other: Target)
    returns (tr: seq<World>, steps: seq<Step>)
    requires P.RoundTrips(codec) && first != second
    ensures Run(codec, tr, steps) && tr[0] == Empty(cm)
    ensures steps == [Create(first, Listing(h, mine), RELEASED), Reconcile(first, QUIET_API),
                      Create(second, Listing(h, other), RELEASED), Reconcile(second, QUIET_API),
                      MarkDeleted(second), Reconcile(second, QUIET_API)]
    ensures h in tr[4].routing.table && tr[4].routing.table[h] == mine
    ensures first in tr[6].objects && tr[6].objects[first] == HTTPScaledObject(Listing(h, mine), false, HELD)
    ensures h !in tr[6].routing.table && P.Fetched(codec, tr[6].routing.cm) == Some(tr[6].routing.table)
  {
    var tr4, steps4 := Shared(codec, cm, first, second, h, mine, other);
    tr, steps := DeletedAndReconciled(codec, tr4, steps4, second, h);
    assert tr[4] == tr4[4];
  }

  /** The ConfigMap cannot be patched at the creation, but can at its undo. */
  const FAILING_API := Api(true, true, Calls(true, true, false), ALL_OK, ALL_OK)

  /** So does the undo of a failed creation: `second` is new, lists the host of `first`, and its
      first reconcile fails at the ConfigMap. */
  lemma UndoTakesSharedRoute(codec: P.Codec, cm: P.ConfigMap, first: string, second: string, h: Host,
                             mine: Target, other: Target)
    returns (tr: seq<World>, steps: seq<Step>)
    requires P.RoundTrips(codec) && first != second
    ensures Run(codec, tr, steps) && tr[0] == Empty(cm)
    ensures steps == [Create(first, Listing(h, mine), RELEASED), Reconcile(first, QUIET_API),
                      Create(second, Listing(h, other), RELEASED), Reconcile(second, FAILING_API)]
    ensures h in tr[3].routing.table && tr[3].routing.table[h] == mine
    ensures first in tr[4].objects && tr[4].objects[first] == HTTPScaledObject(Listing(h, mine), false, HELD)
    ensures h !in tr[4].routing.table && P.Fetched(codec, tr[4].routing.cm) == Some(tr[4].routing.table)
  {
    tr, steps := CreatedAndReconciled(codec, [Empty(cm)], [], first, Listing(h, mine), h);
    tr, steps := Extended(codec, tr, steps, Create(second, Listing(h, other), RELEASED));
    var w := tr[3];
    tr, steps := Extended(codec, tr, steps, Reconcile(second, FAILING_API));
    RoutesAfterStep(codec, w, Reconcile(second, FAILING_API), h);
    ReconcilePublishesOnce(codec, w.routing, w.objects[second], FAILING_API);
  }
}
