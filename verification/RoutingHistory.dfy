/** What a run of reconciles means for the routing tables: the operator's table is a function of
    the operations its reconciles asked for, and the readers' tables are ones it has had. */
module RoutingHistory {
  import opened Basics
  import opened RoutingTable
  import opened Finalizers
  import opened Reconciler
  import P = Propagation

  // ---------- the operator's table ----------

  /** The table edits among `ws`. */
  function OpsOf(ws: seq<P.Write>): seq<Op> {
    if ws == [] then []
    else
      var front, last := OpsOf(ws[..|ws| - 1]), ws[|ws| - 1];
      if last.Mutate? then front + [last.op] else front
  }

  lemma {:induction false} WrittenTable(codec: P.Codec, s: P.State, ws: seq<P.Write>)
    ensures Written(codec, s, ws).table == ApplyOps(s.table, OpsOf(ws))
  {
    if ws != [] {
      var front, last := ws[..|ws| - 1], ws[|ws| - 1];
      WrittenTable(codec, s, front);
      if last.Mutate? {
        assert OpsOf(ws)[..|OpsOf(ws)| - 1] == OpsOf(front);
      }
    }
  }

  /** The registrations and removals of one step: those of its reconcile. */
  function StepOps(w: World, step: Step): seq<Op> {
    if step.Reconcile? && step.name in w.objects then
      OpsOf(ReconcileEffect(w.objects[step.name], step.api).writes)
    else []
  }

  /** Those of the first `k` steps of a run, in order. */
  function RunOps(tr: seq<World>, steps: seq<Step>, k: nat): seq<Op>
    requires k <= |steps| && |tr| == |steps| + 1
  {
    if k == 0 then [] else RunOps(tr, steps, k - 1) + StepOps(tr[k - 1], steps[k - 1])
  }

  lemma StepTable(codec: P.Codec, w: World, step: Step, ops: seq<Op>)
    requires Enabled(w, step) && w.routing.table == ApplyOps(map[], ops)
    ensures Apply(codec, w, step).routing.table == ApplyOps(map[], ops + StepOps(w, step))
  {
    ApplyOpsConcat(map[], ops, StepOps(w, step));
    if step.Reconcile? && step.name in w.objects {
      WrittenTable(codec, w.routing, ReconcileEffect(w.objects[step.name], step.api).writes);
    }
  }

  /** The operator's table is what the run's registrations and removals make of the empty one. */
  lemma {:induction false} TableIsRunHistory(codec: P.Codec, tr: seq<World>, steps: seq<Step>, k: nat)
    requires Run(codec, tr, steps) && k <= |steps|
    ensures tr[k].routing.table == ApplyOps(map[], RunOps(tr, steps, k))
  {
    if k > 0 {
      TableIsRunHistory(codec, tr, steps, k - 1);
      var step := steps[k - 1];
      StepTable(codec, tr[k - 1], step, RunOps(tr, steps, k - 1));
    }
  }

  /** So it routes a host exactly if some reconcile registered it and none has removed it since,
      and then to the target of the first such registration. */
  lemma RouteIsFirstSinceRemoval(codec: P.Codec, tr: seq<World>, steps: seq<Step>, k: nat, h: Host)
    requires Run(codec, tr, steps) && k <= |steps|
    ensures var m, ops := tr[k].routing.table, RunOps(tr, steps, k);
            && (h in m <==> exists i :: FirstSinceRemoval(ops, i, h))
            && forall i: nat | FirstSinceRemoval(ops, i, h) :: h in m && m[h] == ops[i].target
  {
    TableIsRunHistory(codec, tr, steps, k);
    TableIsFirstSinceRemoval(RunOps(tr, steps, k), h);
  }

  // ---------- what a reconcile publishes ----------

  /** The reconcile gets one `updateRoutingMap` through. */
  predicate Publishes(o: HTTPScaledObject, api: Api) {
    && api.get
    && if o.deleting then api.remove.AllOk()
       else
         && (HTTP_SCALED_OBJECT_FINALIZER in o.finalizers || api.update)
         && Sanitized(o.spec).Some? && (api.create.AllOk() || api.undo.AllOk())
  }

  /** From `s` to `s'` the ConfigMap has changed if `published`, to hold the table of `s'`, and the
      readers have heard of just that. */
  ghost predicate Announced(codec: P.Codec, s: P.State, s': P.State, published: bool) {
    && s'.cm == (if published then P.Saved(codec, s'.table, s.cm) else s.cm)
    && s'.readers == P.Broadcast(s.readers, s.cm, s'.cm)
  }

  lemma UndonePublishesOnce(codec: P.Codec, s: P.State, hosts: seq<Host>, target: Target, create: Calls, undo: Calls)
    requires !create.AllOk()
    ensures Announced(codec, s, Written(codec, s, CreationWrites(hosts, target, create) + RemovalWrites(hosts, undo)),
                      undo.AllOk())
  {
    var creation := CreationWrites(hosts, target, create);
    var created := Written(codec, s, creation);
    CreationWritten(codec, s, hosts, target, create);
    assert created.readers == s.readers;
    WrittenConcat(codec, s, creation, RemovalWrites(hosts, undo));
    RemovalEffect(codec, created, hosts, undo);
  }

  lemma QuietlyAnnounced(codec: P.Codec, s: P.State)
    ensures Announced(codec, s, s, false)
  {
    assert P.Broadcast(s.readers, s.cm, s.cm) == s.readers;
  }

  /** A reconcile publishes at most once, and what it publishes is the table it ends with: also
      where a creation fails and is undone, readers never hear of the table in between. */
  lemma ReconcilePublishesOnce(codec: P.Codec, s: P.State, o: HTTPScaledObject, api: Api)
    ensures Announced(codec, s, Written(codec, s, ReconcileEffect(o, api).writes), Publishes(o, api))
  {
    QuietlyAnnounced(codec, s);
    if api.get {
      if o.deleting {
        RemovalEffect(codec, s, ListedHosts(o.spec), api.remove);
      } else if Sanitized(o.spec).Some? {
        var hosts := Sanitized(o.spec).value;
        if api.create.AllOk() {
          CreationWritten(codec, s, hosts, o.spec.target, api.create);
        } else {
          UndonePublishesOnce(codec, s, hosts, o.spec.target, api.create, api.undo);
        }
      }
    }
  }

  predicate StepPublishes(w: World, step: Step) {
    step.Reconcile? && step.name in w.objects && Publishes(w.objects[step.name], step.api)
  }

  /** After a step that publishes, the ConfigMap decodes to the table that the run's history
      makes; any other step leaves the ConfigMap alone. */
  lemma PublishedTableIsHistory(codec: P.Codec, tr: seq<World>, steps: seq<Step>, k: nat)
    requires Run(codec, tr, steps) && P.RoundTrips(codec) && k < |steps|
    ensures if StepPublishes(tr[k], steps[k])
            then P.Fetched(codec, tr[k + 1].routing.cm) == Some(ApplyOps(map[], RunOps(tr, steps, k + 1)))
            else tr[k + 1].routing.cm == tr[k].routing.cm
  {
    var step := steps[k];
    TableIsRunHistory(codec, tr, steps, k + 1);
    if step.Reconcile? && step.name in tr[k].objects {
      ReconcilePublishesOnce(codec, tr[k].routing, tr[k].objects[step.name], step.api);
    }
  }

  // ---------- the readers ----------

  /** The routing side of a run: its states, and what moves them. */
  function Routing(tr: seq<World>): seq<P.State> {
    seq(|tr|, i requires 0 <= i < |tr| => tr[i].routing)
  }

  function Moves(steps: seq<Step>): seq<P.Move> {
    seq(|steps|, i requires 0 <= i < |steps| => if steps[i].Readers? then P.Reads(steps[i].step) else P.Operates)
  }

  lemma StepIsMove(codec: P.Codec, w: World, step: Step)
    requires P.RoundTrips(codec) && Enabled(w, step)
    ensures P.Moved(codec, w.routing, if step.Readers? then P.Reads(step.step) else P.Operates,
                    Apply(codec, w, step).routing)
  {
    var s := w.routing;
    assert P.Broadcast(s.readers, s.cm, s.cm) == s.readers;
    if step.Reconcile? && step.name in w.objects {
      ReconcilePublishesOnce(codec, s, w.objects[step.name], step.api);
    }
  }

  /** It is a run of the propagation system, state by state, so all that is proved about readers
      there holds in every run of reconciles, users and readers. */
  lemma RoutingSideRuns(codec: P.Codec, tr: seq<World>, steps: seq<Step>)
    requires Run(codec, tr, steps) && P.RoundTrips(codec)
    ensures P.Run(codec, Routing(tr), Moves(steps))
  {
    forall i | 0 <= i < |steps|
      ensures P.Moved(codec, Routing(tr)[i], Moves(steps)[i], Routing(tr)[i + 1])
    {
      var step := steps[i];
      StepIsMove(codec, tr[i], step);
    }
  }

  /** A reader's table is empty, the first ConfigMap's, or what the history of the run made of the
      operator's table by some step. */
  lemma ReaderTableIsHistory(codec: P.Codec, tr: seq<World>, steps: seq<Step>, k: nat, id: nat)
    requires Run(codec, tr, steps) && P.RoundTrips(codec) && k <= |steps| && id in tr[k].routing.readers
    ensures var m := tr[k].routing.readers[id].table;
            || m == map[] || P.Fetched(codec, tr[0].routing.cm) == Some(m)
            || exists j :: 0 <= j <= k && m == ApplyOps(map[], RunOps(tr, steps, j))
  {
    RoutingSideRuns(codec, tr, steps);
    P.ReaderTableWasPublished(codec, Routing(tr), Moves(steps), k, id);
    var m := tr[k].routing.readers[id].table;
    if j :| 0 <= j <= k && Routing(tr)[j].table == m {
      TableIsRunHistory(codec, tr, steps, j);
      assert m == ApplyOps(map[], RunOps(tr, steps, j));
    }
  }

  lemma {:induction false} ConfigMapStays(codec: P.Codec, tr: seq<World>, steps: seq<Step>, j: nat, k: nat)
    requires Run(codec, tr, steps) && P.RoundTrips(codec) && j <= k <= |steps|
    requires forall i | j <= i < k :: !StepPublishes(tr[i], steps[i])
    ensures tr[k].routing.cm == tr[j].routing.cm
  {
    if j < k {
      ConfigMapStays(codec, tr, steps, j, k - 1);
      PublishedTableIsHistory(codec, tr, steps, k - 1);
    }
  }

  /** From objects to readers: a watching reader that has handled all its events, and into whose
      table no outdated fetch was put, routes exactly by the history up to the last reconcile that
      published. */
  lemma DrainedReaderRoutesHistory(codec: P.Codec, tr: seq<World>, steps: seq<Step>, j: nat, k: nat, id: nat)
    requires Run(codec, tr, steps) && P.RoundTrips(codec) && j < k <= |steps|
    requires StepPublishes(tr[j], steps[j]) && forall i | j < i < k :: !StepPublishes(tr[i], steps[i])
    requires id in tr[k].routing.readers
    requires var r := tr[k].routing.readers[id]; r.status.Watching? && r.queue == []
    requires forall i | 0 <= i < k :: P.Timely(codec, tr[i].routing, Moves(steps)[i], id)
    ensures tr[k].routing.readers[id].table == ApplyOps(map[], RunOps(tr, steps, j + 1))
  {
    RoutingSideRuns(codec, tr, steps);
    P.InStepAlongRun(codec, Routing(tr), Moves(steps), k, id);
    ConfigMapStays(codec, tr, steps, j + 1, k);
    PublishedTableIsHistory(codec, tr, steps, j);
  }
}
