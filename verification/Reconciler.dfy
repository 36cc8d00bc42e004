/** The operator's reconcile of HTTPScaledObjects: what one reconcile does for every outcome of
    its API calls, and what holds over all runs of reconciles, users and readers. */
module Reconciler {
  import opened Basics
  import opened RoutingTable
  import opened Finalizers
  import P = Propagation

  /** The two host fields are optional; `target` is what the operator registers for them. */
  datatype Spec = Spec(host: Option<Host>, hosts: Option<seq<Host>>, target: Target)

  datatype HTTPScaledObject = HTTPScaledObject(spec: Spec, deleting: bool, finalizers: seq<string>)

  /** Outcomes of the calls of a removal: deleting the ScaledObject (not found counts as well),
      reading the ConfigMap, patching it. */
  datatype Calls = Calls(scaledObject: bool, got: bool, patched: bool) {
    predicate AllOk() {
      scaledObject && got && patched
    }
  }

  /** Outcomes of one reconcile's calls. `remove` is the removal of a deletion, `undo` the one
      after a failed creation, `create` the ScaledObject and ConfigMap calls of a creation. */
  datatype Api = Api(get: bool, update: bool, create: Calls, undo: Calls, remove: Calls)

  /** `sanitizeHosts`: the hosts to route, if exactly one of the fields is set. */
  function Sanitized(spec: Spec): Option<seq<Host>> {
    match (spec.hosts, spec.host)
    case (Some(hosts), None) => Some(hosts)
    case (None, Some(host)) => Some([host])
    case _ => None
  }

  /** The list the deletion path uses: the `hosts` field as it stands, not sanitized. */
  function ListedHosts(spec: Spec): seq<Host> {
    if spec.hosts.Some? then spec.hosts.value else []
  }

  /** The object asks for `h`, in the one field it uses. */
  predicate Asks(spec: Spec, h: Host) {
    || (spec.hosts.Some? && spec.host.None? && h in spec.hosts.value)
    || (spec.hosts.None? && spec.host == Some(h))
  }

  /** What sanitizing is for: both fields or neither are an error, otherwise the hosts are those of
      the field that is set. */
  lemma SanitizedHosts(spec: Spec)
    ensures Sanitized(spec).None? <==> (spec.hosts.Some? <==> spec.host.Some?)
    ensures Sanitized(spec).Some? && spec.hosts.Some? ==> Sanitized(spec) == spec.hosts
    ensures Sanitized(spec).Some? && spec.host.Some? ==> Sanitized(spec) == Some([spec.host.value])
    ensures forall h :: Asks(spec, h) <==> Sanitized(spec).Some? && h in Sanitized(spec).value
  {
  }

  // ---------- one reconcile ----------

  function Removals(hosts: seq<Host>): seq<P.Write> {
    seq(|hosts|, i requires 0 <= i < |hosts| => P.Mutate(Remove(hosts[i])))
  }

  function Additions(hosts: seq<Host>, target: Target): seq<P.Write> {
    seq(|hosts|, i requires 0 <= i < |hosts| => P.Mutate(Add(hosts[i], target)))
  }

  /** What `removeApplicationResources` writes. */
  function RemovalWrites(hosts: seq<Host>, calls: Calls): seq<P.Write> {
    if calls.scaledObject then Removals(hosts) + [P.Publish(calls.got, calls.patched)] else []
  }

  /** What `createOrUpdateApplicationResources` writes. */
  function CreationWrites(hosts: seq<Host>, target: Target, calls: Calls): seq<P.Write> {
    if calls.scaledObject then Additions(hosts, target) + [P.Publish(calls.got, calls.patched)] else []
  }

  /** The writes to table and ConfigMap, the finalizers stored afterwards, and success. */
  datatype Effect = Effect(writes: seq<P.Write>, finalizers: seq<string>, ok: bool)

  function DeletionEffect(o: HTTPScaledObject, api: Api): Effect {
    var writes := RemovalWrites(ListedHosts(o.spec), api.remove);
    if !api.remove.AllOk() then Effect(writes, o.finalizers, false)
    else Effect(writes, FinalizedTo(o.finalizers, api.update), FinalizeSucceeds(o.finalizers, api.update))
  }

  /** `finalizeScaledObject` succeeds: nothing to remove, or removed without panic and stored. */
  predicate FinalizeSucceeds(list: seq<string>, update: bool) {
    HTTP_SCALED_OBJECT_FINALIZER !in list || (Finalized(list).Returned? && update)
  }

  /** The finalizers stored after it. */
  function FinalizedTo(list: seq<string>, update: bool): seq<string> {
    if FinalizeSucceeds(list, update) then Finalized(list).list else list
  }

  function CreationEffect(o: HTTPScaledObject, api: Api): Effect {
    if HTTP_SCALED_OBJECT_FINALIZER !in o.finalizers && !api.update then Effect([], o.finalizers, false)
    else
      var finalizers := Ensured(o.finalizers);
      match Sanitized(o.spec)
      case None => Effect([], finalizers, false)
      case Some(hosts) =>
        var writes := CreationWrites(hosts, o.spec.target, api.create);
        if api.create.AllOk() then Effect(writes, finalizers, true)
        else Effect(writes + RemovalWrites(hosts, api.undo), finalizers, false)
  }

  function ReconcileEffect(o: HTTPScaledObject, api: Api): Effect {
    if !api.get then Effect([], o.finalizers, false)
    else if o.deleting then DeletionEffect(o, api)
    else CreationEffect(o, api)
  }

  // ---------- what writes do ----------

  function Written(codec: P.Codec, s: P.State, ws: seq<P.Write>): P.State {
    if ws == [] then s else P.ApplyWrite(codec, Written(codec, s, ws[..|ws| - 1]), ws[|ws| - 1])
  }

  lemma {:induction false} WrittenConcat(codec: P.Codec, s: P.State, a: seq<P.Write>, b: seq<P.Write>)
    ensures Written(codec, s, a + b) == Written(codec, Written(codec, s, a), b)
  {
    if b == [] {
      assert a + b == a;
    } else {
      WrittenConcat(codec, s, a, b[..|b| - 1]);
      assert (a + b)[..|a + b| - 1] == a + b[..|b| - 1];
    }
  }

  lemma WrittenOneMore(codec: P.Codec, s: P.State, ws: seq<P.Write>, w: P.Write)
    ensures Written(codec, s, ws + [w]) == P.ApplyWrite(codec, Written(codec, s, ws), w)
  {
    assert (ws + [w])[..|ws|] == ws;
  }

  lemma {:induction false} RemovalsWritten(codec: P.Codec, s: P.State, hosts: seq<Host>)
    ensures Written(codec, s, Removals(hosts)) == s.(table := s.table - Elems(hosts))
  {
    if hosts == [] {
      assert s.table - Elems(hosts) == s.table;
    } else {
      var n := |hosts| - 1;
      RemovalsWritten(codec, s, hosts[..n]);
      assert Removals(hosts)[..n] == Removals(hosts[..n]);
      ElemsOfPrefix(hosts, n);
      assert hosts[..n + 1] == hosts;
      assert (s.table - Elems(hosts[..n])) - {hosts[n]} == s.table - Elems(hosts);
    }
  }

  /** Registered hosts keep their target, new ones get `target`. */
  function Registered(m: Routes, hosts: set<Host>, target: Target): Routes {
    map h | h in m.Keys + hosts :: if h in m then m[h] else target
  }

  lemma RegisteredOneMore(m: Routes, hosts: set<Host>, h: Host, target: Target)
    ensures WithTarget(Registered(m, hosts, target), h, target) == Registered(m, hosts + {h}, target)
  {
  }

  lemma {:induction false} AdditionsWritten(codec: P.Codec, s: P.State, hosts: seq<Host>, target: Target)
    ensures Written(codec, s, Additions(hosts, target)) == s.(table := Registered(s.table, Elems(hosts), target))
  {
    if hosts == [] {
      assert Registered(s.table, Elems(hosts), target) == s.table;
    } else {
      var n := |hosts| - 1;
      AdditionsWritten(codec, s, hosts[..n], target);
      assert Additions(hosts, target)[..n] == Additions(hosts[..n], target);
      ElemsOfPrefix(hosts, n);
      assert hosts[..n + 1] == hosts;
      RegisteredOneMore(s.table, Elems(hosts[..n]), hosts[n], target);
    }
  }

  /** A removal takes the hosts out of the table, and out of the ConfigMap too if all its calls
      succeed; then every reader hears of it. */
  lemma RemovalEffect(codec: P.Codec, s: P.State, hosts: seq<Host>, calls: Calls)
    ensures var s' := Written(codec, s, RemovalWrites(hosts, calls));
            && s'.table == (if calls.scaledObject then s.table - Elems(hosts) else s.table)
            && s'.cm == (if calls.AllOk() then P.Saved(codec, s'.table, s.cm) else s.cm)
            && s'.readers == P.Broadcast(s.readers, s.cm, s'.cm)
  {
    if calls.scaledObject {
      RemovalsWritten(codec, s, hosts);
      WrittenOneMore(codec, s, Removals(hosts), P.Publish(calls.got, calls.patched));
    }
  }

  lemma CreationWritten(codec: P.Codec, s: P.State, hosts: seq<Host>, target: Target, calls: Calls)
    ensures var s' := Written(codec, s, CreationWrites(hosts, target, calls));
            && s'.table == (if calls.scaledObject then Registered(s.table, Elems(hosts), target) else s.table)
            && s'.cm == (if calls.AllOk() then P.Saved(codec, s'.table, s.cm) else s.cm)
            && s'.readers == P.Broadcast(s.readers, s.cm, s'.cm)
  {
    if calls.scaledObject {
      AdditionsWritten(codec, s, hosts, target);
      WrittenOneMore(codec, s, Additions(hosts, target), P.Publish(calls.got, calls.patched));
    }
  }

  // ---------- runs ----------

  datatype World = World(routing: P.State, objects: map<string, HTTPScaledObject>)

  datatype Step =
    | Reconcile(name: string, api: Api)
    | Create(name: string, spec: Spec, finalizers: seq<string>)
    | Edit(name: string, spec: Spec)
    | MarkDeleted(name: string)
    | OthersFinalize(name: string, finalizers: seq<string>)  // other controllers, not this finalizer
    | Collect(name: string)                                  // Kubernetes, once no finalizer is left
    | Readers(step: P.Step)

  predicate Enabled(w: World, step: Step) {
    match step
    case Reconcile(_, _) => true
    case Create(name, _, _) => name !in w.objects
    case Edit(name, _) => name in w.objects
    case MarkDeleted(name) => name in w.objects
    case OthersFinalize(name, list) =>
      && name in w.objects
      && (HTTP_SCALED_OBJECT_FINALIZER in list <==> HTTP_SCALED_OBJECT_FINALIZER in w.objects[name].finalizers)
    case Collect(name) => name in w.objects && w.objects[name].deleting && w.objects[name].finalizers == []
    case Readers(step) => P.Enabled(w.routing, step)
  }

  function Apply(codec: P.Codec, w: World, step: Step): World
    requires Enabled(w, step)
  {
    match step
    case Reconcile(name, api) =>
      if name !in w.objects then w
      else
        var effect := ReconcileEffect(w.objects[name], api);
        World(Written(codec, w.routing, effect.writes),
              w.objects[name := w.objects[name].(finalizers := effect.finalizers)])
    case Create(name, spec, list) => w.(objects := w.objects[name := HTTPScaledObject(spec, false, list)])
    case Edit(name, spec) => w.(objects := w.objects[name := w.objects[name].(spec := spec)])
    case MarkDeleted(name) => w.(objects := w.objects[name := w.objects[name].(deleting := true)])
    case OthersFinalize(name, list) => w.(objects := w.objects[name := w.objects[name].(finalizers := list)])
    case Collect(name) => w.(objects := w.objects - {name})
    case Readers(step) => w.(routing := P.Apply(codec, w.routing, step))
  }

  ghost predicate Run(codec: P.Codec, tr: seq<World>, steps: seq<Step>) {
    && |tr| == |steps| + 1
    && tr[0].routing.table == map[] && tr[0].routing.readers == map[] && tr[0].objects == map[]
    && forall i {:trigger steps[i]} | 0 <= i < |steps| ::
        Enabled(tr[i], steps[i]) && tr[i + 1] == Apply(codec, tr[i], steps[i])
  }

  // ---------- deletion safety ----------

  ghost predicate Guarded(w: World, name: string) {
    name in w.objects && HTTP_SCALED_OBJECT_FINALIZER in w.objects[name].finalizers
  }

  /** None of the hosts is in the operator's table, nor in the table that readers decode. */
  ghost predicate Unrouted(codec: P.Codec, s: P.State, hosts: seq<Host>) {
    forall h | h in hosts ::
      h !in s.table && P.Fetched(codec, s.cm).Some? && h !in P.Fetched(codec, s.cm).value
  }

  lemma DeletionUnroutes(codec: P.Codec, s: P.State, hosts: seq<Host>, calls: Calls)
    requires P.RoundTrips(codec) && calls.AllOk()
    ensures var s' := Written(codec, s, RemovalWrites(hosts, calls));
            && Unrouted(codec, s', hosts)
            && s'.table == s.table - Elems(hosts) && P.Fetched(codec, s'.cm) == Some(s'.table)
  {
    RemovalEffect(codec, s, hosts, calls);
  }

  /** The finalizer of `name` goes in this step, by a reconcile of the object under deletion whose
      removal calls and update all succeeded and which has unrouted every host it lists. */
  ghost predicate ReleasesCleanly(codec: P.Codec, w: World, step: Step, w': World, name: string) {
    && step.Reconcile? && step.name == name && name in w.objects && w.objects[name].deleting
    && step.api.get && step.api.remove.AllOk() && step.api.update
    && (w.objects[name].spec.hosts.Some? ==> Unrouted(codec, w'.routing, w.objects[name].spec.hosts.value))
  }

  lemma StepReleasesCleanly(codec: P.Codec, w: World, step: Step, name: string)
    requires P.RoundTrips(codec) && Enabled(w, step) && Guarded(w, name)
    ensures !Guarded(Apply(codec, w, step), name) ==>
              ReleasesCleanly(codec, w, step, Apply(codec, w, step), name)
  {
    if step.Reconcile? && step.name == name && !Guarded(Apply(codec, w, step), name) {
      var o := w.objects[name];
      assert o.deleting by {
        assert HTTP_SCALED_OBJECT_FINALIZER in Ensured(o.finalizers);
      }
      DeletionUnroutes(codec, w.routing, ListedHosts(o.spec), step.api.remove);
    }
  }

  /** Over every run, with every pattern of API failures: between a state in which the object
      carries the finalizer and a later one in which it does not, or is gone, there is a reconcile
      that removed the finalizer after unrouting all the hosts the object listed. */
  lemma {:induction false} DeletionIsSafe(codec: P.Codec, tr: seq<World>, steps: seq<Step>,
                                          i: nat, k: nat, name: string)
    requires Run(codec, tr, steps) && P.RoundTrips(codec) && i <= k <= |steps|
    requires Guarded(tr[i], name) && !Guarded(tr[k], name)
    ensures exists j :: i <= j < k && ReleasesCleanly(codec, tr[j], steps[j], tr[j + 1], name)
  {
    var step := steps[k - 1];
    if Guarded(tr[k - 1], name) {
      StepReleasesCleanly(codec, tr[k - 1], step, name);
      assert ReleasesCleanly(codec, tr[k - 1], steps[k - 1], tr[k - 1 + 1], name);
    } else {
      DeletionIsSafe(codec, tr, steps, i, k - 1, name);
    }
  }

  /** What any reconcile stores as the object's finalizers. A live object gets the finalizer at the
      end of its list; one under deletion loses it and nothing else, unless two copies of it are side
      by side or the list ends in a second one; in the latter case, and after any failure before,
      the list stays as it is. */
  lemma FinalizersAfter(codec: P.Codec, w: World, name: string, api: Api)
    requires name in w.objects
    ensures var o, f := w.objects[name], HTTP_SCALED_OBJECT_FINALIZER;
            var w' := Apply(codec, w, Reconcile(name, api));
            && name in w'.objects && w'.objects == w.objects[name := o.(finalizers := w'.objects[name].finalizers)]
            && var list, list' := o.finalizers, w'.objects[name].finalizers;
            if !api.get || !api.update || (f in list <==> !o.deleting) then list' == list
            else if !o.deleting then list' == list + [f]
            else if !api.remove.AllOk() || RepeatsAtEnd(list, f) then list' == list
            else (list' == Without(list, f) <==> NoNeighbours(list, f)) && (f !in list' <==> NoNeighbours(list, f))
  {
    RemoveCharacterised(w.objects[name].finalizers, HTTP_SCALED_OBJECT_FINALIZER);
    RemoveClearsIff(w.objects[name].finalizers, HTTP_SCALED_OBJECT_FINALIZER);
  }

  /** The finalizer goes exactly when the object is being deleted, every call of the reconcile
      succeeds, and the finalizer list neither has two copies side by side nor ends in a second
      one; in every other case it stays. */
  lemma FinalizerGoesIff(codec: P.Codec, w: World, name: string, api: Api)
    requires Guarded(w, name)
    ensures var o, f := w.objects[name], HTTP_SCALED_OBJECT_FINALIZER;
            !Guarded(Apply(codec, w, Reconcile(name, api)), name) <==>
            && o.deleting && api.get && api.remove.AllOk() && api.update
            && NoNeighbours(o.finalizers, f) && !RepeatsAtEnd(o.finalizers, f)
  {
    RemoveClearsIff(w.objects[name].finalizers, HTTP_SCALED_OBJECT_FINALIZER);
  }

  /** When a reconcile is a success. Under deletion: all calls of the removal, and the update unless
      there is no finalizer to take away, and no panic over the list. Live: the update unless the
      finalizer is there, exactly one of the host fields set, and all calls of the creation. */
  lemma ReconcileSucceedsIff(o: HTTPScaledObject, api: Api)
    ensures var f := HTTP_SCALED_OBJECT_FINALIZER;
            ReconcileEffect(o, api).ok <==>
            && api.get
            && if o.deleting then
                 && api.remove.AllOk()
                 && (f in o.finalizers ==> api.update && !RepeatsAtEnd(o.finalizers, f))
               else
                 && (f in o.finalizers || api.update) && api.create.AllOk()
                 && (o.spec.hosts.Some? <==> o.spec.host.None?)
  {
    RemoveCharacterised(o.finalizers, HTTP_SCALED_OBJECT_FINALIZER);
  }

  // ---------- creation ----------

  /** A reconcile of a live object that succeeds routes every host it asks for, in the table and
      for every reader of the ConfigMap: to its own target where the host was free, otherwise to
      the target that was there first. */
  lemma SuccessRoutesAll(codec: P.Codec, w: World, name: string, api: Api)
    requires P.RoundTrips(codec) && name in w.objects && !w.objects[name].deleting
    requires ReconcileEffect(w.objects[name], api).ok
    ensures var o, s := w.objects[name], w.routing;
            var s' := Apply(codec, w, Reconcile(name, api)).routing;
            && P.Fetched(codec, s'.cm) == Some(s'.table) && Guarded(Apply(codec, w, Reconcile(name, api)), name)
            && (o.spec.hosts.Some? <==> o.spec.host.None?)
            && (forall h | (o.spec.hosts.Some? && h in o.spec.hosts.value) || o.spec.host == Some(h) ::
                  h in s'.table && s'.table[h] == if h in s.table then s.table[h] else o.spec.target)
            && (forall h | h in s.table :: h in s'.table && s'.table[h] == s.table[h])
  {
    var o := w.objects[name];
    CreationWritten(codec, w.routing, Sanitized(o.spec).value, o.spec.target, api.create);
  }

  /** An object with both host fields set, or neither, is never routed: the reconcile is an error and
      touches neither table nor ConfigMap. */
  lemma BadSpecIsRejected(codec: P.Codec, w: World, name: string, api: Api)
    requires name in w.objects && !w.objects[name].deleting
    requires w.objects[name].spec.hosts.Some? <==> w.objects[name].spec.host.Some?
    ensures !ReconcileEffect(w.objects[name], api).ok
    ensures Apply(codec, w, Reconcile(name, api)).routing == w.routing
  {
    assert Written(codec, w.routing, []) == w.routing;
  }

  lemma UndoUnroutesIff(codec: P.Codec, s: P.State, hosts: seq<Host>, target: Target, create: Calls, undo: Calls)
    requires P.RoundTrips(codec)
    ensures var s' := Written(codec, s, CreationWrites(hosts, target, create) + RemovalWrites(hosts, undo));
            && ((forall h | h in hosts :: h !in s'.table) <==>
                  || undo.scaledObject || hosts == []
                  || (!create.scaledObject && forall h | h in hosts :: h !in s.table))
            && (undo.AllOk() ==> Unrouted(codec, s', hosts))
  {
    var created := Written(codec, s, CreationWrites(hosts, target, create));
    WrittenConcat(codec, s, CreationWrites(hosts, target, create), RemovalWrites(hosts, undo));
    CreationWritten(codec, s, hosts, target, create);
    RemovalEffect(codec, created, hosts, undo);
    assert hosts != [] ==> hosts[0] in hosts;
  }

  /** After a creation that fails, the undo clears the object's hosts from the table exactly if it
      gets past deleting the ScaledObject, or nothing was there to clear; if all its calls succeed
      the ConfigMap is cleared too. The finalizer stays. */
  lemma FailedCreationUnroutesIff(codec: P.Codec, w: World, name: string, api: Api, hosts: seq<Host>)
    requires P.RoundTrips(codec) && name in w.objects && !w.objects[name].deleting && api.get
    requires HTTP_SCALED_OBJECT_FINALIZER in w.objects[name].finalizers || api.update
    requires var spec := w.objects[name].spec;
             if spec.hosts.Some? then spec.host.None? && hosts == spec.hosts.value
             else spec.host.Some? && hosts == [spec.host.value]
    requires !api.create.AllOk()
    ensures var w' := Apply(codec, w, Reconcile(name, api));
            && Guarded(w', name)
            && ((forall h | h in hosts :: h !in w'.routing.table) <==>
                  || api.undo.scaledObject || hosts == []
                  || (!api.create.scaledObject && forall h | h in hosts :: h !in w.routing.table))
            && (api.undo.AllOk() ==> Unrouted(codec, w'.routing, hosts))
  {
    UndoUnroutesIff(codec, w.routing, hosts, w.objects[name].spec.target, api.create, api.undo);
  }

  // ---------- who can change a route ----------

  /** The reconcile of `o` removes `h`: by a deletion that lists it, or by the undo of a failed
      creation that asked for it. Whose route it is plays no part. */
  predicate TakesAway(o: HTTPScaledObject, api: Api, h: Host) {
    && api.get
    && if o.deleting then api.remove.scaledObject && o.spec.hosts.Some? && h in o.spec.hosts.value
       else
         && (HTTP_SCALED_OBJECT_FINALIZER in o.finalizers || api.update)
         && Asks(o.spec, h) && !api.create.AllOk() && api.undo.scaledObject
  }

  /** The reconcile of `o` registers `h`, whether or not it then succeeds. */
  predicate AsksFor(o: HTTPScaledObject, api: Api, h: Host) {
    && api.get && !o.deleting
    && (HTTP_SCALED_OBJECT_FINALIZER in o.finalizers || api.update)
    && Asks(o.spec, h) && api.create.scaledObject
  }

  lemma RoutesAfterWrites(codec: P.Codec, s: P.State, o: HTTPScaledObject, api: Api, h: Host)
    ensures var m := Written(codec, s, ReconcileEffect(o, api).writes).table;
            && (h in m <==> (h in s.table || AsksFor(o, api, h)) && !TakesAway(o, api, h))
            && (h in m ==> m[h] == if h in s.table then s.table[h] else o.spec.target)
  {
    if api.get && o.deleting {
      RemovalEffect(codec, s, ListedHosts(o.spec), api.remove);
    } else if api.get && Sanitized(o.spec).Some? {
      var hosts := Sanitized(o.spec).value;
      var creation := CreationWrites(hosts, o.spec.target, api.create);
      CreationWritten(codec, s, hosts, o.spec.target, api.create);
      WrittenConcat(codec, s, creation, RemovalWrites(hosts, api.undo));
      RemovalEffect(codec, Written(codec, s, creation), hosts, api.undo);
    }
  }

  /** The table after any step of anyone, host by host: only reconciles change it; a host is routed
      afterwards if and only if it was or is asked for, and is not taken away; a route that was there
      keeps its target and a new one leads to the object's. */
  lemma RoutesAfterStep(codec: P.Codec, w: World, step: Step, h: Host)
    requires Enabled(w, step)
    ensures var m, m' := w.routing.table, Apply(codec, w, step).routing.table;
            if step.Reconcile? && step.name in w.objects then
              var o := w.objects[step.name];
              && (h in m' <==> (h in m || AsksFor(o, step.api, h)) && !TakesAway(o, step.api, h))
              && (h in m' ==> m'[h] == if h in m then m[h] else o.spec.target)
            else m' == m
  {
    if step.Reconcile? && step.name in w.objects {
      RoutesAfterWrites(codec, w.routing, w.objects[step.name], step.api, h);
    }
  }
}
