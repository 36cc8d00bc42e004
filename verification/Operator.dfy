/** The operator as it runs: a routing table object, the cluster it writes to, and the methods of
    the controller. `Reconcile` takes the cluster exactly from one world of the reconciler's runs
    to the next. */
module Operator {
  import opened Basics
  import opened RoutingTable
  import opened Finalizers
  import opened Reconciler
  import P = Propagation

  /** How a call ends: well, with an error, or in a panic. */
  datatype Ending = Succeeded | Failed | Crashed

  function Ended(ok: bool): Ending {
    if ok then Succeeded else Failed
  }

  /** With a ConfigMap that lacks data, the calls that read it and then write into it. */
  predicate TouchesConfigMap(calls: Calls) {
    calls.scaledObject && calls.got
  }

  /** The reconcile of `o` gets as far as writing into the ConfigMap it has read. */
  predicate ReachesConfigMap(o: HTTPScaledObject, api: Api) {
    && api.get
    && if o.deleting then TouchesConfigMap(api.remove)
       else
         && (HTTP_SCALED_OBJECT_FINALIZER in o.finalizers || api.update)
         && (o.spec.hosts.Some? <==> o.spec.host.None?) && (TouchesConfigMap(api.create) || TouchesConfigMap(api.undo))
  }

  /** How it ends if it does not stop there: the in-place `remove` may panic as well. */
  function EndingOf(o: HTTPScaledObject, api: Api): Ending {
    if api.get && o.deleting && api.remove.AllOk() && Finalized(o.finalizers).Panicked? then Crashed
    else Ended(ReconcileEffect(o, api).ok)
  }

  /** With data in the ConfigMap a reconcile panics if and only if `remove` does, over a finalizer list
      that ends in a second copy, after all calls of a deletion; else it succeeds or fails as it
      says. */
  lemma PanicsIff(o: HTTPScaledObject, api: Api)
    ensures EndingOf(o, api).Crashed? <==>
            api.get && o.deleting && api.remove.AllOk() && RepeatsAtEnd(o.finalizers, HTTP_SCALED_OBJECT_FINALIZER)
    ensures EndingOf(o, api).Succeeded? <==> ReconcileEffect(o, api).ok
  {
    RemoveCharacterised(o.finalizers, HTTP_SCALED_OBJECT_FINALIZER);
    ReconcileSucceedsIff(o, api);
  }

  /** `sanitizeHosts`. */
  method SanitizeHosts(spec: Spec) returns (hosts: Option<seq<Host>>)
    ensures hosts == Sanitized(spec)
    ensures hosts.None? <==> (spec.hosts.Some? <==> spec.host.Some?)
    ensures hosts.Some? && spec.hosts.Some? ==> hosts == spec.hosts
    ensures hosts.Some? && spec.host.Some? ==> hosts == Some([spec.host.value])
  {
    if spec.hosts.Some? && spec.host.Some? {
      return None;
    }
    if spec.hosts.None? && spec.host.None? {
      return None;
    }
    if spec.hosts.None? {
      return Some([spec.host.value]);
    }
    return spec.hosts;
  }

  class Controller {
    const codec: P.Codec
    const table: Table
    var configMap: Option<P.ConfigMap>  // its data, which may be missing altogether
    var objects: map<string, HTTPScaledObject>

    constructor (codec: P.Codec, configMap: Option<P.ConfigMap>)
      ensures fresh(table) && fresh(table.m) && table.m.entries == map[] && objects == map[]
      ensures this.codec == codec && this.configMap == configMap
    {
      this.codec, this.configMap, objects := codec, configMap, map[];
      table := new Table();
    }

    /** The table is that of `s`, and so is the ConfigMap if it has data. */
    ghost predicate Routes(s: P.State)
      reads this, table, table.m
    {
      table.m.entries == s.table && (configMap.Some? ==> configMap.value == s.cm)
    }

    /** Table, ConfigMap and objects are those of `w`. */
    ghost predicate Mirrors(w: World)
      reads this, table, table.m
    {
      Routes(w.routing) && objects == w.objects
    }

    /** Writing into a ConfigMap without data panics. */
    method UpdateRoutingMap(calls: Calls) returns (end: Ending)
      modifies this`configMap
      ensures end == if calls.got && old(configMap).None? then Crashed else Ended(calls.got && calls.patched)
      ensures configMap ==
              if end.Succeeded? then Some(P.Saved(codec, table.m.entries, old(configMap).value)) else old(configMap)
    {
      if !calls.got {
        return Failed;
      }
      if configMap.None? {
        return Crashed;
      }
      var newCM := configMap.value[P.CONFIG_MAP_KEY := codec.encode(table.m.entries)];
      if !calls.patched {
        return Failed;
      }
      configMap := Some(newCM);
      return Succeeded;
    }

    method RemoveAndUpdateRoutingTable(hosts: seq<Host>, calls: Calls) returns (end: Ending)
      modifies this`configMap, table.m
      ensures end == if calls.got && old(configMap).None? then Crashed else Ended(calls.got && calls.patched)
      ensures table.m.entries == old(table.m.entries) - Elems(hosts)
      ensures configMap ==
              if end.Succeeded? then Some(P.Saved(codec, table.m.entries, old(configMap).value)) else old(configMap)
    {
      for i := 0 to |hosts|
        invariant configMap == old(configMap)
        invariant table.m.entries == old(table.m.entries) - Elems(hosts[..i])
      {
        ElemsOfPrefix(hosts, i);
        var _ := table.RemoveTarget(hosts[i]);
      }
      assert hosts[..|hosts|] == hosts;
      end := UpdateRoutingMap(calls);
    }

    method AddAndUpdateRoutingTable(hosts: seq<Host>, target: Target, calls: Calls) returns (end: Ending)
      modifies this`configMap, table.m
      ensures end == if calls.got && old(configMap).None? then Crashed else Ended(calls.got && calls.patched)
      ensures table.m.entries == Registered(old(table.m.entries), Elems(hosts), target)
      ensures configMap ==
              if end.Succeeded? then Some(P.Saved(codec, table.m.entries, old(configMap).value)) else old(configMap)
    {
      for i := 0 to |hosts|
        invariant configMap == old(configMap)
        invariant table.m.entries == Registered(old(table.m.entries), Elems(hosts[..i]), target)
      {
        ElemsOfPrefix(hosts, i);
        RegisteredOneMore(old(table.m.entries), Elems(hosts[..i]), hosts[i], target);
        var _ := table.AddTarget(hosts[i], target);
      }
      assert hosts[..|hosts|] == hosts;
      end := UpdateRoutingMap(calls);
    }

    method RemoveApplicationResources(hosts: seq<Host>, calls: Calls, ghost s: P.State) returns (end: Ending)
      requires Routes(s)
      modifies this`configMap, table.m
      ensures end == if TouchesConfigMap(calls) && old(configMap).None? then Crashed else Ended(calls.AllOk())
      ensures Routes(Written(codec, s, RemovalWrites(hosts, calls))) && (configMap.None? <==> old(configMap).None?)
    {
      RemovalEffect(codec, s, hosts, calls);
      if !calls.scaledObject {
        return Failed;
      }
      end := RemoveAndUpdateRoutingTable(hosts, calls);
    }

    method CreateOrUpdateApplicationResources(hosts: seq<Host>, target: Target, calls: Calls, ghost s: P.State)
      returns (end: Ending)
      requires Routes(s)
      modifies this`configMap, table.m
      ensures end == if TouchesConfigMap(calls) && old(configMap).None? then Crashed else Ended(calls.AllOk())
      ensures Routes(Written(codec, s, CreationWrites(hosts, target, calls)))
      ensures configMap.None? <==> old(configMap).None?
    {
      CreationWritten(codec, s, hosts, target, calls);
      if !calls.scaledObject {
        return Failed;
      }
      end := AddAndUpdateRoutingTable(hosts, target, calls);
    }

    method EnsureFinalizer(name: string, update: bool) returns (ok: bool)
      requires name in objects
      modifies this`objects
      ensures ok <==> HTTP_SCALED_OBJECT_FINALIZER in old(objects)[name].finalizers || update
      ensures objects == old(objects)[name := old(objects)[name].(finalizers :=
                if ok then Ensured(old(objects)[name].finalizers) else old(objects)[name].finalizers)]
    {
      var o := objects[name];
      var found := Contains(o.finalizers, HTTP_SCALED_OBJECT_FINALIZER);
      if !found {
        if !update {
          return false;
        }
        objects := objects[name := o.(finalizers := o.finalizers + [HTTP_SCALED_OBJECT_FINALIZER])];
      }
      ok := true;
    }

    /** The stored list is copied into the array that `remove` then edits in place. */
    method FinalizeScaledObject(name: string, update: bool) returns (end: Ending)
      requires name in objects
      modifies this`objects
      ensures end == if Finalized(old(objects)[name].finalizers).Panicked? then Crashed
                     else Ended(FinalizeSucceeds(old(objects)[name].finalizers, update))
      ensures objects == old(objects)[name := old(objects)[name].(finalizers :=
                FinalizedTo(old(objects)[name].finalizers, update))]
    {
      var o := objects[name];
      var found := Contains(o.finalizers, HTTP_SCALED_OBJECT_FINALIZER);
      if found {
        var backing := new string[|o.finalizers|](i requires 0 <= i < |o.finalizers| => o.finalizers[i]);
        assert backing[..|o.finalizers|] == o.finalizers;
        var panicked, left := RemoveInPlace(Slice(backing, |o.finalizers|), HTTP_SCALED_OBJECT_FINALIZER);
        if panicked {
          return Crashed;
        }
        if !update {
          return Failed;
        }
        objects := objects[name := o.(finalizers := backing[..left])];
      }
      end := Succeeded;
    }

    /** The reconcile of the object under `name` has taken the cluster from `w` to the next world. */
    ghost predicate Took(w: World, name: string, api: Api, end: Ending)
      reads this, table, table.m
      requires name in w.objects
    {
      Mirrors(Apply(codec, w, Step.Reconcile(name, api))) && end == EndingOf(w.objects[name], api)
    }

    /** It has panicked over a ConfigMap without data: all it leaves is the finalizer it ensured. */
    ghost predicate Stopped(w: World, name: string, end: Ending)
      reads this
      requires name in w.objects
    {
      var o := w.objects[name];
      && end.Crashed? && configMap.None?
      && objects == w.objects[name := if o.deleting then o else o.(finalizers := Ensured(o.finalizers))]
    }

    method Reconcile(name: string, api: Api, ghost w: World) returns (end: Ending)
      requires Mirrors(w)
      modifies this, table.m
      ensures name !in w.objects ==> end == Succeeded && Mirrors(w)
      ensures name in w.objects ==>
                if old(configMap).None? && ReachesConfigMap(w.objects[name], api) then Stopped(w, name, end)
                else Took(w, name, api, end)
      ensures name in w.objects && old(configMap).None? ==>
                var o := w.objects[name];
                end.Crashed? <==>
                && api.get
                && if o.deleting then api.remove.scaledObject && api.remove.got
                   else
                     && (HTTP_SCALED_OBJECT_FINALIZER in o.finalizers || api.update)
                     && (o.spec.hosts.Some? <==> o.spec.host.None?)
                     && ((api.create.scaledObject && api.create.got) || (api.undo.scaledObject && api.undo.got))
    {
      if name in w.objects {
        PanicsIff(w.objects[name], api);
      }
      if name !in objects {
        return Succeeded;
      }
      if !api.get {
        return Failed;
      }
      var o := objects[name];
      if o.deleting {
        end := ReconcileDeleted(name, api, w);
      } else {
        end := ReconcileLive(name, api, w);
      }
    }

    method ReconcileDeleted(name: string, api: Api, ghost w: World) returns (end: Ending)
      requires Mirrors(w) && name in w.objects && w.objects[name].deleting && api.get
      modifies this, table.m
      ensures if old(configMap).None? && ReachesConfigMap(w.objects[name], api) then Stopped(w, name, end)
              else Took(w, name, api, end)
    {
      var o := objects[name];
      var hosts := if o.spec.hosts.Some? then o.spec.hosts.value else [];
      end := RemoveApplicationResources(hosts, api.remove, w.routing);
      if end.Succeeded? {
        end := FinalizeScaledObject(name, api.update);
      }
    }

    method ReconcileLive(name: string, api: Api, ghost w: World) returns (end: Ending)
      requires Mirrors(w) && name in w.objects && !w.objects[name].deleting && api.get
      modifies this, table.m
      ensures if old(configMap).None? && ReachesConfigMap(w.objects[name], api) then Stopped(w, name, end)
              else Took(w, name, api, end)
    {
      var o := objects[name];
      var ensured := EnsureFinalizer(name, api.update);
      if !ensured {
        return Failed;
      }
      var hosts := SanitizeHosts(o.spec);
      if hosts.None? {
        return Failed;
      }
      end := CreateOrUpdateApplicationResources(hosts.value, o.spec.target, api.create, w.routing);
      if end.Failed? {
        ghost var writes := CreationWrites(hosts.value, o.spec.target, api.create);
        WrittenConcat(codec, w.routing, writes, RemovalWrites(hosts.value, api.undo));
        var undone := RemoveApplicationResources(hosts.value, api.undo, Written(codec, w.routing, writes));
        end := if undone.Crashed? then Crashed else Failed;
      }
    }
  }
}
