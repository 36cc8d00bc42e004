/** The routing table: hosts to targets, where the first registration of a host wins until the
    host is removed. */
module RoutingTable {
  import opened Basics
  import opened HostStrings

  datatype Target = Target(
    service: string, port: int, deployment: string, namespace: string, targetPendingRequests: int)

  type Routes = map<Host, Target>

  function WithTarget(m: Routes, host: Host, target: Target): Routes {
    if host in m then m else m[host := target]
  }

  /** The table's answer for `host`: an exact entry first, then one without the last port. */
  function LookupIn(m: Routes, host: Host): Option<Target> {
    if host in m then Some(m[host])
    else
      var i := LastIndexOf(host, ':');
      if i != -1 && host[..i] in m then Some(m[host[..i]]) else None
  }

  class Table {
    var m: GoMap<Host, Target>

    constructor ()
      ensures fresh(m) && m.entries == map[]
    {
      m := new GoMap(map[]);
    }

    method Hosts() returns (hosts: seq<Host>)
      ensures Elems(hosts) == m.entries.Keys && |hosts| == |m.entries.Keys|
    {
      hosts := [];
      var rest := m.entries.Keys;
      while rest != {}
        invariant Elems(hosts) + rest == m.entries.Keys && Elems(hosts) !! rest
        invariant |hosts| + |rest| == |m.entries.Keys|
        decreases |rest|
      {
        var host :| host in rest;
        hosts := hosts + [host];
        rest := rest - {host};
      }
    }

    method HasHost(host: Host) returns (found: bool)
      ensures found <==> host in m.entries
    {
      found := host in m.entries;
    }

    method Lookup(host: Host) returns (target: Option<Target>)
      ensures target == LookupIn(m.entries, host)
    {
      var keys := [host];
      var i := LastIndexOf(host, ':');
      if i != -1 {
        keys := keys + [host[..i]];
      }
      assert keys[0] == host && (i != -1 ==> keys[1] == host[..i]);
      for k := 0 to |keys|
        invariant forall j | 0 <= j < k :: keys[j] !in m.entries
      {
        if keys[k] in m.entries {
          assert k == 1 ==> keys[0] !in m.entries;
          return Some(m.entries[keys[k]]);
        }
      }
      return None;
    }

    method AddTarget(host: Host, target: Target) returns (ok: bool)
      modifies m
      ensures ok <==> host !in old(m.entries)
      ensures m.entries == WithTarget(old(m.entries), host, target)
    {
      ok := host !in m.entries;
      if ok {
        m.entries := m.entries[host := target];
      }
    }

    method RemoveTarget(host: Host) returns (ok: bool)
      modifies m
      ensures ok <==> host in old(m.entries)
      ensures m.entries == old(m.entries) - {host}
    {
      ok := host in m.entries;
      if ok {
        m.entries := m.entries - {host};
      }
    }

    /** The map itself is taken over, so the two tables are one from then on. */
    method Replace(newTable: Table)
      modifies this
      ensures m == old(newTable.m)
    {
      m := newTable.m;
    }
  }

  /** The interceptor's key never falls back to a host without its port: the lookup is exact. */
  lemma KeyLookupIsExact(m: Routes, remoteAddr: string, host: string, lookup: ReverseLookup)
    requires NamesWithoutColon(lookup) && GetHost(remoteAddr, host, lookup).Ok?
    ensures var key := GetHost(remoteAddr, host, lookup).value;
            LookupIn(m, key) == if key in m then Some(m[key]) else None
  {
    var service, ns := KeyShape(remoteAddr, host, lookup);
    assert ':' !in service + "." + ns;
  }

  /** Every lookup, by the text of the host: one without a port finds its own entry or none; one with
      a port its own entry if there is one, else the entry of the part before the last port. */
  lemma LookupPrefersPort(m: Routes, host: Host, port: string)
    requires ':' !in port
    ensures ':' !in host ==> LookupIn(m, host) == if host in m then Some(m[host]) else None
    ensures LookupIn(m, host + ":" + port) ==
            if host + ":" + port in m then Some(m[host + ":" + port])
            else if host in m then Some(m[host]) else None
  {
    LastSeparator(host, port);
    var s := host + ":" + port;
    assert s[..|host|] == host;
  }

  lemma {:induction false} LastSeparator(host: string, port: string)
    requires ':' !in port
    ensures LastIndexOf(host + ":" + port, ':') == |host|
  {
    var s := host + ":" + port;
    if port != "" {
      var front := port[..|port| - 1];
      LastSeparator(host, front);
      assert s[..|s| - 1] == host + ":" + front;
      assert s[|s| - 1] == port[|port| - 1];
    }
  }

  // ---------- the history of a table ----------

  datatype Op = Add(host: Host, target: Target) | Remove(host: Host)

  function ApplyOp(m: Routes, op: Op): Routes {
    match op
    case Add(h, t) => WithTarget(m, h, t)
    case Remove(h) => m - {h}
  }

  function ApplyOps(m: Routes, ops: seq<Op>): Routes {
    if ops == [] then m else ApplyOp(ApplyOps(m, ops[..|ops| - 1]), ops[|ops| - 1])
  }

  lemma {:induction false} ApplyOpsConcat(m: Routes, a: seq<Op>, b: seq<Op>)
    ensures ApplyOps(m, a + b) == ApplyOps(ApplyOps(m, a), b)
  {
    if b == [] {
      assert a + b == a;
    } else {
      ApplyOpsConcat(m, a, b[..|b| - 1]);
      assert (a + b)[..|a + b| - 1] == a + b[..|b| - 1];
    }
  }

  /** Operation `j` registers `h` and no later operation removes `h`. */
  ghost predicate Standing(ops: seq<Op>, j: nat, h: Host) {
    && j < |ops| && ops[j].Add? && ops[j].host == h
    && forall k | j < k < |ops| :: ops[k] != Remove(h)
  }

  /** Operation `i` is the first registration of `h` since its last removal. */
  ghost predicate FirstSinceRemoval(ops: seq<Op>, i: nat, h: Host) {
    Standing(ops, i, h) && forall j | 0 <= j < i :: !Standing(ops, j, h)
  }

  lemma StandingOneMore(ops: seq<Op>, j: nat, h: Host)
    requires ops != []
    ensures var n := |ops| - 1;
            Standing(ops, j, h) <==>
            if j < n then Standing(ops[..n], j, h) && ops[n] != Remove(h)
            else j == n && ops[n].Add? && ops[n].host == h
  {
    var n := |ops| - 1;
    if j < n && Standing(ops[..n], j, h) && ops[n] != Remove(h) {
      forall k | j < k < |ops| ensures ops[k] != Remove(h) {
        assert k < n ==> ops[..n][k] == ops[k];
      }
    }
    if j < n && Standing(ops, j, h) {
      assert ops[..n][j] == ops[j];
      assert forall k | j < k < n :: ops[..n][k] == ops[k];
    }
  }

  /** A host is routed exactly when some registration of it still stands. */
  lemma {:induction false} RoutedIffStanding(ops: seq<Op>, h: Host)
    ensures h in ApplyOps(map[], ops) <==> exists j :: Standing(ops, j, h)
  {
    if ops != [] {
      var n := |ops| - 1;
      RoutedIffStanding(ops[..n], h);
      forall j: nat ensures Standing(ops, j, h) <==>
                       if j < n then Standing(ops[..n], j, h) && ops[n] != Remove(h)
                       else j == n && ops[n].Add? && ops[n].host == h {
        StandingOneMore(ops, j, h);
      }
      if exists j :: Standing(ops[..n], j, h) {
        var j :| Standing(ops[..n], j, h);
        assert ops[n] != Remove(h) ==> Standing(ops, j, h);
      }
      if ops[n].Add? && ops[n].host == h {
        assert Standing(ops, n, h);
      }
    }
  }

  /** After any history, `h` leads to the target of its first registration since its last
      removal: later registrations never overwrite it. */
  lemma {:induction false} FirstRegistrationWins(ops: seq<Op>, i: nat, h: Host)
    requires FirstSinceRemoval(ops, i, h)
    ensures h in ApplyOps(map[], ops) && ApplyOps(map[], ops)[h] == ops[i].target
  {
    var n := |ops| - 1;
    StandingOneMore(ops, i, h);
    if i == n {
      forall j: nat ensures !Standing(ops[..n], j, h) {
        StandingOneMore(ops, j, h);
      }
      RoutedIffStanding(ops[..n], h);
    } else {
      forall j: nat | 0 <= j < i ensures !Standing(ops[..n], j, h) {
        StandingOneMore(ops, j, h);
      }
      FirstRegistrationWins(ops[..n], i, h);
    }
  }

  /** The table is completely determined by that rule. */
  lemma TableIsFirstSinceRemoval(ops: seq<Op>, h: Host)
    ensures h in ApplyOps(map[], ops) <==> exists i :: FirstSinceRemoval(ops, i, h)
    ensures forall i: nat | FirstSinceRemoval(ops, i, h) ::
              h in ApplyOps(map[], ops) && ApplyOps(map[], ops)[h] == ops[i].target
  {
    RoutedIffStanding(ops, h);
    if exists j :: Standing(ops, j, h) {
      var j :| Standing(ops, j, h);
      var i := EarliestStanding(ops, j, h);
    }
    forall i: nat | FirstSinceRemoval(ops, i, h)
      ensures h in ApplyOps(map[], ops) && ApplyOps(map[], ops)[h] == ops[i].target
    {
      FirstRegistrationWins(ops, i, h);
    }
  }

  lemma {:induction false} EarliestStanding(ops: seq<Op>, j: nat, h: Host) returns (i: nat)
    requires Standing(ops, j, h)
    ensures FirstSinceRemoval(ops, i, h)
  {
    if e :| 0 <= e < j && Standing(ops, e, h) {
      i := EarliestStanding(ops, e, h);
    } else {
      i := j;
    }
  }
}
