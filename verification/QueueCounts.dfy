/** Snapshots of pending counts, their aggregate, and the totals over several snapshots. */
module QueueCounts {
  import opened Basics

  type Counts = map<Host, int>

  /** The sum of all values, in no particular order. */
  ghost function Sum<K>(m: map<K, int>): int
    decreases |m|
  {
    if m == map[] then 0 else
      var k :| k in m;
      assert |m - {k}| < |m| by { assert k !in m - {k}; SmallerMap(m, k); }
      m[k] + Sum(m - {k})
  }

  lemma SmallerMap<K, V>(m: map<K, V>, k: K)
    requires k in m
    ensures |m - {k}| == |m| - 1
  {
    assert (m - {k}).Keys == m.Keys - {k};
  }

  lemma {:induction false} SumWithout<K>(m: map<K, int>, k: K)
    requires k in m
    ensures Sum(m) == m[k] + Sum(m - {k})
    decreases |m|
  {
    var first :| first in m && Sum(m) == m[first] + Sum(m - {first});
    if first != k {
      SmallerMap(m, first);
      SmallerMap(m, k);
      SumWithout(m - {first}, k);
      SumWithout(m - {k}, first);
      assert (m - {first}) - {k} == (m - {k}) - {first};
    }
  }

  lemma SumAfterAdding<K>(m: map<K, int>, k: K, v: int)
    ensures Sum(m[k := At(m, k) + v]) == Sum(m) + v
  {
    SumWithout(m[k := At(m, k) + v], k);
    if k in m {
      SumWithout(m, k);
      assert m[k := At(m, k) + v] - {k} == m - {k};
    } else {
      assert m[k := At(m, k) + v] - {k} == m;
    }
  }

  /** `Counts.Aggregate`: the loop visits the hosts in any order. */
  method Aggregate(counts: Counts) returns (agg: int)
    ensures agg == Sum(counts)
  {
    agg := 0;
    var rest := counts;
    while rest != map[]
      invariant agg + Sum(rest) == Sum(counts)
      invariant rest.Keys <= counts.Keys && forall h | h in rest :: rest[h] == counts[h]
      decreases |rest|
    {
      var host :| host in rest;
      SumWithout(rest, host);
      SmallerMap(rest, host);
      agg := agg + counts[host];
      rest := rest - {host};
    }
  }

  // ---------- totals over several snapshots ----------

  function HostTotal(cs: seq<Counts>, h: Host): int {
    if cs == [] then 0 else HostTotal(cs[..|cs| - 1], h) + At(cs[|cs| - 1], h)
  }

  function AllHosts(cs: seq<Counts>): set<Host> {
    set i, h | 0 <= i < |cs| && h in cs[i] :: h
  }

  /** Per host the sum over all snapshots; the hosts are those of any snapshot. */
  function Totals(cs: seq<Counts>): Counts {
    map h | h in AllHosts(cs) :: HostTotal(cs, h)
  }

  ghost function SumOfAggregates(cs: seq<Counts>): int {
    if cs == [] then 0 else SumOfAggregates(cs[..|cs| - 1]) + Sum(cs[|cs| - 1])
  }

  function Added(a: Counts, b: Counts): Counts {
    map h | h in a.Keys + b.Keys :: At(a, h) + At(b, h)
  }

  lemma {:induction false} SumOfAdded(a: Counts, b: Counts)
    ensures Sum(Added(a, b)) == Sum(a) + Sum(b)
    decreases |b|
  {
    if b == map[] {
      AddedNothing(a);
    } else {
      var h :| h in b;
      var less := b - {h};
      SmallerMap(b, h);
      SumOfAdded(a, less);
      SumWithout(b, h);
      PutBack(b, h);
      SumAddedOneMore(a, less, h, b[h]);
    }
  }

  lemma AddedNothing(a: Counts)
    ensures Added(a, map[]) == a
  {
  }

  lemma PutBack<K, V>(m: map<K, V>, k: K)
    requires k in m
    ensures (m - {k})[k := m[k]] == m
  {
  }

  lemma SumAddedOneMore(a: Counts, b: Counts, h: Host, v: int)
    requires h !in b
    ensures Sum(Added(a, b[h := v])) == Sum(Added(a, b)) + v
  {
    AddedOneMore(a, b, h, v);
    SumAfterAdding(Added(a, b), h, v);
  }

  lemma AddedOneMore(a: Counts, b: Counts, h: Host, v: int)
    requires h !in b
    ensures Added(a, b[h := v]) == Added(a, b)[h := At(Added(a, b), h) + v]
  {
  }

  /** A host missing from every snapshot totals zero. */
  lemma {:induction false} AbsentTotalsZero(cs: seq<Counts>, h: Host)
    requires h !in AllHosts(cs)
    ensures HostTotal(cs, h) == 0
  {
    if cs != [] {
      assert h !in cs[|cs| - 1];
      AbsentTotalsZero(cs[..|cs| - 1], h);
    }
  }

  lemma AllHostsOneMore(cs: seq<Counts>, c: Counts)
    ensures AllHosts(cs + [c]) == AllHosts(cs) + c.Keys
  {
    var more := cs + [c];
    forall h | h in AllHosts(cs) ensures h in AllHosts(more) {
      var i :| 0 <= i < |cs| && h in cs[i];
      assert h in more[i];
    }
    forall h | h in c ensures h in AllHosts(more) {
      assert h in more[|cs|];
    }
  }

  lemma HostTotalOneMore(cs: seq<Counts>, c: Counts, h: Host)
    ensures HostTotal(cs + [c], h) == At(Totals(cs), h) + At(c, h)
  {
    assert (cs + [c])[..|cs|] == cs;
    if h !in AllHosts(cs) {
      AbsentTotalsZero(cs, h);
    }
  }

  lemma TotalsOneMore(cs: seq<Counts>, c: Counts)
    ensures Totals(cs + [c]) == Added(Totals(cs), c)
  {
    AllHostsOneMore(cs, c);
    var more := Totals(cs + [c]);
    assert more.Keys == Added(Totals(cs), c).Keys;
    forall h | h in more ensures more[h] == At(Totals(cs), h) + At(c, h) {
      HostTotalOneMore(cs, c, h);
    }
  }

  /** The sum of the totals is the sum of the snapshots' aggregates. */
  lemma {:induction false} TotalsSumUp(cs: seq<Counts>)
    ensures Sum(Totals(cs)) == SumOfAggregates(cs)
  {
    if cs == [] {
      assert Totals(cs) == map[];
    } else {
      var front, last := cs[..|cs| - 1], cs[|cs| - 1];
      TotalsSumUp(front);
      assert front + [last] == cs;
      TotalsOneMore(front, last);
      SumOfAdded(Totals(front), last);
    }
  }

  /** The inner loop of `fetchCounts`: one snapshot is added, hosts in any order. */
  method AddSnapshot(before: Counts, aggBefore: int, counts: Counts) returns (totals: Counts, agg: int)
    requires aggBefore == Sum(before)
    ensures totals == Added(before, counts) && agg == Sum(totals)
  {
    totals, agg := before, aggBefore;
    var rest := counts.Keys;
    ghost var done: Counts := map[];
    AddedNothing(before);
    while rest != {}
      invariant rest <= counts.Keys && done.Keys == counts.Keys - rest
      invariant forall h | h in done :: done[h] == counts[h]
      invariant totals == Added(before, done) && agg == Sum(totals)
      decreases |rest|
    {
      var host :| host in rest;
      var val := counts[host];
      AddedOneMore(before, done, host, val);
      SumAddedOneMore(before, done, host, val);
      agg := agg + val;
      totals := totals[host := (if host in totals then totals[host] else 0) + val];
      done := done[host := val];
      rest := rest - {host};
    }
    assert done == counts;
  }

  /** The consuming loop of `fetchCounts`: the snapshots in their order of arrival. */
  method AddUp(arrivals: seq<Counts>) returns (totals: Counts, agg: int)
    ensures totals == Totals(arrivals)
    ensures agg == Sum(totals) == SumOfAggregates(arrivals)
  {
    totals, agg := map[], 0;
    for i := 0 to |arrivals|
      invariant totals == Totals(arrivals[..i]) && agg == Sum(totals)
    {
      totals, agg := AddSnapshot(totals, agg, arrivals[i]);
      assert arrivals[..i + 1] == arrivals[..i] + [arrivals[i]];
      TotalsOneMore(arrivals[..i], arrivals[i]);
    }
    assert arrivals[..|arrivals|] == arrivals;
    TotalsSumUp(arrivals);
  }

  // ---------- the order of arrival does not matter ----------

  lemma {:induction false} TotalWithout(cs: seq<Counts>, j: nat, h: Host)
    requires j < |cs|
    ensures HostTotal(cs, h) == HostTotal(cs[..j] + cs[j + 1..], h) + At(cs[j], h)
  {
    var n := |cs| - 1;
    if j == n {
      assert cs[..j] + cs[j + 1..] == cs[..n];
    } else {
      TotalWithout(cs[..n], j, h);
      var less := cs[..j] + cs[j + 1..];
      assert less[..|less| - 1] == cs[..n][..j] + cs[..n][j + 1..];
      assert less[|less| - 1] == cs[n];
    }
  }

  lemma {:induction false} TotalOfPermutation(a: seq<Counts>, b: seq<Counts>, h: Host)
    requires multiset(a) == multiset(b)
    ensures HostTotal(a, h) == HostTotal(b, h)
  {
    if a == [] {
      assert |b| == |multiset(b)| == 0;
    } else {
      var n := |a| - 1;
      assert a == a[..n] + [a[n]];
      assert a[n] in multiset(b);
      var j :| 0 <= j < |b| && b[j] == a[n];
      assert b == b[..j] + [b[j]] + b[j + 1..];
      assert multiset(b[..j] + b[j + 1..]) == multiset(b) - multiset{a[n]} == multiset(a[..n]);
      TotalOfPermutation(a[..n], b[..j] + b[j + 1..], h);
      TotalWithout(b, j, h);
    }
  }

  /** The same snapshots in any order of arrival give the same totals and the same aggregate. */
  lemma OrderOfArrivalIrrelevant(a: seq<Counts>, b: seq<Counts>)
    requires multiset(a) == multiset(b)
    ensures Totals(a) == Totals(b) && SumOfAggregates(a) == SumOfAggregates(b)
  {
    forall h ensures HostTotal(a, h) == HostTotal(b, h) {
      TotalOfPermutation(a, b, h);
    }
    assert forall c :: c in a <==> c in multiset(a);
    assert forall c :: c in b <==> c in multiset(b);
    assert AllHosts(a) == AllHosts(b) by {
      assert forall h :: h in AllHosts(a) <==> exists c :: c in a && h in c;
      assert forall h :: h in AllHosts(b) <==> exists c :: c in b && h in c;
    }
    TotalsSumUp(a);
    TotalsSumUp(b);
  }

  /** Where no share is negative, a total is positive exactly if some snapshot's share is. */
  lemma {:induction false} TotalPositiveIff(cs: seq<Counts>, h: Host)
    requires forall k | 0 <= k < |cs| :: At(cs[k], h) >= 0
    ensures HostTotal(cs, h) >= 0
    ensures HostTotal(cs, h) > 0 <==> exists k :: 0 <= k < |cs| && At(cs[k], h) > 0
  {
    if cs != [] {
      var n := |cs| - 1;
      TotalPositiveIff(cs[..n], h);
      assert forall k | 0 <= k < n :: cs[..n][k] == cs[k];
      if k :| 0 <= k < n && At(cs[k], h) > 0 {
        assert At(cs[..n][k], h) > 0;
      }
    }
  }
}
