/** The in-memory queue and the request middleware that drives it. Each method is one
    critical section; the lemmas of the step system apply because every method carries the
    queue from one state of that system to the next. */
module QueueMemory {
  import opened Basics
  import opened QueueProtocol

  lemma ClearOneMore(counts: map<Host, int>, postponed: map<Host, Time>, done: set<Host>, host: Host)
    ensures Zeroed(counts, done)[host := 0] == Zeroed(counts, done + {host})
    ensures (postponed - done) - {host} == postponed - (done + {host})
  {
  }

  class Memory {
    const countMap: GoMap<Host, int>
    var postponedResizes: map<Host, Time>
    const postponeDuration: Time
    const shouldPostpone: bool

    constructor (postponeDuration: Time, shouldPostpone: bool)
      ensures fresh(countMap) && countMap.entries == map[] && postponedResizes == map[]
      ensures this.postponeDuration == postponeDuration && this.shouldPostpone == shouldPostpone
    {
      postponedResizes := map[];
      this.postponeDuration, this.shouldPostpone := postponeDuration, shouldPostpone;
      countMap := new GoMap(map[]);
    }

    /** The queue holds what state `s` of the step system says it holds. */
    ghost predicate Matches(cfg: Config, s: State)
      reads this, countMap
    {
      && countMap.entries == s.counts && postponedResizes == s.postponed
      && cfg == Config(shouldPostpone, postponeDuration)
    }

    method Resize(host: Host, delta: int)
      modifies countMap
      ensures countMap.entries == Resized(old(countMap.entries), host, delta)
    {
      var before := if host in countMap.entries then countMap.entries[host] else 0;
      countMap.entries := countMap.entries[host := before + delta];
    }

    method Count(host: Host) returns (count: int)
      ensures count == At(countMap.entries, host)
    {
      if host !in countMap.entries {
        return 0;
      }
      count := countMap.entries[host];
    }

    /** The map itself is handed out, not a copy: its holder sees every later resize. */
    method Current() returns (counts: GoMap<Host, int>)
      ensures counts == countMap
    {
      counts := countMap;
    }

    method PostponeResize(host: Host, time: Time)
      modifies this`postponedResizes
      ensures postponedResizes == old(postponedResizes)[host := time]
    {
      postponedResizes := postponedResizes[host := time];
    }

    /** The enforcer's first critical section. `clock[h]` is what the clock reads when the
        loop, in whatever order, gets to `h`. */
    method ScanPostponed(clock: map<Host, Time>) returns (hostsToModify: seq<Host>)
      requires postponedResizes.Keys <= clock.Keys
      ensures Elems(hostsToModify) == Due(countMap.entries, postponedResizes, clock)
    {
      hostsToModify := [];
      ghost var due := Due(countMap.entries, postponedResizes, clock);
      var rest := postponedResizes.Keys;
      while rest != {}
        invariant rest <= postponedResizes.Keys
        invariant forall h :: h in hostsToModify <==> h in due && h !in rest
        decreases |rest|
      {
        var host :| host in rest;
        if postponedResizes[host] < clock[host] {
          var count := if host in countMap.entries then countMap.entries[host] else 0;
          if count == 1 {
            hostsToModify := hostsToModify + [host];
          }
        }
        rest := rest - {host};
      }
    }

    /** The enforcer's second critical section. */
    method CommitResizes(hostsToModify: seq<Host>)
      modifies this, countMap
      ensures countMap.entries == Zeroed(old(countMap.entries), Elems(hostsToModify))
      ensures postponedResizes == old(postponedResizes) - Elems(hostsToModify)
    {
      for i := 0 to |hostsToModify|
        invariant countMap.entries == Zeroed(old(countMap.entries), Elems(hostsToModify[..i]))
        invariant postponedResizes == old(postponedResizes) - Elems(hostsToModify[..i])
      {
        var host := hostsToModify[i];
        ElemsOfPrefix(hostsToModify, i);
        ClearOneMore(old(countMap.entries), old(postponedResizes), Elems(hostsToModify[..i]), host);
        countMap.entries := countMap.entries[host := 0];
        postponedResizes := postponedResizes - {host};
      }
      assert hostsToModify[..|hostsToModify|] == hostsToModify;
    }
  }

  // ---------- the middleware and the enforcer, one step at a time ----------

  method OnArrive(q: Memory, host: Host, ghost cfg: Config, ghost s: State, ghost r: Request)
    requires q.Matches(cfg, s) && Enabled(s, Arrive(r, host))
    modifies q, q.countMap
    ensures q.Matches(cfg, Apply(cfg, s, Arrive(r, host)))
  {
    q.Resize(host, 1);
  }

  /** The decision of the deferred function: whether this request postpones. */
  method OnFinishRead(q: Memory, host: Host, ghost cfg: Config, ghost s: State, ghost r: Request)
    returns (postpone: bool)
    requires q.Matches(cfg, s) && Enabled(s, FinishRead(r)) && s.requests[r].host == host
    ensures q.Matches(cfg, Apply(cfg, s, FinishRead(r)))
    ensures Apply(cfg, s, FinishRead(r)).requests[r] == if postpone then Postponing(host) else Decrementing(host)
  {
    postpone := q.shouldPostpone;
    if postpone {
      var count := q.Count(host);
      postpone := count == 1;
    }
  }

  method OnReadClock(q: Memory, host: Host, now: Time, ghost cfg: Config, ghost s: State, ghost r: Request)
    returns (deadline: Time)
    requires q.Matches(cfg, s) && Enabled(s, ReadClock(r)) && s.requests[r].host == host && now == s.now
    ensures q.Matches(cfg, Apply(cfg, s, ReadClock(r)))
    ensures Apply(cfg, s, ReadClock(r)).requests[r] == Posting(host, deadline)
  {
    deadline := now + q.postponeDuration;
  }

  method OnFinishPostpone(q: Memory, host: Host, deadline: Time, ghost cfg: Config, ghost s: State, ghost r: Request)
    requires q.Matches(cfg, s) && Enabled(s, FinishPostpone(r)) && s.requests[r] == Posting(host, deadline)
    modifies q, q.countMap
    ensures q.Matches(cfg, Apply(cfg, s, FinishPostpone(r)))
  {
    q.PostponeResize(host, deadline);
  }

  method OnFinishDecrement(q: Memory, host: Host, ghost cfg: Config, ghost s: State, ghost r: Request)
    requires q.Matches(cfg, s) && Enabled(s, FinishDecrement(r)) && s.requests[r] == Decrementing(host)
    modifies q, q.countMap
    ensures q.Matches(cfg, Apply(cfg, s, FinishDecrement(r)))
  {
    q.Resize(host, -1);
  }

  method OnScan(q: Memory, clock: map<Host, Time>, ghost end: Time, ghost cfg: Config, ghost s: State)
    returns (hostsToModify: seq<Host>)
    requires q.Matches(cfg, s) && Enabled(s, Scan(clock, end))
    ensures q.Matches(cfg, Apply(cfg, s, Scan(clock, end)))
    ensures Apply(cfg, s, Scan(clock, end)).scanned == Some(Elems(hostsToModify))
  {
    hostsToModify := q.ScanPostponed(clock);
  }

  method OnCommit(q: Memory, hostsToModify: seq<Host>, ghost cfg: Config, ghost s: State)
    requires q.Matches(cfg, s) && s.scanned == Some(Elems(hostsToModify))
    modifies q, q.countMap
    ensures q.Matches(cfg, Apply(cfg, s, Commit))
  {
    q.CommitResizes(hostsToModify);
  }
}
