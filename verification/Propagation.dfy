/** How the operator's routing table reaches its readers: it is written into a ConfigMap, and
    every interceptor and scaler replaces its own table from that ConfigMap, on each watch event
    and, where asked, by fetching it. */
module Propagation {
  import opened Basics
  import opened RoutingTable

  const CONFIG_MAP_KEY := "routing-table"

  type ConfigMap = map<string, string>

  /** The JSON encoding of tables, which the repository takes from a library. */
  datatype Codec = Codec(encode: Routes -> string, decode: string -> Option<Routes>)

  ghost predicate RoundTrips(codec: Codec) {
    forall m {:trigger codec.encode(m)} :: codec.decode(codec.encode(m)) == Some(m)
  }

  /** `SaveTableToConfigMap`: only the table's key changes. */
  function Saved(codec: Codec, m: Routes, cm: ConfigMap): ConfigMap {
    cm[CONFIG_MAP_KEY := codec.encode(m)]
  }

  /** `FetchTableFromConfigMap`. */
  function Fetched(codec: Codec, cm: ConfigMap): Option<Routes> {
    if CONFIG_MAP_KEY in cm then codec.decode(cm[CONFIG_MAP_KEY]) else None
  }

  /** Saving a table sets one key of the ConfigMap, which then decodes to it, and leaves all others
      alone; without that key, or with text that does not decode, there is no table to fetch. */
  lemma SavedIsFetched(codec: Codec, m: Routes, cm: ConfigMap)
    requires RoundTrips(codec)
    ensures Fetched(codec, Saved(codec, m, cm)) == Some(m)
    ensures Saved(codec, m, cm) - {"routing-table"} == cm - {"routing-table"}
    ensures "routing-table" !in cm ==> Fetched(codec, cm).None?
    ensures "routing-table" in cm ==> Fetched(codec, cm) == codec.decode(cm["routing-table"])
  {
  }

  datatype Status = Booted | Watching | Stopped

  /** A reader: its table, the event it has handled last, those it has not handled yet, oldest
      first, and for each fetch under way the ConfigMap that the fetch has read but not yet
      installed. */
  datatype Reader = Reader(
    table: Routes, handled: Option<ConfigMap>, queue: seq<ConfigMap>, status: Status, fetches: map<nat, ConfigMap>)

  datatype State = State(table: Routes, cm: ConfigMap, readers: map<nat, Reader>)

  // ---------- the operator ----------

  /** What the operator does: edit its table, or run `updateRoutingMap`, whose two calls to the
      API server may each fail. */
  datatype Write = Mutate(op: Op) | Publish(got: bool, patched: bool)

  function ApplyWrite(codec: Codec, s: State, w: Write): State {
    match w
    case Mutate(op) => s.(table := ApplyOp(s.table, op))
    case Publish(got, patched) =>
      var cm := if got && patched then Saved(codec, s.table, s.cm) else s.cm;
      s.(cm := cm, readers := Broadcast(s.readers, s.cm, cm))
  }

  /** A changed ConfigMap queues an event for everyone who watches. */
  function Broadcast(readers: map<nat, Reader>, cm: ConfigMap, cm': ConfigMap): map<nat, Reader> {
    map id | id in readers :: if cm' == cm then readers[id] else Notified(readers[id], cm')
  }

  function Notified(r: Reader, cm: ConfigMap): Reader {
    if r.status.Watching? then r.(queue := r.queue + [cm]) else r
  }

  // ---------- the readers ----------

  datatype Step =
    | Boot(id: nat)                     // a reader starts with an empty table
    | Watch(id: nat)                    // its informer lists the ConfigMap and watches it
    | FetchRead(id: nat, fetch: nat)    // `GetTable`, at start or on a ping, reads the ConfigMap
    | FetchReplace(id: nat, fetch: nat) // and later replaces the table by what it has read
    | Repeat(id: nat, at: nat)          // a resync delivers again what comes before queued event `at`
    | Deliver(id: nat)                  // the update loop handles its oldest event

  /** One turn of the update loop: an undecodable ConfigMap ends it. */
  function OnEvent(codec: Codec, r: Reader): Reader
    requires r.queue != []
  {
    match Fetched(codec, r.queue[0])
    case None => r.(handled := Some(r.queue[0]), queue := r.queue[1..], status := Stopped)
    case Some(m) => r.(handled := Some(r.queue[0]), queue := r.queue[1..], table := m)
  }

  /** The second half of `GetTable`: an undecodable ConfigMap leaves the table alone. */
  function OnFetched(codec: Codec, r: Reader, fetch: nat): Reader
    requires fetch in r.fetches
  {
    var m := Fetched(codec, r.fetches[fetch]);
    r.(fetches := r.fetches - {fetch}, table := if m.Some? then m.value else r.table)
  }

  /** The version before position `at` of the queue: the informer knows no later one then. */
  function Known(r: Reader, at: nat): Option<ConfigMap>
    requires at <= |r.queue|
  {
    if at == 0 then r.handled else Some(r.queue[at - 1])
  }

  function Repeated(r: Reader, at: nat): Reader
    requires at <= |r.queue| && Known(r, at).Some?
  {
    r.(queue := r.queue[..at] + [Known(r, at).value] + r.queue[at..])
  }

  predicate Enabled(s: State, step: Step) {
    if step.Boot? then step.id !in s.readers
    else
      && step.id in s.readers
      && var r := s.readers[step.id];
      match step
      case Watch(_) => r.status.Booted?
      case FetchRead(_, fetch) => !r.status.Stopped? && fetch !in r.fetches
      case FetchReplace(_, fetch) => !r.status.Stopped? && fetch in r.fetches
      case Repeat(_, at) => r.status.Watching? && at <= |r.queue| && Known(r, at).Some?
      case Deliver(_) => r.status.Watching? && r.queue != []
  }

  /** The reader that takes the step, afterwards. */
  function After(codec: Codec, s: State, step: Step): Reader
    requires Enabled(s, step)
  {
    if step.Boot? then Reader(map[], None, [], Booted, map[])
    else
      var r := s.readers[step.id];
      match step
      case Watch(_) => r.(queue := [s.cm], status := Watching)
      case FetchRead(_, fetch) => r.(fetches := r.fetches[fetch := s.cm])
      case FetchReplace(_, fetch) => OnFetched(codec, r, fetch)
      case Repeat(_, at) => Repeated(r, at)
      case Deliver(_) => OnEvent(codec, r)
  }

  function Apply(codec: Codec, s: State, step: Step): State
    requires Enabled(s, step)
  {
    s.(readers := s.readers[step.id := After(codec, s, step)])
  }

  // ---------- runs ----------

  /** What happens next: the operator works, or a reader takes a step. */
  datatype Move = Operates | Reads(step: Step)

  /** The operator may change its table at will, and the ConfigMap only to hold that table; all
      readers hear of a changed ConfigMap. */
  ghost predicate Moved(codec: Codec, s: State, move: Move, s': State) {
    match move
    case Operates =>
      && s'.readers == Broadcast(s.readers, s.cm, s'.cm)
      && (s'.cm == s.cm || Fetched(codec, s'.cm) == Some(s'.table))
    case Reads(step) => Enabled(s, step) && s' == Apply(codec, s, step)
  }

  ghost predicate Run(codec: Codec, tr: seq<State>, moves: seq<Move>) {
    && |tr| == |moves| + 1
    && tr[0].readers == map[]
    && forall i {:trigger moves[i]} | 0 <= i < |moves| :: Moved(codec, tr[i], moves[i], tr[i + 1])
  }

  /** Each single edit and each `updateRoutingMap` is such a move, so readers may come in between
      any two of them. */
  lemma WriteIsMove(codec: Codec, s: State, w: Write)
    requires RoundTrips(codec)
    ensures Moved(codec, s, Operates, ApplyWrite(codec, s, w))
  {
    if w.Mutate? {
      assert Broadcast(s.readers, s.cm, s.cm) == s.readers;
    }
  }

  // ---------- what readers see ----------

  /** A watching reader: the newest event it has queued, or else the one it has handled last, is
      the ConfigMap itself. */
  ghost predicate HearsNewest(cm: ConfigMap, r: Reader) {
    r.status.Watching? ==> Known(r, |r.queue|) == Some(cm)
  }

  /** And with no event queued its table is the ConfigMap's. */
  ghost predicate InStep(codec: Codec, cm: ConfigMap, r: Reader) {
    HearsNewest(cm, r) && (r.status.Watching? && r.queue == [] ==> Fetched(codec, cm) == Some(r.table))
  }

  lemma MoveKeepsHearing(codec: Codec, s: State, move: Move, s': State, id: nat)
    requires Moved(codec, s, move, s') && id in s'.readers
    requires id in s.readers ==> HearsNewest(s.cm, s.readers[id])
    ensures HearsNewest(s'.cm, s'.readers[id])
  {
  }

  lemma {:induction false} HearsNewestAlongRun(codec: Codec, tr: seq<State>, moves: seq<Move>, k: nat, id: nat)
    requires Run(codec, tr, moves) && k <= |moves| && id in tr[k].readers
    ensures HearsNewest(tr[k].cm, tr[k].readers[id])
  {
    if k > 0 {
      var move := moves[k - 1];
      if id in tr[k - 1].readers {
        HearsNewestAlongRun(codec, tr, moves, k - 1, id);
      }
      MoveKeepsHearing(codec, tr[k - 1], move, tr[k], id);
    }
  }

  /** In every run, a delivery that leaves the reader watching with nothing queued leaves it with
      the current ConfigMap's table, whatever was there before. */
  lemma LastDeliveryMakesCurrent(codec: Codec, tr: seq<State>, moves: seq<Move>, k: nat, id: nat)
    requires Run(codec, tr, moves) && k < |moves| && moves[k] == Reads(Deliver(id))
    requires tr[k + 1].readers[id].status.Watching? && tr[k + 1].readers[id].queue == []
    ensures Fetched(codec, tr[k + 1].cm) == Some(tr[k + 1].readers[id].table)
  {
    HearsNewestAlongRun(codec, tr, moves, k, id);
  }

  /** The move does not let a watching reader without queued events install a fetch whose
      ConfigMap decodes to another table than the ConfigMap does by now. */
  ghost predicate Timely(codec: Codec, s: State, move: Move, id: nat) {
    move.Reads? && move.step.FetchReplace? && move.step.id == id && Enabled(s, move.step) ==>
      var r := s.readers[id];
      var m := Fetched(codec, r.fetches[move.step.fetch]);
      r.status.Watching? && r.queue == [] ==> m.None? || m == Fetched(codec, s.cm)
  }

  lemma MoveKeepsInStepIff(codec: Codec, s: State, move: Move, s': State, id: nat)
    requires Moved(codec, s, move, s') && id in s'.readers
    requires id in s.readers ==> InStep(codec, s.cm, s.readers[id])
    ensures InStep(codec, s'.cm, s'.readers[id]) <==> Timely(codec, s, move, id)
  {
    if move.Operates? {
      assert s'.readers[id] == if s'.cm == s.cm then s.readers[id] else Notified(s.readers[id], s'.cm);
    } else if move.step.id == id {
      StepKeepsInStepIff(codec, s, move.step);
    }
  }

  lemma StepKeepsInStepIff(codec: Codec, s: State, step: Step)
    requires Enabled(s, step)
    requires step.id in s.readers ==> InStep(codec, s.cm, s.readers[step.id])
    ensures InStep(codec, s.cm, After(codec, s, step)) <==> Timely(codec, s, Reads(step), step.id)
  {
  }

  lemma {:induction false} InStepAlongRun(codec: Codec, tr: seq<State>, moves: seq<Move>, k: nat, id: nat)
    requires Run(codec, tr, moves) && k <= |moves| && id in tr[k].readers
    requires forall i | 0 <= i < k :: Timely(codec, tr[i], moves[i], id)
    ensures InStep(codec, tr[k].cm, tr[k].readers[id])
  {
    if k > 0 {
      var move := moves[k - 1];
      if id in tr[k - 1].readers {
        InStepAlongRun(codec, tr, moves, k - 1, id);
      }
      MoveKeepsInStepIff(codec, tr[k - 1], move, tr[k], id);
    }
  }

  lemma MoveKeepsReaders(codec: Codec, s: State, move: Move, s': State, id: nat)
    requires Moved(codec, s, move, s') && id in s.readers
    ensures id in s'.readers
  {
  }

  lemma InStepForcesTimely(codec: Codec, tr: seq<State>, moves: seq<Move>, i: nat, id: nat)
    requires Run(codec, tr, moves) && i < |moves|
    requires id in tr[i].readers ==> InStep(codec, tr[i].cm, tr[i].readers[id])
    requires id in tr[i + 1].readers ==> InStep(codec, tr[i + 1].cm, tr[i + 1].readers[id])
    ensures Timely(codec, tr[i], moves[i], id)
  {
    var move := moves[i];
    if id in tr[i].readers {
      MoveKeepsReaders(codec, tr[i], move, tr[i + 1], id);
      MoveKeepsInStepIff(codec, tr[i], move, tr[i + 1], id);
    }
  }

  /** A reader agrees with the ConfigMap throughout a run, whenever it watches and has handled all
      its events, if and only if no fetch replaces its table at such a moment by what it read
      before the ConfigMap came to hold another table. */
  lemma InStepIffTimely(codec: Codec, tr: seq<State>, moves: seq<Move>, k: nat, id: nat)
    requires Run(codec, tr, moves) && k <= |moves|
    ensures (forall i | 0 <= i <= k && id in tr[i].readers :: InStep(codec, tr[i].cm, tr[i].readers[id])) <==>
            (forall i | 0 <= i < k :: Timely(codec, tr[i], moves[i], id))
  {
    if forall i | 0 <= i < k :: Timely(codec, tr[i], moves[i], id) {
      forall i | 0 <= i <= k && id in tr[i].readers ensures InStep(codec, tr[i].cm, tr[i].readers[id]) {
        InStepAlongRun(codec, tr, moves, i, id);
      }
    }
    if forall i | 0 <= i <= k && id in tr[i].readers :: InStep(codec, tr[i].cm, tr[i].readers[id]) {
      forall i | 0 <= i < k ensures Timely(codec, tr[i], moves[i], id) {
        InStepForcesTimely(codec, tr, moves, i, id);
      }
    }
  }

  /** A reader that fetches only before it watches (the scaler never fetches) has the table of
      the current ConfigMap once it has handled all its events, however many versions and repeats
      went before. */
  lemma DrainedReaderIsCurrent(codec: Codec, tr: seq<State>, moves: seq<Move>, k: nat, id: nat)
    requires Run(codec, tr, moves) && k <= |moves| && id in tr[k].readers
    requires tr[k].readers[id].status.Watching? && tr[k].readers[id].queue == []
    requires forall i | 0 <= i < k && moves[i].Reads? && moves[i].step.FetchReplace? && moves[i].step.id == id ::
               id in tr[i].readers && !tr[i].readers[id].status.Watching?
    ensures Fetched(codec, tr[k].cm) == Some(tr[k].readers[id].table)
  {
    forall i | 0 <= i < k ensures Timely(codec, tr[i], moves[i], id) {
      var move := moves[i];
    }
    InStepAlongRun(codec, tr, moves, k, id);
  }

  // ---------- a stale fetch ----------

  /** The shipped ConfigMap, which holds the empty table. */
  function Shipped(codec: Codec): ConfigMap {
    Saved(codec, map[], map[])
  }

  /** A reader watches and has handled its first event when a ping reads the ConfigMap; the operator
      routes `h`, the watch loop installs the new table, and then the ping installs the old one. */
  function StaleState(codec: Codec, h: Host, target: Target, n: nat): State {
    var m := map[h := target];
    var cm, cm' := Shipped(codec), Saved(codec, m, Shipped(codec));
    match n
    case 0 => State(map[], cm, map[])
    case 1 => State(map[], cm, map[0 := Reader(map[], None, [], Booted, map[])])
    case 2 => State(map[], cm, map[0 := Reader(map[], None, [cm], Watching, map[])])
    case 3 => State(map[], cm, map[0 := Reader(map[], Some(cm), [], Watching, map[])])
    case 4 => State(map[], cm, map[0 := Reader(map[], Some(cm), [], Watching, map[0 := cm])])
    case 5 => State(m, cm, map[0 := Reader(map[], Some(cm), [], Watching, map[0 := cm])])
    case 6 => State(m, cm', map[0 := Reader(map[], Some(cm), [cm'], Watching, map[0 := cm])])
    case 7 => State(m, cm', map[0 := Reader(m, Some(cm'), [], Watching, map[0 := cm])])
    case _ => State(m, cm', map[0 := Reader(map[], Some(cm'), [], Watching, map[])])
  }

  const STALE_MOVES: seq<Move> := [
    Reads(Boot(0)), Reads(Watch(0)), Reads(Deliver(0)), Reads(FetchRead(0, 0)), Operates, Operates,
    Reads(Deliver(0)), Reads(FetchReplace(0, 0))]

  lemma StaleReads(codec: Codec, h: Host, target: Target, n: nat)
    requires RoundTrips(codec) && n < 8 && n != 4 && n != 5
    ensures Moved(codec, StaleState(codec, h, target, n), STALE_MOVES[n], StaleState(codec, h, target, n + 1))
  {
    var m := map[h := target];
    assert codec.decode(codec.encode(m)) == Some(m) && codec.decode(codec.encode(map[])) == Some(map[]);
    var s, step := StaleState(codec, h, target, n), STALE_MOVES[n].step;
    assert [s.cm][1..] == [] && map[0 := Shipped(codec)] - {0} == map[];
    assert n == 7 ==> Fetched(codec, Shipped(codec)) == Some(map[]);
    assert Apply(codec, s, step).readers == StaleState(codec, h, target, n + 1).readers;
  }

  lemma StaleWrites(codec: Codec, h: Host, target: Target)
    requires RoundTrips(codec)
    ensures var s := StaleState(codec, h, target, 4);
            var s' := ApplyWrite(codec, s, Mutate(Add(h, target)));
            && s' == StaleState(codec, h, target, 5) && Moved(codec, s, Operates, s')
            && var s'' := ApplyWrite(codec, s', Publish(true, true));
            s'' == StaleState(codec, h, target, 6) && Moved(codec, s', Operates, s'')
  {
    var s := StaleState(codec, h, target, 4);
    WriteIsMove(codec, s, Mutate(Add(h, target)));
    var s' := ApplyWrite(codec, s, Mutate(Add(h, target)));
    assert s' == StaleState(codec, h, target, 5);
    WriteIsMove(codec, s', Publish(true, true));
    var m := map[h := target];
    assert codec.decode(codec.encode(m)) != codec.decode(codec.encode(map[])) by {
      assert h in m;
      assert codec.decode(codec.encode(m)) == Some(m) && codec.decode(codec.encode(map[])) == Some(map[]);
    }
    assert s'.cm[CONFIG_MAP_KEY] != Saved(codec, m, s'.cm)[CONFIG_MAP_KEY];
    assert [] + [Saved(codec, m, s'.cm)] == [Saved(codec, m, s'.cm)];
    assert ApplyWrite(codec, s', Publish(true, true)).readers == StaleState(codec, h, target, 6).readers;
  }

  /** So a watching reader that has handled all its events can be stale: it lacks the one host
      that the operator routes and the ConfigMap holds. */
  lemma FetchMakesStale(codec: Codec, h: Host, target: Target) returns (tr: seq<State>)
    requires RoundTrips(codec)
    ensures Run(codec, tr, STALE_MOVES) && tr[0].cm == Shipped(codec) && tr[0].table == map[]
    ensures var s := tr[8];
            && Fetched(codec, s.cm) == Some(s.table) && s.table == map[h := target]
            && s.readers == map[0 := Reader(map[], Some(s.cm), [], Watching, map[])]
  {
    tr := seq(9, n requires 0 <= n < 9 => StaleState(codec, h, target, n));
    forall i | 0 <= i < 8 ensures Moved(codec, tr[i], STALE_MOVES[i], tr[i + 1]) {
      if i == 4 || i == 5 {
        StaleWrites(codec, h, target);
      } else {
        StaleReads(codec, h, target, i);
      }
    }
    assert codec.decode(codec.encode(map[h := target])) == Some(map[h := target]);
  }

  // ---------- where tables come from ----------

  /** The ConfigMap was `cm` in some state up to `k`. */
  ghost predicate Stored(tr: seq<State>, k: nat, cm: ConfigMap) {
    exists i :: 0 <= i <= k && i < |tr| && tr[i].cm == cm
  }

  /** The reader's table is empty or came from a ConfigMap of the past, and so will every queued
      event and every fetch under way. */
  ghost predicate Sourced(codec: Codec, tr: seq<State>, k: nat, r: Reader) {
    && (forall cm | cm in r.queue :: Stored(tr, k, cm))
    && (r.handled.Some? ==> Stored(tr, k, r.handled.value))
    && (forall fetch | fetch in r.fetches :: Stored(tr, k, r.fetches[fetch]))
    && (r.table == map[] || exists cm :: Stored(tr, k, cm) && Fetched(codec, cm) == Some(r.table))
  }

  lemma SourcedOneMore(codec: Codec, tr: seq<State>, k: nat, r: Reader)
    requires Sourced(codec, tr, k, r)
    ensures Sourced(codec, tr, k + 1, r)
  {
    forall cm | Stored(tr, k, cm) ensures Stored(tr, k + 1, cm) {
      var i :| 0 <= i <= k && i < |tr| && tr[i].cm == cm;
    }
  }

  lemma MoveKeepsSourced(codec: Codec, tr: seq<State>, k: nat, move: Move, id: nat)
    requires k + 1 < |tr| && Moved(codec, tr[k], move, tr[k + 1]) && id in tr[k + 1].readers
    requires id in tr[k].readers ==> Sourced(codec, tr, k + 1, tr[k].readers[id])
    ensures Sourced(codec, tr, k + 1, tr[k + 1].readers[id])
  {
    assert Stored(tr, k + 1, tr[k].cm) && Stored(tr, k + 1, tr[k + 1].cm);
    if move.Operates? {
      assert forall cm | cm in tr[k + 1].readers[id].queue :: cm in tr[k].readers[id].queue || cm == tr[k + 1].cm;
    } else if move.step.id == id && id in tr[k].readers {
      StepKeepsSourced(codec, tr, k, move.step);
    }
  }

  lemma StepKeepsSourced(codec: Codec, tr: seq<State>, k: nat, step: Step)
    requires k < |tr| && Enabled(tr[k], step) && step.id in tr[k].readers
    requires Sourced(codec, tr, k + 1, tr[k].readers[step.id]) && Stored(tr, k + 1, tr[k].cm)
    ensures Sourced(codec, tr, k + 1, After(codec, tr[k], step))
  {
    var r, r' := tr[k].readers[step.id], After(codec, tr[k], step);
    forall cm | cm in r'.queue ensures Stored(tr, k + 1, cm) {
      assert cm in r.queue || cm == tr[k].cm || r.handled == Some(cm);
    }
    if step.Deliver? {
      assert r.queue[0] in r.queue;
    }
  }

  lemma {:induction false} SourcedAlongRun(codec: Codec, tr: seq<State>, moves: seq<Move>, k: nat, id: nat)
    requires Run(codec, tr, moves) && k <= |moves| && id in tr[k].readers
    ensures Sourced(codec, tr, k, tr[k].readers[id])
  {
    if k > 0 {
      var move := moves[k - 1];
      if id in tr[k - 1].readers {
        SourcedAlongRun(codec, tr, moves, k - 1, id);
        SourcedOneMore(codec, tr, k - 1, tr[k - 1].readers[id]);
      }
      MoveKeepsSourced(codec, tr, k - 1, move, id);
    }
  }

  /** Every ConfigMap of a run is the first one or holds the operator's table of some state. */
  lemma {:induction false} StoredWasPublished(codec: Codec, tr: seq<State>, moves: seq<Move>, k: nat)
    requires Run(codec, tr, moves) && k <= |moves|
    ensures tr[k].cm == tr[0].cm || exists j :: 0 <= j <= k && Fetched(codec, tr[k].cm) == Some(tr[j].table)
  {
    if k > 0 {
      StoredWasPublished(codec, tr, moves, k - 1);
      var move := moves[k - 1];
      if tr[k].cm != tr[k - 1].cm {
        assert Fetched(codec, tr[k].cm) == Some(tr[k].table);
      }
    }
  }

  /** A reader never routes by a table of its own making: its table is the empty one it started
      with, the one of the first ConfigMap, or one the operator has had. */
  lemma ReaderTableWasPublished(codec: Codec, tr: seq<State>, moves: seq<Move>, k: nat, id: nat)
    requires Run(codec, tr, moves) && k <= |moves| && id in tr[k].readers
    ensures var m := tr[k].readers[id].table;
            || m == map[] || Fetched(codec, tr[0].cm) == Some(m)
            || exists j :: 0 <= j <= k && tr[j].table == m
  {
    SourcedAlongRun(codec, tr, moves, k, id);
    var m := tr[k].readers[id].table;
    if m != map[] {
      var cm :| Stored(tr, k, cm) && Fetched(codec, cm) == Some(m);
      var i :| 0 <= i <= k && i < |tr| && tr[i].cm == cm;
      StoredWasPublished(codec, tr, moves, i);
    }
  }

  // ---------- the readers' code ----------

  /** What a watch event carries. */
  datatype Event = NotAConfigMap | Changed(cm: ConfigMap)

  /** The reader after the update loop has handled `events`. */
  function Follow(codec: Codec, m: Routes, events: seq<Event>): (Routes, bool)
    decreases |events|
  {
    if events == [] then (m, true)
    else if events[0].NotAConfigMap? then Follow(codec, m, events[1..])
    else
      match Fetched(codec, events[0].cm)
      case None => (m, false)
      case Some(m') => Follow(codec, m', events[1..])
  }

  /** `FetchTableFromConfigMap` and `Replace`: the table gets a map of its own. */
  method ReplaceFrom(codec: Codec, table: Table, cm: ConfigMap) returns (ok: bool)
    modifies table
    ensures ok <==> Fetched(codec, cm).Some?
    ensures if ok then fresh(table.m) && table.m.entries == Fetched(codec, cm).value else table.m == old(table.m)
  {
    var m := Fetched(codec, cm);
    if m.None? {
      return false;
    }
    var newTable := new Table();
    newTable.m := new GoMap(m.value);
    table.Replace(newTable);
    ok := true;
  }

  /** The loop of `StartConfigMapRoutingTableUpdater` over its events. */
  method FollowEvents(codec: Codec, table: Table, events: seq<Event>) returns (running: bool)
    modifies table
    ensures (table.m.entries, running) == Follow(codec, old(table.m.entries), events)
  {
    for i := 0 to |events|
      invariant fresh(table.m) || table.m == old(table.m)
      invariant Follow(codec, table.m.entries, events[i..]) == Follow(codec, old(table.m.entries), events)
    {
      assert events[i..][1..] == events[i + 1..];
      match events[i] {
        case NotAConfigMap =>
        case Changed(cm) =>
          var ok := ReplaceFrom(codec, table, cm);
          if !ok {
            return false;
          }
      }
    }
    running := true;
  }

  /** The ConfigMaps among the events. */
  function ConfigMaps(events: seq<Event>): seq<ConfigMap> {
    if events == [] then []
    else (if events[0].Changed? then [events[0].cm] else []) + ConfigMaps(events[1..])
  }

  /** The reader after one turn for each queued event, as long as it watches. */
  function Turns(codec: Codec, r: Reader): Reader
    decreases |r.queue|
  {
    if r.status.Watching? && r.queue != [] then Turns(codec, OnEvent(codec, r)) else r
  }

  /** Over any events the loop does exactly what the reader's turns do, one for each ConfigMap; if
      it still runs, the table is that of the last one. */
  lemma {:induction false} FollowIsTurns(codec: Codec, r: Reader, events: seq<Event>)
    requires r.status.Watching? && r.queue == ConfigMaps(events)
    ensures var r' := Turns(codec, r);
            Follow(codec, r.table, events) == (r'.table, r'.status.Watching?)
    ensures r.queue != [] && Follow(codec, r.table, events).1 ==>
              Fetched(codec, r.queue[|r.queue| - 1]) == Some(Follow(codec, r.table, events).0)
    decreases |events|
  {
    if events != [] {
      if events[0].NotAConfigMap? {
        assert ConfigMaps(events) == ConfigMaps(events[1..]);
        FollowIsTurns(codec, r, events[1..]);
      } else {
        var r' := OnEvent(codec, r);
        assert r'.queue == ConfigMaps(events[1..]);
        if r'.status.Watching? {
          FollowIsTurns(codec, r', events[1..]);
        }
      }
    }
  }

  /** `GetTable` from where its read has returned: the table is replaced only by what the
      ConfigMap that was read decodes to, as `OnFetched` says. */
  method GetTable(codec: Codec, table: Table, read: Option<ConfigMap>) returns (ok: bool)
    modifies table
    ensures ok <==> read.Some? && Fetched(codec, read.value).Some?
    ensures table.m.entries == if ok then Fetched(codec, read.value).value else old(table.m.entries)
  {
    if read.None? {
      return false;
    }
    ok := ReplaceFrom(codec, table, read.value);
  }
}
