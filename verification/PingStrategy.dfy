/**
 The ping cache, shared by every call of `marshalNodes` in flight. What happens between two `await`s is one
 event; events of different calls, ping answers and timers come in any order.
 */
module PingStrategy {
  import opened Options
  import opened Routing
  import opened StableSort

  const PING_THRESHOLD: nat := 10
  const PING_THRESHOLD_INC: nat := 2

  datatype PingState = Pending | Resolved | Rejected

  datatype PingRecord = PingRecord(node: RouterNode, state: PingState, latency: Option<nat>)

  type Records = map<string, PingRecord>

  /** Where a call of `marshalNodes` stands. `awaited` are the URLs whose pings the call started itself. */
  datatype Stage =
    | Counted(op: Operation, shuffled: seq<RouterNode>, pinged: seq<RouterNode>)
    | Waiting(op: Operation, shuffled: seq<RouterNode>, nodes: seq<RouterNode>, awaited: set<string>,
              background: seq<RouterNode>)
    | Returned(nodes: seq<RouterNode>)

  /** `started` lists the URLs pinged, in the order of the cache. */
  datatype World = World(
    sslRequired: bool, records: Records, started: seq<string>, calls: map<nat, Stage>, timers: seq<seq<RouterNode>>)

  datatype Event =
    | Begin(call: nat, op: Operation, shuffled: seq<RouterNode>)
    | Plan(call: nat)
    | Return(call: nat)
    | TimerFires(timer: nat)
    | PingAnswers(url: string, latency: nat)
    | PingResolves(url: string)
    | PingRejects(url: string)

  // ---- One event ----

  /** `getPingedNodes()`. */
  function PingedNodes(records: Records, order: seq<string>): seq<RouterNode> {
    if order == [] then []
    else if order[0] in records && !records[order[0]].state.Rejected?
      then [records[order[0]].node] + PingedNodes(records, order[1..])
    else PingedNodes(records, order[1..])
  }

  /** `enqueuePing`: at most one record, and one ping, per URL. */
  function Enqueue(w: World, node: RouterNode): World {
    if node.httpUrl in w.records then w
    else w.(records := w.records[node.httpUrl := PingRecord(node, Pending, None)],
            started := w.started + [node.httpUrl])
  }

  function EnqueueAll(w: World, nodes: seq<RouterNode>): World
    decreases |nodes|
  {
    if nodes == [] then w else EnqueueAll(Enqueue(w, nodes[0]), nodes[1..])
  }

  function Take<T>(s: seq<T>, n: int): seq<T> { if n <= 0 then [] else if n <= |s| then s[..n] else s }

  function NotPinged(records: Records, nodes: seq<RouterNode>): seq<RouterNode> {
    Filter(nodes, (node: RouterNode) => node.httpUrl !in records)
  }

  function LatenciesOf(records: Records): Latencies {
    map u | u in records && records[u].latency.Some? :: records[u].latency.value
  }

  predicate Settled(records: Records, urls: set<string>) {
    forall u | u in urls && u in records :: !records[u].state.Pending?
  }

  function Planned(w: World, call: nat, op: Operation, shuffled: seq<RouterNode>, pinged: seq<RouterNode>): World {
    var all := MarshalByType(op, w.sslRequired, shuffled);
    var notPinged := NotPinged(w.records, all);
    var toPingSync := Take(notPinged, PING_THRESHOLD - |pinged|);
    var toPingAsync := Take(notPinged, PING_THRESHOLD_INC);
    var v := EnqueueAll(w, pinged + toPingSync);
    v.(calls := v.calls[call := Waiting(op, shuffled, all, v.records.Keys - w.records.Keys, toPingAsync)])
  }

  /** An event that cannot happen in a world leaves it as it is. */
  function Step(w: World, e: Event): World {
    match e
    case Begin(call, op, shuffled) =>
      if call in w.calls then w
      else w.(calls := w.calls[call :=
        Counted(op, shuffled, MarshalByType(op, w.sslRequired, PingedNodes(w.records, w.started)))])
    case Plan(call) =>
      if call in w.calls && w.calls[call].Counted?
      then var s := w.calls[call]; Planned(w, call, s.op, s.shuffled, s.pinged)
      else w
    case Return(call) =>
      if call in w.calls && w.calls[call].Waiting? && Settled(w.records, w.calls[call].awaited)
      then var s := w.calls[call];
        w.(calls := w.calls[call := Returned(Sort(s.nodes, LatencyKey(LatenciesOf(w.records))))],
           timers := w.timers + [s.background])
      else w
    case TimerFires(i) =>
      if i < |w.timers| then EnqueueAll(w, w.timers[i]).(timers := w.timers[..i] + w.timers[i + 1..]) else w
    case PingAnswers(url, latency) =>
      if url in w.records && w.records[url].state.Pending? && w.records[url].latency == None
      then w.(records := w.records[url := w.records[url].(latency := Some(latency))]) else w
    case PingResolves(url) =>
      if url in w.records && w.records[url].state.Pending? && w.records[url].latency.Some?
      then w.(records := w.records[url := w.records[url].(state := Resolved)]) else w
    case PingRejects(url) =>
      if url in w.records && w.records[url].state.Pending? && w.records[url].latency == None
      then w.(records := w.records[url := w.records[url].(state := Rejected)]) else w
  }

  function Run(w: World, es: seq<Event>): World
    decreases |es|
  {
    if es == [] then w else Run(Step(w, es[0]), es[1..])
  }

  // ---- What every run keeps ----

  ghost predicate RecordOk(r: PingRecord, url: string) {
    && r.node.httpUrl == url
    && (r.state.Resolved? ==> r.latency.Some?)
    && (r.state.Rejected? ==> r.latency == None)
  }

  /** Each URL was pinged at most once, and those pinged are those recorded. */
  ghost predicate Inv(w: World) {
    && (forall i, j | 0 <= i < j < |w.started| :: w.started[i] != w.started[j])
    && (forall u :: u in w.records <==> u in w.started)
    && (forall u | u in w.records :: RecordOk(w.records[u], u))
    && (forall c | c in w.calls && w.calls[c].Waiting? :: var s := w.calls[c];
          s.awaited <= w.records.Keys && s.nodes == MarshalByType(s.op, w.sslRequired, s.shuffled))
  }

  /** How a record may change: it settles at most once, and only an answered ping gives it a latency. */
  ghost predicate Evolves(a: PingRecord, b: PingRecord) {
    && a.node == b.node
    && (!a.state.Pending? ==> a == b)
    && (a.latency.Some? ==> a.latency == b.latency && !b.state.Rejected?)
  }

  ghost predicate Later(w: World, v: World) {
    && w.started <= v.started
    && forall u | u in w.records :: u in v.records && Evolves(w.records[u], v.records[u])
  }

  /** Enqueueing `nodes` in `w` gave `v`: their URLs are recorded now, and nothing else happened. */
  ghost predicate Enqueued(w: World, nodes: seq<RouterNode>, v: World) {
    && Inv(v) && w.started <= v.started
    && v == w.(records := v.records, started := v.started)
    && (forall u | u in w.records :: u in v.records && v.records[u] == w.records[u])
    && (forall n | n in nodes :: n.httpUrl in v.records)
    && (forall u | u in v.records && u !in w.records ::
          v.records[u].state.Pending? && v.records[u].latency == None && exists n :: n in nodes && n.httpUrl == u)
  }

  lemma EnqueueKeeps(w: World, node: RouterNode)
    requires Inv(w)
    ensures Enqueued(w, [node], Enqueue(w, node))
  {
    hide MarshalByType;
    assert node in [node];
  }

  lemma EnqueuedTwice(w: World, a: seq<RouterNode>, v: World, b: seq<RouterNode>, x: World)
    requires Enqueued(w, a, v) && Enqueued(v, b, x)
    ensures Enqueued(w, a + b, x)
  {
    hide Inv;
  }

  lemma {:induction false} EnqueueAllKeeps(w: World, nodes: seq<RouterNode>)
    requires Inv(w)
    ensures Enqueued(w, nodes, EnqueueAll(w, nodes))
    decreases |nodes|
  {
    hide Enqueue;
    if nodes != [] {
      var w1 := Enqueue(w, nodes[0]);
      EnqueueKeeps(w, nodes[0]);
      EnqueueAllKeeps(w1, nodes[1..]);
      EnqueuedTwice(w, [nodes[0]], w1, nodes[1..], EnqueueAll(w1, nodes[1..]));
      assert nodes == [nodes[0]] + nodes[1..];
    }
  }

  lemma PlanKeeps(w: World, call: nat, op: Operation, shuffled: seq<RouterNode>, pinged: seq<RouterNode>)
    requires Inv(w)
    ensures Inv(Planned(w, call, op, shuffled, pinged)) && Later(w, Planned(w, call, op, shuffled, pinged))
  {
    hide MarshalByType, NotPinged, Take, EnqueueAll, RecordOk, Evolves;
    var notPinged := NotPinged(w.records, MarshalByType(op, w.sslRequired, shuffled));
    var nodes := pinged + Take(notPinged, PING_THRESHOLD - |pinged|);
    EnqueueAllKeeps(w, nodes);
    EnqueuedLater(w, nodes, EnqueueAll(w, nodes));
  }

  lemma PingKeeps(w: World, url: string, r: PingRecord)
    requires Inv(w) && url in w.records && RecordOk(r, url) && Evolves(w.records[url], r)
    ensures var v := w.(records := w.records[url := r]); Inv(v) && Later(w, v)
  {}

  lemma BeginKeeps(w: World, call: nat, stage: Stage)
    requires Inv(w) && !stage.Waiting?
    ensures var v := w.(calls := w.calls[call := stage]); Inv(v) && Later(w, v)
  {}

  lemma TimersKeep(w: World, timers: seq<seq<RouterNode>>)
    requires Inv(w)
    ensures var v := w.(timers := timers); Inv(v) && Later(w, v)
  {}

  lemma LaterTrans(w: World, v: World, x: World)
    requires Later(w, v) && Later(v, x)
    ensures Later(w, x)
  {}

  lemma EnqueuedLater(w: World, nodes: seq<RouterNode>, v: World)
    requires Enqueued(w, nodes, v)
    ensures Later(w, v)
  {}

  lemma StepKeeps(w: World, e: Event)
    requires Inv(w)
    ensures Inv(Step(w, e)) && Later(w, Step(w, e))
  {
    hide Inv, Later, EnqueueAll, MarshalByType, PingedNodes, Planned, Sort;
    var v := Step(w, e);
    TimersKeep(w, w.timers);
    match e
    case Plan(call) =>
      if call in w.calls && w.calls[call].Counted? {
        PlanKeeps(w, call, w.calls[call].op, w.calls[call].shuffled, w.calls[call].pinged);
      }
    case TimerFires(i) =>
      if i < |w.timers| {
        var x := EnqueueAll(w, w.timers[i]);
        EnqueueAllKeeps(w, w.timers[i]);
        EnqueuedLater(w, w.timers[i], x);
        TimersKeep(x, v.timers);
        LaterTrans(w, x, v);
      }
    case Begin(call, _, _) =>
      if v != w {
        BeginKeeps(w, call, v.calls[call]);
      }
    case Return(call) =>
      if v != w {
        var x := w.(calls := v.calls);
        BeginKeeps(w, call, v.calls[call]);
        TimersKeep(x, v.timers);
        LaterTrans(w, x, v);
      }
    case PingAnswers(url, _) =>
      if v != w {
        RecordsOk(w);
        PingKeeps(w, url, v.records[url]);
      }
    case PingResolves(url) =>
      if v != w {
        RecordsOk(w);
        PingKeeps(w, url, v.records[url]);
      }
    case PingRejects(url) =>
      if v != w {
        RecordsOk(w);
        PingKeeps(w, url, v.records[url]);
      }
  }

  lemma RecordsOk(w: World)
    requires Inv(w)
    ensures forall u | u in w.records :: RecordOk(w.records[u], u)
  {}

  /** Over any interleaving: no URL is pinged twice, no record is lost, and none changes its mind. */
  lemma {:induction false} RunKeeps(w: World, es: seq<Event>)
    requires Inv(w)
    ensures Inv(Run(w, es)) && Later(w, Run(w, es))
    decreases |es|
  {
    if es != [] {
      StepKeeps(w, es[0]);
      RunKeeps(Step(w, es[0]), es[1..]);
    }
  }

  // ---- How many pings a call makes sure of ----

  ghost predicate DistinctUrls(s: seq<RouterNode>) { forall i, j | 0 <= i < j < |s| :: s[i].httpUrl != s[j].httpUrl }

  lemma {:induction false} OnceEach(s: seq<RouterNode>, x: RouterNode)
    requires DistinctUrls(s)
    ensures multiset(s)[x] <= 1
    decreases |s|
  {
    if s != [] {
      OnceEach(s[1..], x);
      assert s == [s[0]] + s[1..];
      assert s[0] == x ==> x !in s[1..];
    }
  }

  lemma {:induction false} TwiceIn(s: seq<RouterNode>, i: nat, j: nat)
    requires i < j < |s| && s[i] == s[j]
    ensures multiset(s)[s[i]] >= 2
  {
    assert s == s[..j] + [s[j]] + s[j + 1..];
    assert s[i] in s[..j];
  }

  lemma DistinctPermuted(s: seq<RouterNode>, t: seq<RouterNode>)
    requires DistinctUrls(s) && multiset(t) == multiset(s)
    ensures DistinctUrls(t)
  {
    forall i, j | 0 <= i < j < |t| ensures t[i].httpUrl != t[j].httpUrl {
      assert t[i] in multiset(t) && t[j] in multiset(t);
      var a :| 0 <= a < |s| && s[a] == t[i];
      var b :| 0 <= b < |s| && s[b] == t[j];
      if t[i] == t[j] {
        TwiceIn(t, i, j);
        OnceEach(s, t[i]);
      }
    }
  }

  lemma {:induction false} DistinctFiltered(s: seq<RouterNode>, p: RouterNode -> bool)
    requires DistinctUrls(s)
    ensures DistinctUrls(Filter(s, p))
    decreases |s|
  {
    if s != [] {
      DistinctFiltered(s[1..], p);
      FilterIn(s[1..], p);
      var rest := Filter(s[1..], p);
      forall j | 0 <= j < |rest| ensures s[0].httpUrl != rest[j].httpUrl {
        assert rest[j] in rest;
      }
    }
  }

  function Urls(s: seq<RouterNode>): set<string> { set n | n in s :: n.httpUrl }

  lemma {:induction false} UrlCount(s: seq<RouterNode>)
    requires DistinctUrls(s)
    ensures |Urls(s)| == |s|
    decreases |s|
  {
    if s != [] {
      UrlCount(s[1..]);
      assert s == [s[0]] + s[1..];
      assert Urls(s) == {s[0].httpUrl} + Urls(s[1..]);
      assert s[0].httpUrl !in Urls(s[1..]);
    }
  }

  lemma {:induction false} PingedRecorded(records: Records, order: seq<string>, n: RouterNode)
    requires n in PingedNodes(records, order) && forall u | u in records :: RecordOk(records[u], u)
    ensures n.httpUrl in records
    decreases |order|
  {
    if !(order[0] in records && !records[order[0]].state.Rejected? && records[order[0]].node == n) {
      PingedRecorded(records, order[1..], n);
    }
  }

  lemma MarshalByTypeIn(op: Operation, sslRequired: bool, nodes: seq<RouterNode>, n: RouterNode)
    ensures n in MarshalByType(op, sslRequired, nodes) <==> n in nodes && Applicable(op, sslRequired, n)
  {
    var s := ApplicableNodes(op, sslRequired, nodes);
    SortIsStable(s, PriorityKey(op));
    FilterIn(nodes, (node: RouterNode) => Applicable(op, sslRequired, node));
    assert n in MarshalByType(op, sslRequired, nodes) <==> n in multiset(MarshalByType(op, sslRequired, nodes));
    assert n in s <==> n in multiset(s);
  }

  /** The pinged nodes that a call of `op` counts. */
  function CountedNodes(w: World, op: Operation): seq<RouterNode> {
    MarshalByType(op, w.sslRequired, PingedNodes(w.records, w.started))
  }

  /** The applicable nodes without a record. */
  function MissingNodes(w: World, op: Operation, shuffled: seq<RouterNode>): seq<RouterNode> {
    NotPinged(w.records, MarshalByType(op, w.sslRequired, shuffled))
  }

  /** Those of them that a call pings at once. */
  function NewNodes(w: World, op: Operation, shuffled: seq<RouterNode>): seq<RouterNode> {
    Take(MissingNodes(w, op, shuffled), PING_THRESHOLD - |CountedNodes(w, op)|)
  }

  ghost predicate AllRecorded(records: Records, op: Operation, sslRequired: bool, shuffled: seq<RouterNode>) {
    forall n | n in shuffled && Serves(op, sslRequired, n) :: n.httpUrl in records
  }

  /** The pings of `urls` were started, save where there was a record, and nothing else was done. */
  ghost predicate StartedOnly(before: Records, urls: set<string>, after: Records) {
    && after.Keys == before.Keys + urls
    && (forall u | u in before :: after[u] == before[u])
    && (forall u | u in after && u !in before :: after[u].state.Pending?)
  }

  /** What a call that is not interrupted starts. */
  lemma Uninterrupted(w: World, call: nat, op: Operation, shuffled: seq<RouterNode>)
    requires Inv(w) && call !in w.calls
    ensures var v := Step(Step(w, Begin(call, op, shuffled)), Plan(call));
      && call in v.calls && v.calls[call].Waiting?
      && v.calls[call].awaited == Urls(NewNodes(w, op, shuffled)) - w.records.Keys
      && StartedOnly(w.records, Urls(NewNodes(w, op, shuffled)), v.records)
  {
    hide Inv, MarshalByType, PingedNodes, EnqueueAll, NotPinged, Take, Urls, StartedOnly;
    StepKeeps(w, Begin(call, op, shuffled));
    PingedHaveRecords(w, op);
    UrlsEnqueued(Step(w, Begin(call, op, shuffled)), CountedNodes(w, op), NewNodes(w, op, shuffled));
  }

  lemma UrlsEnqueued(w: World, pinged: seq<RouterNode>, toPing: seq<RouterNode>)
    requires Inv(w) && forall n | n in pinged :: n.httpUrl in w.records
    ensures var v := EnqueueAll(w, pinged + toPing);
      && StartedOnly(w.records, Urls(toPing), v.records)
      && v.records.Keys - w.records.Keys == Urls(toPing) - w.records.Keys
  {
    hide Inv, EnqueueAll;
    EnqueueAllKeeps(w, pinged + toPing);
    assert forall n | n in toPing :: n in pinged + toPing;
  }

  /**
   Pings already under way are counted, but not awaited. A call that is not interrupted returns without waiting for
   anything if and only if enough pinged nodes are counted or every applicable node has a record, whether or not
   those pings have settled; then it leaves all records as they were.
   */
  lemma ReturnsAtOnceIff(w: World, call: nat, op: Operation, shuffled: seq<RouterNode>)
    requires Inv(w) && call !in w.calls
    ensures var v := Step(Step(Step(w, Begin(call, op, shuffled)), Plan(call)), Return(call));
      && call in v.calls
      && (v.calls[call].Returned? <==>
           |CountedNodes(w, op)| >= 10 || AllRecorded(w.records, op, w.sslRequired, shuffled))
      && (v.calls[call].Returned? ==> v.records == w.records)
  {
    hide Inv, CountedNodes, MissingNodes, NewNodes, Planned, Sort, LatenciesOf, AllRecorded;
    var urls := Urls(NewNodes(w, op, shuffled));
    var x := Step(Step(w, Begin(call, op, shuffled)), Plan(call));
    Uninterrupted(w, call, op, shuffled);
    NothingNew(w, op, shuffled);
    if urls != {} {
      var u :| u in urls && u !in w.records;
      assert u in x.calls[call].awaited && u in x.records.Keys && x.records[u].state.Pending?;
    }
    assert urls == {} ==> x.records == w.records;
  }

  lemma NothingNew(w: World, op: Operation, shuffled: seq<RouterNode>)
    ensures var urls := Urls(NewNodes(w, op, shuffled));
      && (urls == {} || exists u :: u in urls && u !in w.records)
      && (urls == {} <==>
           |CountedNodes(w, op)| >= 10 || AllRecorded(w.records, op, w.sslRequired, shuffled))
  {
    hide CountedNodes, MissingNodes, Serves;
    var toPing := NewNodes(w, op, shuffled);
    var missing := MissingNodes(w, op, shuffled);
    MissingIn(w, op, shuffled);
    assert toPing == [] <==> |CountedNodes(w, op)| >= 10 || missing == [];
    assert toPing != [] ==> toPing[0] in missing && toPing[0].httpUrl in Urls(toPing);
    assert missing != [] ==> missing[0] in missing;
  }

  lemma MissingIn(w: World, op: Operation, shuffled: seq<RouterNode>)
    ensures forall n ::
      (n in MissingNodes(w, op, shuffled)
       <==> n in shuffled && Serves(op, w.sslRequired, n) && n.httpUrl !in w.records)
  {
    hide MarshalByType, Filter;
    FilterIn(MarshalByType(op, w.sslRequired, shuffled), (node: RouterNode) => node.httpUrl !in w.records);
    forall n
      ensures n in MissingNodes(w, op, shuffled)
         <==> n in shuffled && Serves(op, w.sslRequired, n) && n.httpUrl !in w.records
    {
      MarshalByTypeIn(op, w.sslRequired, shuffled, n);
      ServesIff(op, w.sslRequired, n);
    }
  }

  /**
   When no other event falls in between, and no two nodes share a URL, the pings a call found and those it starts
   reach the threshold, unless every applicable node has a record by then.
   */
  lemma ThresholdReached(w: World, call: nat, op: Operation, shuffled: seq<RouterNode>)
    requires Inv(w) && call !in w.calls && DistinctUrls(shuffled)
    ensures var v := Step(Step(w, Begin(call, op, shuffled)), Plan(call));
      && call in v.calls && v.calls[call].Waiting?
      && (|CountedNodes(w, op)| + |v.calls[call].awaited| >= 10
          || AllRecorded(v.records, op, w.sslRequired, shuffled))
  {
    hide Inv, Step, CountedNodes, MissingNodes, NewNodes, DistinctUrls, Serves, Urls;
    Uninterrupted(w, call, op, shuffled);
    NewPings(w, op, shuffled);
    EveryoneRecorded(w, op, shuffled);
  }

  lemma EveryoneRecorded(w: World, op: Operation, shuffled: seq<RouterNode>)
    ensures forall n | n in shuffled && Serves(op, w.sslRequired, n) ::
      n.httpUrl in w.records.Keys + Urls(MissingNodes(w, op, shuffled))
  {
    hide MissingNodes, Serves;
    MissingIn(w, op, shuffled);
  }

  lemma PingedHaveRecords(w: World, op: Operation)
    requires Inv(w)
    ensures forall n | n in CountedNodes(w, op) :: n.httpUrl in w.records
  {
    forall n | n in CountedNodes(w, op) ensures n.httpUrl in w.records {
      MarshalByTypeIn(op, w.sslRequired, PingedNodes(w.records, w.started), n);
      PingedRecorded(w.records, w.started, n);
    }
  }

  /** The nodes a call picks to ping have distinct URLs without a record. */
  lemma NewPings(w: World, op: Operation, shuffled: seq<RouterNode>)
    requires DistinctUrls(shuffled)
    ensures var toPing := NewNodes(w, op, shuffled);
      && |Urls(toPing) - w.records.Keys| == |toPing|
      && (toPing == MissingNodes(w, op, shuffled) || |CountedNodes(w, op)| + |toPing| >= 10)
  {
    hide MarshalByType, Filter, CountedNodes, Urls;
    var all := MarshalByType(op, w.sslRequired, shuffled);
    MarshalDistinct(op, w.sslRequired, shuffled);
    DistinctFiltered(all, (node: RouterNode) => node.httpUrl !in w.records);
    FilterIn(all, (node: RouterNode) => node.httpUrl !in w.records);
    UrlsNew(MissingNodes(w, op, shuffled), NewNodes(w, op, shuffled), w.records.Keys);
  }

  lemma UrlsNew(missing: seq<RouterNode>, toPing: seq<RouterNode>, recorded: set<string>)
    requires toPing <= missing && DistinctUrls(missing) && forall n | n in missing :: n.httpUrl !in recorded
    ensures |Urls(toPing) - recorded| == |toPing|
  {
    UrlCount(toPing);
    assert forall n | n in toPing :: n in missing;
    assert Urls(toPing) - recorded == Urls(toPing);
  }

  lemma MarshalDistinct(op: Operation, sslRequired: bool, shuffled: seq<RouterNode>)
    requires DistinctUrls(shuffled)
    ensures DistinctUrls(MarshalByType(op, sslRequired, shuffled))
  {
    var s := ApplicableNodes(op, sslRequired, shuffled);
    DistinctFiltered(shuffled, (node: RouterNode) => Applicable(op, sslRequired, node));
    SortIsStable(s, PriorityKey(op));
    hide DistinctUrls, Sort;
    DistinctPermuted(s, MarshalByType(op, sslRequired, shuffled));
  }

  // ---- The strategy object ----

  /** The object the calls share. Each method is what one call, timer or ping does between two `await`s. */
  class PingCache {
    const sslRequired: bool
    var nodesMap: Records
    var started: seq<string>
    var calls: map<nat, Stage>
    var timers: seq<seq<RouterNode>>

    ghost function Now(): World
      reads this
    {
      World(sslRequired, nodesMap, started, calls, timers)
    }

    constructor (sslRequired: bool)
      ensures Inv(Now()) && Now() == World(sslRequired, map[], [], map[], [])
    {
      this.sslRequired := sslRequired;
      nodesMap, started, calls, timers := map[], [], map[], [];
    }

    method EnqueuePing(node: RouterNode)
      modifies this`nodesMap, this`started
      ensures Now() == Enqueue(old(Now()), node)
      ensures node.httpUrl in old(nodesMap) ==> nodesMap == old(nodesMap) && started == old(started)
      ensures node.httpUrl !in old(nodesMap) ==>
        && nodesMap == old(nodesMap)[node.httpUrl := PingRecord(node, Pending, None)]
        && started == old(started) + [node.httpUrl]
    {
      if node.httpUrl in nodesMap {
        return;
      }
      nodesMap := nodesMap[node.httpUrl := PingRecord(node, Pending, None)];
      started := started + [node.httpUrl];
    }

    method EnqueuePings(nodes: seq<RouterNode>)
      modifies this`nodesMap, this`started
      ensures Now() == EnqueueAll(old(Now()), nodes)
    {
      var i := 0;
      while i < |nodes|
        invariant i <= |nodes| && calls == old(calls) && timers == old(timers)
        invariant EnqueueAll(Now(), nodes[i..]) == EnqueueAll(old(Now()), nodes)
      {
        assert nodes[i..][1..] == nodes[i + 1..];
        EnqueuePing(nodes[i]);
        i := i + 1;
      }
    }

    method BeginMarshal(call: nat, op: Operation, shuffled: seq<RouterNode>)
      requires call !in calls
      modifies this
      ensures Now() == Step(old(Now()), Begin(call, op, shuffled))
    {
      var pinged := MarshalByType(op, sslRequired, PingedNodes(nodesMap, started));
      calls := calls[call := Counted(op, shuffled, pinged)];
    }

    method PlanPings(call: nat)
      requires call in calls && calls[call].Counted?
      modifies this
      ensures Now() == Step(old(Now()), Plan(call))
    {
      hide MarshalByType, NotPinged, EnqueueAll;
      var s := calls[call];
      var all := MarshalByType(s.op, sslRequired, s.shuffled);
      var notPinged := NotPinged(nodesMap, all);
      var toPingSync := Take(notPinged, PING_THRESHOLD - |s.pinged|);
      var toPingAsync := Take(notPinged, PING_THRESHOLD_INC);
      var before := nodesMap.Keys;
      EnqueuePings(s.pinged + toPingSync);
      calls := calls[call := Waiting(s.op, s.shuffled, all, nodesMap.Keys - before, toPingAsync)];
    }

    method ReturnNodes(call: nat) returns (nodes: seq<RouterNode>)
      requires call in calls && calls[call].Waiting? && Settled(nodesMap, calls[call].awaited)
      modifies this
      ensures Now() == Step(old(Now()), Return(call)) && calls[call] == Returned(nodes)
      ensures timers == old(timers) + [old(calls)[call].background] && nodesMap == old(nodesMap)
      ensures old(Inv(Now())) ==>
        var s := old(calls)[call]; Marshalled(s.op, sslRequired, s.shuffled, LatenciesOf(nodesMap), nodes)
    {
      ghost var marshalled := old(calls)[call];
      if Inv(Now()) {
        MarshalOrder(marshalled.op, sslRequired, marshalled.shuffled, LatenciesOf(nodesMap));
      }
      hide Sort, Marshalled, MarshalByType, LatenciesOf;
      var s := calls[call];
      timers := timers + [s.background];
      nodes := Sort(s.nodes, LatencyKey(LatenciesOf(nodesMap)));
      calls := calls[call := Returned(nodes)];
    }

    method TimerFired(timer: nat)
      requires timer < |timers|
      modifies this
      ensures Now() == Step(old(Now()), TimerFires(timer))
      ensures timers == old(timers)[..timer] + old(timers)[timer + 1..] && calls == old(calls)
    {
      EnqueuePings(timers[timer]);
      ghost var v := EnqueueAll(old(Now()), old(timers[timer]));
      timers := timers[..timer] + timers[timer + 1..];
    }

    /** `ping`: the latency is assigned when the answer is there, and the promise settles one step later. */
    method PingAnswered(url: string, latency: nat)
      requires url in nodesMap && nodesMap[url].state.Pending? && nodesMap[url].latency == None
      modifies this`nodesMap
      ensures Now() == Step(old(Now()), PingAnswers(url, latency))
      ensures nodesMap == old(nodesMap)[url := PingRecord(old(nodesMap)[url].node, Pending, Some(latency))]
    {
      nodesMap := nodesMap[url := nodesMap[url].(latency := Some(latency))];
    }

    method PingResolved(url: string)
      requires url in nodesMap && nodesMap[url].state.Pending? && nodesMap[url].latency.Some?
      modifies this`nodesMap
      ensures Now() == Step(old(Now()), PingResolves(url))
      ensures var r := old(nodesMap)[url]; nodesMap == old(nodesMap)[url := PingRecord(r.node, Resolved, r.latency)]
    {
      nodesMap := nodesMap[url := nodesMap[url].(state := Resolved)];
    }

    method PingRejected(url: string)
      requires url in nodesMap && nodesMap[url].state.Pending? && nodesMap[url].latency == None
      modifies this`nodesMap
      ensures Now() == Step(old(Now()), PingRejects(url))
      ensures nodesMap == old(nodesMap)[url := PingRecord(old(nodesMap)[url].node, Rejected, None)]
    {
      nodesMap := nodesMap[url := nodesMap[url].(state := Rejected)];
    }
  }
}
