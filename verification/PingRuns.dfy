/** What a call of `marshalNodes` can rely on when it has returned, over whole runs of the shared ping cache. */
module PingRuns {
  import opened Options
  import opened PingStrategy
  import opened Routing
  import opened StableSort

  /** The world before anything happened. */
  function Empty(sslRequired: bool): World { World(sslRequired, map[], [], map[], []) }

  /** The world after the first `n` events. */
  function After(sslRequired: bool, es: seq<Event>, n: nat): World
    requires n <= |es|
  {
    Run(Empty(sslRequired), es[..n])
  }

  lemma {:induction false} RunConcat(w: World, es: seq<Event>, fs: seq<Event>)
    ensures Run(w, es + fs) == Run(Run(w, es), fs)
    decreases |es|
  {
    hide Step;
    if es == [] {
      assert es + fs == fs;
    } else {
      assert (es + fs)[0] == es[0] && (es + fs)[1..] == es[1..] + fs;
      RunConcat(Step(w, es[0]), es[1..], fs);
    }
  }

  lemma AfterNext(sslRequired: bool, es: seq<Event>, n: nat)
    requires n < |es|
    ensures After(sslRequired, es, n + 1) == Step(After(sslRequired, es, n), es[n])
  {
    hide Step;
    var e := [es[n]];
    assert es[..n + 1] == es[..n] + e;
    RunConcat(Empty(sslRequired), es[..n], e);
    assert Run(After(sslRequired, es, n), e) == Run(Step(After(sslRequired, es, n), e[0]), []);
  }

  lemma AfterOk(sslRequired: bool, es: seq<Event>, n: nat)
    requires n <= |es|
    ensures Inv(After(sslRequired, es, n)) && After(sslRequired, es, n).sslRequired == sslRequired
  {
    hide Run;
    RunKeeps(Empty(sslRequired), es[..n]);
    SameSsl(Empty(sslRequired), es[..n]);
  }

  lemma {:induction false} SameSsl(w: World, es: seq<Event>)
    ensures Run(w, es).sslRequired == w.sslRequired
    decreases |es|
  {
    if es != [] {
      StepSsl(w, es[0]);
      SameSsl(Step(w, es[0]), es[1..]);
    }
  }

  lemma StepSsl(w: World, e: Event)
    ensures Step(w, e).sslRequired == w.sslRequired
  {
    hide MarshalByType, PingedNodes, Planned, Sort;
    match e
    case Plan(call) =>
      if call in w.calls && w.calls[call].Counted? {
        PlannedSsl(w, call, w.calls[call].op, w.calls[call].shuffled, w.calls[call].pinged);
      }
    case TimerFires(i) =>
      if i < |w.timers| {
        EnqueueAllSsl(w, w.timers[i]);
      }
    case _ =>
  }

  lemma {:induction false} EnqueueAllSsl(w: World, nodes: seq<RouterNode>)
    ensures EnqueueAll(w, nodes).sslRequired == w.sslRequired && EnqueueAll(w, nodes).calls == w.calls
    decreases |nodes|
  {
    if nodes != [] {
      EnqueueAllSsl(Enqueue(w, nodes[0]), nodes[1..]);
    }
  }

  lemma PlannedSsl(w: World, call: nat, op: Operation, shuffled: seq<RouterNode>, pinged: seq<RouterNode>)
    ensures var v := Planned(w, call, op, shuffled, pinged);
      && v.sslRequired == w.sslRequired && call in v.calls && v.calls == w.calls[call := v.calls[call]]
      && v.calls[call].Waiting? && v.calls[call].op == op && v.calls[call].shuffled == shuffled
      && v.calls[call].awaited == v.records.Keys - w.records.Keys
  {
    hide MarshalByType, NotPinged, Take, EnqueueAll;
    var notPinged := NotPinged(w.records, MarshalByType(op, w.sslRequired, shuffled));
    EnqueueAllSsl(w, pinged + Take(notPinged, PING_THRESHOLD - |pinged|));
  }

  /** The stage of a call changes by its own events only, and one at a time. */
  lemma StageStep(w: World, e: Event, call: nat)
    requires call in Step(w, e).calls && !(call in w.calls && w.calls[call] == Step(w, e).calls[call])
    ensures match Step(w, e).calls[call]
      case Counted(op, shuffled, _) => call !in w.calls && e == Begin(call, op, shuffled)
      case Waiting(op, shuffled, _, awaited, _) =>
        && e == Plan(call) && call in w.calls && w.calls[call].Counted?
        && w.calls[call].op == op && w.calls[call].shuffled == shuffled
        && awaited == Step(w, e).records.Keys - w.records.Keys
      case Returned(nodes) =>
        && e == Return(call) && call in w.calls && w.calls[call].Waiting? && Settled(w.records, w.calls[call].awaited)
        && nodes == Sort(w.calls[call].nodes, LatencyKey(LatenciesOf(w.records)))
  {
    hide MarshalByType, PingedNodes, Planned, Sort, LatenciesOf, EnqueueAll;
    match e
    case Plan(other) =>
      if other in w.calls && w.calls[other].Counted? {
        PlannedSsl(w, other, w.calls[other].op, w.calls[other].shuffled, w.calls[other].pinged);
      }
    case TimerFires(i) =>
      if i < |w.timers| {
        EnqueueAllSsl(w, w.timers[i]);
      }
    case _ =>
  }

  /** When a call got where it is: the number of the event. */
  lemma {:induction false} StageSince(sslRequired: bool, es: seq<Event>, n: nat, call: nat) returns (i: nat)
    requires n <= |es| && call in After(sslRequired, es, n).calls
    ensures i < n && call in After(sslRequired, es, i + 1).calls
    ensures After(sslRequired, es, i + 1).calls[call] == After(sslRequired, es, n).calls[call]
    ensures !(call in After(sslRequired, es, i).calls
              && After(sslRequired, es, i).calls[call] == After(sslRequired, es, n).calls[call])
    decreases n
  {
    hide Run, Step;
    assert n > 0 by {
      NoCalls(sslRequired, es);
    }
    var before := After(sslRequired, es, n - 1);
    if call in before.calls && before.calls[call] == After(sslRequired, es, n).calls[call] {
      i := StageSince(sslRequired, es, n - 1, call);
    } else {
      i := n - 1;
    }
  }

  lemma NoCalls(sslRequired: bool, es: seq<Event>)
    ensures After(sslRequired, es, 0).calls == map[] && After(sslRequired, es, 0).records == map[]
  {}

  /**
   Over any interleaving from the empty cache: behind a returned call lie its beginning, its planning and its return,
   in this order. Every ping it started has settled by then, and what it returns are the nodes it was given that are
   applicable, by latency group and priority for the latencies recorded when it returned.
   */
  lemma ReturnedCall(sslRequired: bool, es: seq<Event>, call: nat)
    returns (i: nat, j: nat, k: nat, op: Operation, shuffled: seq<RouterNode>)
    requires var w := Run(Empty(sslRequired), es); call in w.calls && w.calls[call].Returned?
    ensures i < j < k < |es| && es[i] == Begin(call, op, shuffled) && es[j] == Plan(call) && es[k] == Return(call)
    ensures var records := After(sslRequired, es, k).records;
      var started := After(sslRequired, es, j + 1).records.Keys - After(sslRequired, es, j).records.Keys;
      var nodes := Run(Empty(sslRequired), es).calls[call].nodes;
      && (forall u | u in started :: u in records && !records[u].state.Pending?)
      && Marshalled(op, sslRequired, shuffled, LatenciesOf(records), nodes)
      && (forall u :: u in LatenciesOf(records) <==> u in records && records[u].latency.Some?)
      && (forall u | u in LatenciesOf(records) :: records[u].latency == Some(LatenciesOf(records)[u]))
  {
    hide Run, Step, Inv, MarshalByType, Sort, Marshalled, LatenciesOf;
    assert es[..|es|] == es;
    k := StageSince(sslRequired, es, |es|, call);
    AfterNext(sslRequired, es, k);
    StageStep(After(sslRequired, es, k), es[k], call);
    j := StageSince(sslRequired, es, k, call);
    AfterNext(sslRequired, es, j);
    StageStep(After(sslRequired, es, j), es[j], call);
    i := StageSince(sslRequired, es, j, call);
    AfterNext(sslRequired, es, i);
    StageStep(After(sslRequired, es, i), es[i], call);
    var w := After(sslRequired, es, k);
    op, shuffled := w.calls[call].op, w.calls[call].shuffled;
    AfterOk(sslRequired, es, k);
    WaitingOk(w, call);
    MarshalOrder(op, sslRequired, shuffled, LatenciesOf(w.records));
    LatenciesAre(w.records);
  }

  lemma LatenciesAre(records: Records)
    ensures forall u :: u in LatenciesOf(records) <==> u in records && records[u].latency.Some?
    ensures forall u | u in LatenciesOf(records) :: records[u].latency == Some(LatenciesOf(records)[u])
  {}

  /** How an event changes a record: it appears pending, or its ping is answered, resolved or rejected. */
  ghost predicate RecordChanges(before: Records, e: Event, url: string, r: PingRecord) {
    || (url !in before && r.state.Pending? && r.latency == None)
    || (url in before && e == PingRejects(url) && r == before[url].(state := Rejected))
    || (url in before && e == PingResolves(url) && r == before[url].(state := Resolved))
    || (url in before && r.latency.Some? && e == PingAnswers(url, r.latency.value)
        && r == before[url].(latency := r.latency))
  }

  lemma RecordStep(w: World, e: Event, url: string)
    requires Inv(w) && url in Step(w, e).records
    ensures var r := Step(w, e).records[url];
      (url in w.records && w.records[url] == r) || RecordChanges(w.records, e, url, r)
  {
    hide Inv, MarshalByType, PingedNodes, NotPinged, Take, EnqueueAll, Sort, LatenciesOf;
    match e
    case Plan(call) =>
      if call in w.calls && w.calls[call].Counted? {
        var s := w.calls[call];
        EnqueueAllKeeps(w, s.pinged + Take(NotPinged(w.records, MarshalByType(s.op, w.sslRequired, s.shuffled)),
                                           PING_THRESHOLD - |s.pinged|));
      }
    case TimerFires(i) =>
      if i < |w.timers| {
        EnqueueAllKeeps(w, w.timers[i]);
      }
    case _ =>
  }

  /** Behind a latency lies the answer that had it, and behind a settled ping the event that settled it. */
  lemma {:induction false} RecordSince(sslRequired: bool, es: seq<Event>, n: nat, url: string)
    requires n <= |es| && url in After(sslRequired, es, n).records
    ensures var r := After(sslRequired, es, n).records[url];
      && (r.latency.Some? ==> PingAnswers(url, r.latency.value) in es[..n])
      && (r.state == Resolved ==> PingResolves(url) in es[..n])
      && (r.state == Rejected ==> PingRejects(url) in es[..n])
    decreases n
  {
    hide Run, Step, Inv;
    if n == 0 {
      NoCalls(sslRequired, es);
    } else {
      var before := After(sslRequired, es, n - 1);
      AfterNext(sslRequired, es, n - 1);
      AfterOk(sslRequired, es, n - 1);
      RecordStep(before, es[n - 1], url);
      assert es[..n] == es[..n - 1] + [es[n - 1]];
      if url in before.records {
        RecordSince(sslRequired, es, n - 1, url);
      }
    }
  }

  /** What a waiting call waits for has records, and it sorted its applicable nodes by priority. */
  lemma WaitingOk(w: World, call: nat)
    requires Inv(w) && call in w.calls && w.calls[call].Waiting?
    ensures var s := w.calls[call];
      s.awaited <= w.records.Keys && s.nodes == MarshalByType(s.op, w.sslRequired, s.shuffled)
  {}

  /**
   So a call may return while a ping it counted is under way. The first call starts the ping of the only node and
   waits; the second counts it, and returns at once.
   */
  lemma CountedPingNotAwaited(n: RouterNode, op: Operation, sslRequired: bool)
    requires Applicable(op, sslRequired, n)
    ensures var es := [Begin(0, op, [n]), Plan(0), Begin(1, op, [n]), Plan(1), Return(1)];
      var counted, w := After(sslRequired, es, 3), Run(Empty(sslRequired), es);
      && 1 in counted.calls && counted.calls[1] == Counted(op, [n], [n])
      && 1 in w.calls && w.calls[1].Returned?
      && n.httpUrl in w.records && w.records[n.httpUrl] == PingRecord(n, Pending, None)
  {
    hide Step, Inv, Run;
    var es := [Begin(0, op, [n]), Plan(0), Begin(1, op, [n]), Plan(1), Return(1)];
    var w := After(sslRequired, es, 2);
    assert es[..5] == es;
    AfterNext(sslRequired, es, 0);
    AfterNext(sslRequired, es, 1);
    AfterNext(sslRequired, es, 2);
    AfterNext(sslRequired, es, 3);
    AfterNext(sslRequired, es, 4);
    AfterOk(sslRequired, es, 2);
    FirstPing(sslRequired, es, n, op);
    FirstPingCounted(w, n, op);
    ReturnsAtOnceIff(w, 1, op, [n]);
  }

  lemma OneNode(n: RouterNode, op: Operation, sslRequired: bool)
    requires Applicable(op, sslRequired, n)
    ensures MarshalByType(op, sslRequired, [n]) == [n]
  {}

  lemma FirstPingCounted(w: World, n: RouterNode, op: Operation)
    requires Applicable(op, w.sslRequired, n) && 1 !in w.calls
    requires w.records == map[n.httpUrl := PingRecord(n, Pending, None)] && w.started == [n.httpUrl]
    ensures Step(w, Begin(1, op, [n])).calls == w.calls[1 := Counted(op, [n], [n])]
  {
    OneNode(n, op, w.sslRequired);
    assert PingedNodes(w.records, w.started) == [n] + [] == [n];
  }

  lemma FirstPing(sslRequired: bool, es: seq<Event>, n: RouterNode, op: Operation)
    requires Applicable(op, sslRequired, n) && |es| >= 2 && es[..2] == [Begin(0, op, [n]), Plan(0)]
    ensures var w := After(sslRequired, es, 2);
      && w.records == map[n.httpUrl := PingRecord(n, Pending, None)] && w.started == [n.httpUrl] && 1 !in w.calls
  {
    var w0 := Empty(sslRequired);
    var w1 := Step(w0, es[0]);
    assert es[..2][0] == es[0] && es[..2][1] == es[1];
    AfterNext(sslRequired, es, 0);
    AfterNext(sslRequired, es, 1);
    assert After(sslRequired, es, 2) == Step(w1, es[1]);
    OneNode(n, op, sslRequired);
    assert MarshalByType(op, sslRequired, PingedNodes(w0.records, w0.started)) == [];
    assert NotPinged(w1.records, [n]) == [n];
    assert Take([n], PING_THRESHOLD) == [n];
    assert [] + [n] == [n];
    assert EnqueueAll(w1, [n]) == Enqueue(w1, n);
  }
}
