/** How a node is chosen: which nodes apply to an operation, in what order, and which of them is taken. */
module Routing {
  import opened Options
  import opened StableSort

  const PING_LATENCY_GROUP: nat := 100

  datatype Mode = Full | Storage | Cache

  datatype Operation = ReadDagNode | StoreDagNode | ReadPiece | StorePiece | ReadCnsRecord | StoreCnsRecord

  datatype RouterNode = RouterNode(
    nodeId: string, grpcUrl: string, httpUrl: string, mode: Mode, ssl: bool, priority: Option<int>)

  predicate Reads(op: Operation) { op.ReadDagNode? || op.ReadPiece? || op.ReadCnsRecord? }

  /** `priorityMap`; a lower number is a higher priority, `None` is not applicable. */
  function PriorityMap(op: Operation, mode: Mode): Option<int> {
    match mode
    case Full => Some(1)
    case Cache => if Reads(op) then Some(1) else None
    case Storage => Some(2)
  }

  predicate Applicable(op: Operation, sslRequired: bool, node: RouterNode) {
    (sslRequired ==> node.ssl) && PriorityMap(op, node.mode).Some?
  }

  function PriorityKey(op: Operation): RouterNode -> Key {
    (node: RouterNode) =>
      Fin(if node.priority.Some? then node.priority.value
          else var p := PriorityMap(op, node.mode); if p.Some? then p.value else 0)
  }

  function Filter<T>(s: seq<T>, p: T -> bool): (r: seq<T>)
    ensures |r| <= |s|
  {
    if s == [] then [] else if p(s[0]) then [s[0]] + Filter(s[1..], p) else Filter(s[1..], p)
  }

  lemma {:induction false} FilterIn<T>(s: seq<T>, p: T -> bool)
    ensures forall x :: x in Filter(s, p) <==> x in s && p(x)
    decreases |s|
  {
    if s != [] {
      FilterIn(s[1..], p);
      assert s == [s[0]] + s[1..];
    }
  }

  lemma {:induction false} FilterNone<T>(s: seq<T>, p: T -> bool)
    requires forall x | x in s :: !p(x)
    ensures Filter(s, p) == []
    decreases |s|
  {
    if s != [] {
      FilterNone(s[1..], p);
    }
  }

  function ApplicableNodes(op: Operation, sslRequired: bool, nodes: seq<RouterNode>): seq<RouterNode> {
    Filter(nodes, (node: RouterNode) => Applicable(op, sslRequired, node))
  }

  /** `NodeTypeStrategy.marshalNodes`. */
  function MarshalByType(op: Operation, sslRequired: bool, nodes: seq<RouterNode>): seq<RouterNode> {
    Sort(ApplicableNodes(op, sslRequired, nodes), PriorityKey(op))
  }

  type Latencies = map<string, nat>

  /** The latency group of a node; no latency, like a latency of zero, counts as unknown. */
  function LatencyKey(latencies: Latencies): RouterNode -> Key {
    (node: RouterNode) =>
      if node.httpUrl in latencies && latencies[node.httpUrl] > 0
      then Fin((latencies[node.httpUrl] + PING_LATENCY_GROUP - 1) / PING_LATENCY_GROUP)
      else Infinity
  }

  /** What `PingStrategy.marshalNodes` returns for the shuffled nodes and the latencies known when it sorts. */
  function Marshal(op: Operation, sslRequired: bool, shuffled: seq<RouterNode>, latencies: Latencies): seq<RouterNode> {
    Sort(MarshalByType(op, sslRequired, shuffled), LatencyKey(latencies))
  }

  // ---- What the order is about ----

  /** Every node reads; all but caches store; and TLS is no choice where it is required. */
  predicate Serves(op: Operation, sslRequired: bool, n: RouterNode) {
    && (sslRequired ==> n.ssl)
    && (n.mode == Cache ==> op == ReadDagNode || op == ReadPiece || op == ReadCnsRecord)
  }

  predicate KnownLatency(latencies: Latencies, n: RouterNode) {
    n.httpUrl in latencies && latencies[n.httpUrl] > 0
  }

  /** The first group are latencies up to 100 ms, the next those up to 200 ms, and so on. */
  predicate InGroup(latency: nat, g: int) { 100 * (g - 1) < latency <= 100 * g }

  /** A node is as fast as another if that has no known latency, or both have one and its group is no greater. */
  ghost predicate NoSlower(latencies: Latencies, a: RouterNode, b: RouterNode) {
    KnownLatency(latencies, b) ==>
      && KnownLatency(latencies, a)
      && forall g, h | InGroup(latencies[a.httpUrl], g) && InGroup(latencies[b.httpUrl], h) :: g <= h
  }

  /** A priority is what the node says, or one for a full node or a cache and two for storage; less comes first. */
  predicate HasPriority(n: RouterNode, p: int) {
    if n.priority.Some? then p == n.priority.value else p == if n.mode == Storage then 2 else 1
  }

  /** `a` may stand before `b`: it is no slower, and of the same speed it has no worse priority. */
  ghost predicate MayPrecede(latencies: Latencies, a: RouterNode, b: RouterNode) {
    && NoSlower(latencies, a, b)
    && (NoSlower(latencies, b, a) ==> forall p, q | HasPriority(a, p) && HasPriority(b, q) :: p <= q)
  }

  lemma ServesIff(op: Operation, sslRequired: bool, n: RouterNode)
    ensures Applicable(op, sslRequired, n) <==> Serves(op, sslRequired, n)
  {}

  lemma GroupOf(latency: nat)
    requires latency > 0
    ensures forall g :: InGroup(latency, g) <==> g == (latency + 99) / 100
  {}

  lemma NoSlowerIff(latencies: Latencies, a: RouterNode, b: RouterNode)
    ensures NoSlower(latencies, a, b) <==> Le(LatencyKey(latencies)(a), LatencyKey(latencies)(b))
  {
    hide InGroup;
    if KnownLatency(latencies, a) {
      GroupOf(latencies[a.httpUrl]);
      assert InGroup(latencies[a.httpUrl], (latencies[a.httpUrl] + 99) / 100);
    }
    if KnownLatency(latencies, b) {
      GroupOf(latencies[b.httpUrl]);
      assert InGroup(latencies[b.httpUrl], (latencies[b.httpUrl] + 99) / 100);
    }
  }

  lemma MayPrecedeIff(op: Operation, sslRequired: bool, latencies: Latencies, a: RouterNode, b: RouterNode)
    requires Serves(op, sslRequired, a) && Serves(op, sslRequired, b)
    ensures MayPrecede(latencies, a, b) <==> NoWorse(op, latencies, a, b)
  {
    hide NoSlower, LatencyKey;
    NoSlowerIff(latencies, a, b);
    NoSlowerIff(latencies, b, a);
    PriorityIs(op, sslRequired, a);
    PriorityIs(op, sslRequired, b);
    assert HasPriority(a, PriorityKey(op)(a).n) && HasPriority(b, PriorityKey(op)(b).n);
    var la, lb := LatencyKey(latencies)(a), LatencyKey(latencies)(b);
    assert Le(la, lb) && Le(lb, la) <==> la == lb;
  }

  lemma PriorityIs(op: Operation, sslRequired: bool, n: RouterNode)
    requires Serves(op, sslRequired, n)
    ensures PriorityKey(op)(n).Fin? && forall p :: HasPriority(n, p) <==> p == PriorityKey(op)(n).n
  {}

  ghost predicate NoWorse(op: Operation, latencies: Latencies, a: RouterNode, b: RouterNode) {
    var latency, priority := LatencyKey(latencies), PriorityKey(op);
    Le(latency(a), latency(b)) && (latency(a) == latency(b) ==> Le(priority(a), priority(b)))
  }

  /** The nodes that serve the operation, each as often as it was given, the faster and the preferred first. */
  ghost predicate Marshalled(op: Operation, sslRequired: bool, nodes: seq<RouterNode>, latencies: Latencies,
                             r: seq<RouterNode>)
  {
    && (forall n :: multiset(r)[n] == if Serves(op, sslRequired, n) then multiset(nodes)[n] else 0)
    && (forall i, j | 0 <= i < j < |r| :: MayPrecede(latencies, r[i], r[j]))
  }

  lemma {:induction false} FilterCount<T>(s: seq<T>, p: T -> bool, x: T)
    ensures multiset(Filter(s, p))[x] == if p(x) then multiset(s)[x] else 0
    decreases |s|
  {
    if s != [] {
      assert s == [s[0]] + s[1..];
      FilterCount(s[1..], p, x);
    }
  }

  /** What comes first, and among nodes that come to the same, the order of the shuffle. */
  lemma MarshalOrder(op: Operation, sslRequired: bool, shuffled: seq<RouterNode>, latencies: Latencies)
    ensures var s := ApplicableNodes(op, sslRequired, shuffled);
      var r := Marshal(op, sslRequired, shuffled, latencies);
      var latency, priority := LatencyKey(latencies), PriorityKey(op);
      && Marshalled(op, sslRequired, shuffled, latencies, r)
      && forall j, k :: WithKey(WithKey(r, latency, j), priority, k) == WithKey(WithKey(s, latency, j), priority, k)
  {
    hide Sort, LatencyKey, PriorityKey, MayPrecede, Applicable, Serves, WithKey;
    var r := Marshal(op, sslRequired, shuffled, latencies);
    SortTwice(ApplicableNodes(op, sslRequired, shuffled), LatencyKey(latencies), PriorityKey(op));
    forall n ensures multiset(r)[n] == if Serves(op, sslRequired, n) then multiset(shuffled)[n] else 0 {
      FilterCount(shuffled, (node: RouterNode) => Applicable(op, sslRequired, node), n);
      ServesIff(op, sslRequired, n);
    }
    forall i, j | 0 <= i < j < |r| ensures MayPrecede(latencies, r[i], r[j]) {
      assert r[i] in multiset(r) && r[j] in multiset(r);
      MayPrecedeIff(op, sslRequired, latencies, r[i], r[j]);
    }
  }

  function GetNodeId(node: RouterNode): string { if node.nodeId != "" then node.nodeId else node.grpcUrl }

  function Candidates(allNodes: seq<RouterNode>, exclude: seq<string>): seq<RouterNode> {
    Filter(allNodes, (node: RouterNode) => GetNodeId(node) !in exclude)
  }

  /** `Router.getNode`: the strategy orders a shuffle of the nodes not excluded, and the first is taken. */
  function SelectNode(nodes: seq<RouterNode>): Option<RouterNode> {
    if nodes == [] then None else Some(nodes[0])
  }

  /** A node that may be handed out: it serves the operation, and its id, or else its address, is not excluded. */
  ghost predicate Eligible(op: Operation, sslRequired: bool, allNodes: seq<RouterNode>, exclude: seq<string>,
                           n: RouterNode)
  {
    && n in allNodes && Serves(op, sslRequired, n)
    && (n.nodeId != "" ==> n.nodeId !in exclude)
    && (n.nodeId == "" ==> n.grpcUrl !in exclude)
  }

  /** A node is handed out exactly when one is eligible, and then one that may stand before every other. */
  lemma GetNodeMinimal(op: Operation, sslRequired: bool, allNodes: seq<RouterNode>, exclude: seq<string>,
                       shuffled: seq<RouterNode>, latencies: Latencies)
    requires multiset(shuffled) == multiset(Candidates(allNodes, exclude))
    ensures var chosen := SelectNode(Marshal(op, sslRequired, shuffled, latencies));
      && (chosen == None <==> forall n :: !Eligible(op, sslRequired, allNodes, exclude, n))
      && (chosen.Some? ==> Eligible(op, sslRequired, allNodes, exclude, chosen.value))
      && (forall n | chosen.Some? && Eligible(op, sslRequired, allNodes, exclude, n) && n != chosen.value ::
            MayPrecede(latencies, chosen.value, n))
  {
    hide Marshal, MayPrecede, Serves;
    var r := Marshal(op, sslRequired, shuffled, latencies);
    MarshalOrder(op, sslRequired, shuffled, latencies);
    FilterIn(allNodes, (node: RouterNode) => GetNodeId(node) !in exclude);
    forall n ensures n in r <==> Eligible(op, sslRequired, allNodes, exclude, n) {
      assert n in r <==> n in multiset(r);
      assert n in Candidates(allNodes, exclude) <==> n in multiset(Candidates(allNodes, exclude));
    }
    assert r != [] ==> r[0] in r;
  }
}
