/**
 `withRetry`: the callback that `async-retry` runs once per attempt, and what it makes of the router's and the
 node's answers. A node is its id.
 */
module BalancedNode {
  import opened Options
  import opened Shuffle

  datatype GrpcStatus =
    | OK | CANCELLED | UNKNOWN | INVALID_ARGUMENT | DEADLINE_EXCEEDED | NOT_FOUND | ALREADY_EXISTS
    | PERMISSION_DENIED | RESOURCE_EXHAUSTED | FAILED_PRECONDITION | ABORTED | OUT_OF_RANGE | UNIMPLEMENTED
    | INTERNAL | UNAVAILABLE | DATA_LOSS | UNAUTHENTICATED

  predicate Retryable(code: GrpcStatus) {
    code in {UNAVAILABLE, DEADLINE_EXCEEDED, RESOURCE_EXHAUSTED, ABORTED, INTERNAL, UNKNOWN, CANCELLED}
  }

  type Id = string

  /** `Failed(None)`: something was thrown that is no `Error`. */
  datatype RouterAnswer = Gave(node: Id) | Failed(error: Option<string>)
  datatype BodyAnswer = Succeeded | RpcFailed(code: GrpcStatus) | OtherFailed

  datatype NodeError = NodeError(code: GrpcStatus, nodeId: Id, correlationId: string)

  datatype Thrown = Operation(error: NodeError) | Router(message: string) | NoNodesAvailable | Other

  datatype Outcome = Returns | Throws(thrown: Thrown) | Bails(reason: Thrown)

  /** The closure's variables; the newest excluded node stands first. */
  datatype State = State(exclude: seq<Id>, lastOperationError: Option<NodeError>, lastRouterError: Option<string>)

  /** One attempt: what the router said, the node that was tried, and how it ended. */
  datatype Report = Report(router: RouterAnswer, node: Option<Id>, outcome: Outcome)

  function Pop(s: seq<Id>): (seq<Id>, Option<Id>) {
    if s == [] then ([], None) else (s[..|s| - 1], Some(s[|s| - 1]))
  }

  function PickNode(s: State, router: RouterAnswer): (State, Option<Id>) {
    match router
    case Gave(node) => (s.(exclude := [node] + s.exclude), Some(node))
    case Failed(error) =>
      var (rest, node) := Pop(s.exclude);
      (s.(exclude := rest, lastRouterError := if error.Some? then error else s.lastRouterError), node)
  }

  function NodelessError(s: State): Thrown {
    if s.lastOperationError.Some? then Operation(s.lastOperationError.value)
    else if s.lastRouterError.Some? then Router(s.lastRouterError.value)
    else NoNodesAvailable
  }

  function TryNode(s: State, node: Id, body: BodyAnswer, correlationId: string): (State, Outcome) {
    match body
    case Succeeded => (s, Returns)
    case RpcFailed(code) =>
      var e := NodeError(code, node, correlationId);
      if Retryable(code) then (s.(lastOperationError := Some(e)), Throws(Operation(e))) else (s, Bails(Operation(e)))
    case OtherFailed => (s, Bails(Other))
  }

  function Attempt(s: State, router: RouterAnswer, body: BodyAnswer, correlationId: string): (State, Report) {
    var (s1, node) := PickNode(s, router);
    if node == None then (s1, Report(router, None, Throws(NodelessError(s1))))
    else
      var (s2, outcome) := TryNode(s1, node.value, body, correlationId);
      (s2, Report(router, node, outcome))
  }

  const START := State([], None, None)

  class RetryCallback {
    const correlationId: string
    var exclude: seq<Id>
    var lastOperationError: Option<NodeError>
    var lastRouterError: Option<string>

    ghost function Now(): State
      reads this
    {
      State(exclude, lastOperationError, lastRouterError)
    }

    constructor (correlationId: string)
      ensures Now() == START && this.correlationId == correlationId
    {
      this.correlationId := correlationId;
      exclude, lastOperationError, lastRouterError := [], None, None;
    }

    method Run(router: RouterAnswer, body: BodyAnswer) returns (report: Report)
      modifies this
      ensures (Now(), report) == Attempt(old(Now()), router, body, correlationId)
      ensures Ends(report, router, body, correlationId)
    {
      var node := None;
      match router {
        case Gave(given) =>
          node := Some(given);
          exclude := [given] + exclude;
        case Failed(error) =>
          if exclude != [] {
            node := Some(exclude[|exclude| - 1]);
            exclude := exclude[..|exclude| - 1];
          }
          if error.Some? {
            lastRouterError := error;
          }
      }
      if node == None {
        var thrown := NoNodesAvailable;
        if lastOperationError.Some? {
          thrown := Operation(lastOperationError.value);
        } else if lastRouterError.Some? {
          thrown := Router(lastRouterError.value);
        }
        return Report(router, node, Throws(thrown));
      }
      match body {
        case Succeeded =>
          return Report(router, node, Returns);
        case RpcFailed(code) =>
          var nodeError := NodeError(code, node.value, correlationId);
          if Retryable(code) {
            lastOperationError := Some(nodeError);
            return Report(router, node, Throws(Operation(nodeError)));
          }
          return Report(router, node, Bails(Operation(nodeError)));
        case OtherFailed =>
          return Report(router, node, Bails(Other));
      }
    }
  }

  /** The codes of failures that may pass. */
  predicate Again(code: GrpcStatus) {
    || code == UNAVAILABLE || code == DEADLINE_EXCEEDED || code == RESOURCE_EXHAUSTED || code == ABORTED
    || code == INTERNAL || code == UNKNOWN || code == CANCELLED
  }

  /**
   How an attempt must end: on the node the router gave, if it gave one, and there as the node's answer asks for. A
   success ends the run with it. A call that failed is tried again for these seven codes, and the error says which
   node it was and which call; any other failure ends the run.
   */
  ghost predicate Ends(r: Report, router: RouterAnswer, body: BodyAnswer, correlationId: string) {
    && r.router == router
    && (router.Gave? ==> r.node == Some(router.node))
    && (r.node == None ==> r.outcome.Throws?)
    && (r.node.Some? ==>
         match body
         case Succeeded => r.outcome == Returns
         case RpcFailed(code) =>
           var error := Operation(NodeError(code, r.node.value, correlationId));
           r.outcome == if Again(code) then Throws(error) else Bails(error)
         case OtherFailed => r.outcome == Bails(Other))
  }

  lemma AttemptEnds(s: State, router: RouterAnswer, body: BodyAnswer, correlationId: string)
    ensures Ends(Attempt(s, router, body, correlationId).1, router, body, correlationId)
  {}

  lemma EndsThrowing(r: Report, router: RouterAnswer, body: BodyAnswer, correlationId: string)
    requires Ends(r, router, body, correlationId) && r.node.Some? && r.outcome.Throws?
    ensures body.RpcFailed? && Again(body.code)
  {}

  // ---- Runs under any router ----

  datatype Answers = Answers(router: RouterAnswer, body: BodyAnswer)

  /** The attempts of a run: it goes on while an attempt throws and attempts are left. */
  function Reports(s: State, inputs: seq<Answers>, budget: nat, correlationId: string): seq<Report>
    decreases budget
  {
    if budget == 0 || inputs == [] then []
    else
      var (s1, r) := Attempt(s, inputs[0].router, inputs[0].body, correlationId);
      [r] + if r.outcome.Throws? then Reports(s1, inputs[1..], budget - 1, correlationId) else []
  }

  /**
   Every attempt of every run ends as its node answered. So a run goes on only after an attempt that found no node or
   failed with a code to be tried again, and it stops early at nothing else.
   */
  lemma {:induction false} RunEnds(s: State, inputs: seq<Answers>, budget: nat, correlationId: string)
    ensures var rs := Reports(s, inputs, budget, correlationId);
      && |rs| <= |inputs| && |rs| <= budget
      && (forall i | 0 <= i < |rs| :: Ends(rs[i], inputs[i].router, inputs[i].body, correlationId))
      && (forall i | 0 <= i < |rs| - 1 :: rs[i].outcome.Throws?)
      && (forall i | 0 <= i < |rs| - 1 && rs[i].node.Some? :: inputs[i].body.RpcFailed? && Again(inputs[i].body.code))
      && (|rs| == |inputs| || |rs| == budget || (rs != [] && !rs[|rs| - 1].outcome.Throws?))
    decreases budget
  {
    hide Attempt, Ends;
    if budget > 0 && inputs != [] {
      var rs := Reports(s, inputs, budget, correlationId);
      var (s1, r) := Attempt(s, inputs[0].router, inputs[0].body, correlationId);
      AttemptEnds(s, inputs[0].router, inputs[0].body, correlationId);
      RunEnds(s1, inputs[1..], budget - 1, correlationId);
      var rest := if r.outcome.Throws? then Reports(s1, inputs[1..], budget - 1, correlationId) else [];
      assert rs == [r] + rest;
      forall i | 0 < i < |rs| ensures Ends(rs[i], inputs[i].router, inputs[i].body, correlationId) {
        assert rs[i] == rest[i - 1] && inputs[i] == inputs[1..][i - 1];
      }
      forall i | 0 <= i < |rs| - 1 && rs[i].node.Some? ensures inputs[i].body.RpcFailed? && Again(inputs[i].body.code) {
        assert i > 0 ==> rs[i] == rest[i - 1];
        EndsThrowing(rs[i], inputs[i].router, inputs[i].body, correlationId);
      }
    }
  }

  /** The router never hands out a node it was told to exclude. */
  ghost predicate Honours(s: State, inputs: seq<Answers>, budget: nat, correlationId: string)
    decreases budget
  {
    budget > 0 && inputs != [] ==>
      && (inputs[0].router.Gave? ==> inputs[0].router.node !in s.exclude)
      && Honours(Attempt(s, inputs[0].router, inputs[0].body, correlationId).0, inputs[1..], budget - 1, correlationId)
  }

  function LatestOperationError(hist: seq<Report>): Option<NodeError> {
    if hist == [] then None
    else
      var r := hist[|hist| - 1];
      if r.node.Some? && r.outcome.Throws? && r.outcome.thrown.Operation? then Some(r.outcome.thrown.error)
      else LatestOperationError(hist[..|hist| - 1])
  }

  function LatestRouterError(hist: seq<Report>): Option<string> {
    if hist == [] then None
    else
      var r := hist[|hist| - 1];
      if r.router.Failed? && r.router.error.Some? then r.router.error else LatestRouterError(hist[..|hist| - 1])
  }

  ghost predicate HandedOut(hist: seq<Report>, node: Id) { exists i | 0 <= i < |hist| :: hist[i].router == Gave(node) }

  /** The closure's variables after the attempts of `hist`. */
  ghost predicate Inv(s: State, hist: seq<Report>) {
    && Distinct(s.exclude)
    && (forall n | n in s.exclude :: HandedOut(hist, n))
    && s.lastOperationError == LatestOperationError(hist)
    && s.lastRouterError == LatestRouterError(hist)
  }

  /** What is promised of the last attempt of `hist`. */
  ghost predicate ReportOk(hist: seq<Report>)
    requires hist != []
  {
    var r := hist[|hist| - 1];
    match r.node
    case Some(n) => HandedOut(hist, n)
    case None =>
      var before := LatestOperationError(hist[..|hist| - 1]);
      r.outcome == Throws(
        if before.Some? then Operation(before.value)
        else if LatestRouterError(hist).Some? then Router(LatestRouterError(hist).value)
        else NoNodesAvailable)
  }

  lemma AttemptKeeps(s: State, hist: seq<Report>, router: RouterAnswer, body: BodyAnswer, correlationId: string)
    requires Inv(s, hist) && (router.Gave? ==> router.node !in s.exclude)
    ensures var (s1, r) := Attempt(s, router, body, correlationId);
      Inv(s1, hist + [r]) && ReportOk(hist + [r])
  {
    var (s1, r) := Attempt(s, router, body, correlationId);
    var h := hist + [r];
    assert h[..|h| - 1] == hist && h[|h| - 1] == r;
    forall n | HandedOut(hist, n) ensures HandedOut(h, n) {
      var i :| 0 <= i < |hist| && hist[i].router == Gave(n);
      assert h[i].router == Gave(n);
    }
    assert router.Gave? ==> h[|hist|].router == Gave(router.node);
  }

  function FinalState(s: State, inputs: seq<Answers>, budget: nat, correlationId: string): State
    decreases budget
  {
    if budget == 0 || inputs == [] then s
    else
      var (s1, r) := Attempt(s, inputs[0].router, inputs[0].body, correlationId);
      if r.outcome.Throws? then FinalState(s1, inputs[1..], budget - 1, correlationId) else s1
  }

  ghost predicate ReportAt(hist: seq<Report>, rs: seq<Report>, i: nat)
    requires i < |rs|
  {
    ReportOk(hist + rs[..i + 1])
  }

  lemma ShiftReports(hist: seq<Report>, r: Report, rest: seq<Report>)
    requires ReportAt(hist, [r] + rest, 0)
    requires forall i | 0 <= i < |rest| :: ReportAt(hist + [r], rest, i)
    ensures forall i | 0 <= i < |[r] + rest| :: ReportAt(hist, [r] + rest, i)
  {
    hide ReportOk;
    forall i | 0 < i < |[r] + rest| ensures ReportAt(hist, [r] + rest, i) {
      assert ReportAt(hist + [r], rest, i - 1);
      assert hist + ([r] + rest)[..i + 1] == hist + [r] + rest[..i];
    }
  }

  /**
   Every run under a router that honours the exclude list: at most `budget` attempts, none after an attempt that
   did not throw, each on a node handed out before, and an attempt without a node throws the latest retryable
   error of a node, or else the latest error of the router. The exclude list never holds a node twice.
   */
  lemma {:induction false} RunSafe(s: State, hist: seq<Report>, inputs: seq<Answers>, budget: nat,
                                   correlationId: string)
    requires Inv(s, hist) && Honours(s, inputs, budget, correlationId)
    ensures var rs := Reports(s, inputs, budget, correlationId);
      && |rs| <= budget
      && (forall i | 0 <= i < |rs| - 1 :: rs[i].outcome.Throws?)
      && (forall i | 0 <= i < |rs| :: ReportAt(hist, rs, i))
      && Inv(FinalState(s, inputs, budget, correlationId), hist + rs)
    decreases budget
  {
    hide Attempt, Inv, ReportOk;
    var rs := Reports(s, inputs, budget, correlationId);
    if budget == 0 || inputs == [] {
      assert hist + rs == hist;
    } else {
      var (s1, r) := Attempt(s, inputs[0].router, inputs[0].body, correlationId);
      AttemptKeeps(s, hist, inputs[0].router, inputs[0].body, correlationId);
      var rest := rs[1..];
      assert rs == [r] + rest && rs[..1] == [r];
      if r.outcome.Throws? {
        RunSafe(s1, hist + [r], inputs[1..], budget - 1, correlationId);
        assert rest == Reports(s1, inputs[1..], budget - 1, correlationId);
        ShiftReports(hist, r, rest);
        assert hist + rs == hist + [r] + rest;
      } else {
        assert hist + rs == hist + [r];
      }
    }
  }

  // ---- The rotation ----

  /**
   Attempts that all fail retryably while the same nodes are eligible. `choose(k, exclude)` is the router's choice
   in attempt `k`, free but for what `Router.getNode` keeps to: an eligible node that is not excluded, if there
   is one.
   */
  ghost predicate Chooses(nodes: set<Id>, choose: (nat, seq<Id>) -> Id) {
    forall k, exclude :: (exists n :: n in nodes && n !in exclude) ==>
      choose(k, exclude) in nodes && choose(k, exclude) !in exclude
  }

  ghost function Answer(nodes: set<Id>, choose: (nat, seq<Id>) -> Id, k: nat, exclude: seq<Id>): RouterAnswer {
    if exists n :: n in nodes && n !in exclude then Gave(choose(k, exclude)) else Failed(Some("No nodes available"))
  }

  /** The closure's variables before attempt `k`, counted from zero. */
  ghost function Before(nodes: set<Id>, choose: (nat, seq<Id>) -> Id, codes: nat -> GrpcStatus, k: nat): State {
    if k == 0 then START
    else
      var s := Before(nodes, choose, codes, k - 1);
      Attempt(s, Answer(nodes, choose, k - 1, s.exclude), RpcFailed(codes(k - 1)), "").0
  }

  ghost function Visit(nodes: set<Id>, choose: (nat, seq<Id>) -> Id, codes: nat -> GrpcStatus, k: nat): Option<Id> {
    var s := Before(nodes, choose, codes, k);
    Attempt(s, Answer(nodes, choose, k, s.exclude), RpcFailed(codes(k)), "").1.node
  }

  /** The router's and the nodes' answers in the attempts from `k` on. */
  ghost function FailingAnswers(nodes: set<Id>, choose: (nat, seq<Id>) -> Id, codes: nat -> GrpcStatus, k: nat, n: nat)
    : (inputs: seq<Answers>)
    ensures |inputs| == n
    decreases n
  {
    if n == 0 then []
    else
      [Answers(Answer(nodes, choose, k, Before(nodes, choose, codes, k).exclude), RpcFailed(codes(k)))]
      + FailingAnswers(nodes, choose, codes, k + 1, n - 1)
  }

  lemma OneFailure(nodes: set<Id>, choose: (nat, seq<Id>) -> Id, codes: nat -> GrpcStatus, k: nat)
    requires Chooses(nodes, choose) && Retryable(codes(k))
    ensures var s := Before(nodes, choose, codes, k);
      var router := Answer(nodes, choose, k, s.exclude);
      var (s1, r) := Attempt(s, router, RpcFailed(codes(k)), "");
      && (router.Gave? ==> router.node !in s.exclude)
      && r.outcome.Throws? && r.node == Visit(nodes, choose, codes, k) && s1 == Before(nodes, choose, codes, k + 1)
  {}

  /**
   The attempts of the run in which all fail, as `RunSafe` speaks of them: the router honours the exclude list, there
   is one attempt for every try that is left, and attempt `i` is made on the node `Visit` names.
   */
  lemma {:induction false} RunVisits(nodes: set<Id>, choose: (nat, seq<Id>) -> Id, codes: nat -> GrpcStatus,
                                     k: nat, n: nat)
    requires Chooses(nodes, choose) && forall i :: Retryable(codes(i))
    ensures var s := Before(nodes, choose, codes, k);
      var inputs := FailingAnswers(nodes, choose, codes, k, n);
      var rs := Reports(s, inputs, n, "");
      && Honours(s, inputs, n, "") && |rs| == n
      && forall i | 0 <= i < n :: rs[i].node == Visit(nodes, choose, codes, k + i)
    decreases n
  {
    hide Attempt, Visit, Before, Chooses, Answer;
    if n > 0 {
      var inputs := FailingAnswers(nodes, choose, codes, k, n);
      assert inputs[1..] == FailingAnswers(nodes, choose, codes, k + 1, n - 1);
      OneFailure(nodes, choose, codes, k);
      RunVisits(nodes, choose, codes, k + 1, n - 1);
      var rest := Reports(Before(nodes, choose, codes, k + 1), inputs[1..], n - 1, "");
      var rs := Reports(Before(nodes, choose, codes, k), inputs, n, "");
      assert rs == [rs[0]] + rest;
      forall i | 0 < i < n ensures rs[i].node == Visit(nodes, choose, codes, k + i) {
        assert rs[i] == rest[i - 1] && rest[i - 1].node == Visit(nodes, choose, codes, k + 1 + (i - 1));
      }
    }
  }

  function Reverse(s: seq<Id>): (r: seq<Id>)
    ensures |r| == |s|
  {
    if s == [] then [] else Reverse(s[1..]) + [s[0]]
  }

  lemma {:induction false} ReverseAppend(s: seq<Id>, x: Id)
    ensures Reverse(s + [x]) == [x] + Reverse(s)
    decreases |s|
  {
    if s != [] {
      assert (s + [x])[1..] == s[1..] + [x];
      ReverseAppend(s[1..], x);
    }
  }

  lemma {:induction false} ReverseIn(s: seq<Id>, x: Id)
    ensures x in Reverse(s) <==> x in s
    decreases |s|
  {
    if s != [] {
      ReverseIn(s[1..], x);
      assert s == [s[0]] + s[1..];
    }
  }

  function Elements(s: seq<Id>): set<Id> { set x | x in s }

  lemma {:induction false} DistinctCount(s: seq<Id>)
    requires Distinct(s)
    ensures |Elements(s)| == |s|
    decreases |s|
  {
    if s != [] {
      DistinctRest(s);
      hide Distinct, Elements;
      DistinctCount(s[1..]);
    }
  }

  lemma DistinctRest(s: seq<Id>)
    requires s != [] && Distinct(s)
    ensures Distinct(s[1..])
    ensures Elements(s) == {s[0]} + Elements(s[1..]) && s[0] !in Elements(s[1..])
  {
    assert s == [s[0]] + s[1..];
  }

  /** The first attempts take a new node each, until all were tried. */
  ghost predicate Fresh(nodes: set<Id>, p: seq<Id>) { Distinct(p) && forall x | x in p :: x in nodes }

  lemma {:induction false} FirstRound(nodes: set<Id>, choose: (nat, seq<Id>) -> Id, codes: nat -> GrpcStatus, k: nat)
    returns (p: seq<Id>)
    requires Chooses(nodes, choose) && (forall i :: Retryable(codes(i))) && k <= |nodes|
    ensures |p| == k && Fresh(nodes, p) && Before(nodes, choose, codes, k).exclude == Reverse(p)
    ensures forall i | 0 <= i < k :: Visit(nodes, choose, codes, i) == Some(p[i])
    decreases k
  {
    if k == 0 {
      p := [];
    } else {
      var q := FirstRound(nodes, choose, codes, k - 1);
      hide Visit;
      p := NewNode(nodes, choose, codes, k - 1, q);
    }
  }

  /** While a node is left that was not tried, the router hands out such a node. */
  lemma NewNode(nodes: set<Id>, choose: (nat, seq<Id>) -> Id, codes: nat -> GrpcStatus, k: nat, q: seq<Id>)
    returns (p: seq<Id>)
    requires Chooses(nodes, choose) && Retryable(codes(k))
    requires Fresh(nodes, q) && |q| < |nodes| && Before(nodes, choose, codes, k).exclude == Reverse(q)
    ensures |p| == |q| + 1 && p[..|q|] == q && Fresh(nodes, p)
    ensures Visit(nodes, choose, codes, k) == Some(p[|q|]) && Before(nodes, choose, codes, k + 1).exclude == Reverse(p)
  {
    var n := Unvisited(nodes, q);
    ReverseIn(q, n);
    var x := choose(k, Reverse(q));
    ReverseIn(q, x);
    ReverseAppend(q, x);
    HandedOutStep(nodes, choose, codes, k, x);
    hide Visit, Before;
    p := q + [x];
  }

  lemma HandedOutStep(nodes: set<Id>, choose: (nat, seq<Id>) -> Id, codes: nat -> GrpcStatus, k: nat, x: Id)
    requires Retryable(codes(k))
    requires var s := Before(nodes, choose, codes, k); Answer(nodes, choose, k, s.exclude) == Gave(x)
    ensures Visit(nodes, choose, codes, k) == Some(x)
    ensures Before(nodes, choose, codes, k + 1).exclude == [x] + Before(nodes, choose, codes, k).exclude
  {
    hide Answer;
  }

  lemma TakenBackStep(nodes: set<Id>, choose: (nat, seq<Id>) -> Id, codes: nat -> GrpcStatus, k: nat)
    requires Retryable(codes(k))
    requires var s := Before(nodes, choose, codes, k); s.exclude != [] && Answer(nodes, choose, k, s.exclude).Failed?
    ensures var exclude := Before(nodes, choose, codes, k).exclude;
      && Visit(nodes, choose, codes, k) == Some(exclude[|exclude| - 1])
      && Before(nodes, choose, codes, k + 1).exclude == exclude[..|exclude| - 1]
  {
    hide Answer;
  }

  lemma Unvisited(nodes: set<Id>, q: seq<Id>) returns (n: Id)
    requires Fresh(nodes, q) && |q| < |nodes|
    ensures n in nodes && n !in q
  {
    DistinctCount(q);
    var visited := Elements(q);
    assert nodes <= visited ==> nodes == visited;
    n :| n in nodes && n !in visited;
  }

  lemma AllVisited(nodes: set<Id>, q: seq<Id>, n: Id)
    requires Fresh(nodes, q) && |q| == |nodes| && n in nodes
    ensures n in q
  {
    DistinctCount(q);
    var visited := Elements(q);
    if n !in visited {
      assert |visited + {n}| == |visited| + 1;
      assert visited + {n} <= nodes;
      Smaller(visited + {n}, nodes);
    }
  }

  lemma {:induction false} Smaller(a: set<Id>, b: set<Id>)
    requires a <= b
    ensures |a| <= |b|
    decreases |a|
  {
    if a != {} {
      var x :| x in a;
      Smaller(a - {x}, b - {x});
    }
  }

  /** With every node excluded the router has none, and the oldest is taken back. */
  lemma ReuseAttempt(nodes: set<Id>, choose: (nat, seq<Id>) -> Id, codes: nat -> GrpcStatus, k: nat, q: seq<Id>)
    requires Retryable(codes(k))
    requires Fresh(nodes, q) && |q| == |nodes| > 0 && Before(nodes, choose, codes, k).exclude == Reverse(q)
    ensures Visit(nodes, choose, codes, k) == Some(q[0])
    ensures Before(nodes, choose, codes, k + 1).exclude == Reverse(q[1..])
  {
    hide Attempt, Visit, Before;
    forall n | n in nodes ensures n in Reverse(q) {
      AllVisited(nodes, q, n);
      ReverseIn(q, n);
    }
    TakenBackStep(nodes, choose, codes, k);
    assert Reverse(q)[..|q| - 1] == Reverse(q[1..]) && Reverse(q)[|q| - 1] == q[0];
  }

  /** With only the oldest node not excluded, the router has no choice. */
  lemma HandOutAttempt(nodes: set<Id>, choose: (nat, seq<Id>) -> Id, codes: nat -> GrpcStatus, k: nat, q: seq<Id>)
    requires Chooses(nodes, choose) && Retryable(codes(k))
    requires Fresh(nodes, q) && |q| == |nodes| > 0 && Before(nodes, choose, codes, k).exclude == Reverse(q[1..])
    ensures Visit(nodes, choose, codes, k) == Some(q[0])
    ensures Before(nodes, choose, codes, k + 1).exclude == Reverse(q[1..] + [q[0]])
  {
    hide Attempt, Visit, Before;
    var exclude := Reverse(q[1..]);
    assert q == [q[0]] + q[1..] && q[0] in q;
    ReverseIn(q[1..], q[0]);
    var x := choose(k, exclude);
    assert x in nodes && x !in exclude;
    ReverseIn(q[1..], x);
    AllVisited(nodes, q, x);
    HandedOutStep(nodes, choose, codes, k, q[0]);
    ReverseAppend(q[1..], q[0]);
  }

  /** From a full exclude list the oldest node is tried twice: once reused, once handed out again. */
  lemma TwoAttempts(nodes: set<Id>, choose: (nat, seq<Id>) -> Id, codes: nat -> GrpcStatus, k: nat, q: seq<Id>)
    requires Chooses(nodes, choose) && (forall i :: Retryable(codes(i)))
    requires Fresh(nodes, q) && |q| == |nodes| > 0 && Before(nodes, choose, codes, k).exclude == Reverse(q)
    ensures Visit(nodes, choose, codes, k) == Visit(nodes, choose, codes, k + 1) == Some(q[0])
    ensures Before(nodes, choose, codes, k + 2).exclude == Reverse(q[1..] + [q[0]])
  {
    hide Before, Reverse, Visit, Chooses, Fresh, Retryable;
    ReuseAttempt(nodes, choose, codes, k, q);
    HandOutAttempt(nodes, choose, codes, k + 1, q);
  }

  /** `p` turned so that place `m` comes first. */
  function Turned(p: seq<Id>, m: nat): (r: seq<Id>)
    requires m <= |p|
    ensures |r| == |p|
  {
    p[m..] + p[..m]
  }

  lemma TurnedFresh(nodes: set<Id>, p: seq<Id>, m: nat)
    requires Fresh(nodes, p) && m < |p|
    ensures Fresh(nodes, Turned(p, m)) && Turned(p, m)[0] == p[m]
  {
    var t := Turned(p, m);
    forall i, j | 0 <= i < j < |t| ensures t[i] != t[j] {
      assert t[i] == p[if i < |p| - m then m + i else i - (|p| - m)];
      assert t[j] == p[if j < |p| - m then m + j else j - (|p| - m)];
    }
  }

  lemma TurnedNext(p: seq<Id>, m: nat)
    requires m < |p|
    ensures Turned(p, m)[1..] + [p[m]] == Turned(p, if m + 1 == |p| then 0 else m + 1)
  {
    var t := Turned(p, m);
    assert t[1..] == p[m + 1..] + p[..m];
    assert p[..m] + [p[m]] == p[..m + 1];
    assert t[1..] + [p[m]] == p[m + 1..] + p[..m + 1];
    assert m + 1 == |p| ==> p[m + 1..] + p[..m + 1] == p && Turned(p, 0) == p;
  }

  /** The place whose turn it is in round `k` when `n` places take turns: `k % n`. */
  function Turn(k: nat, n: nat): (m: nat)
    requires n > 0
    ensures m < n
  {
    if k == 0 then 0 else if Turn(k - 1, n) + 1 == n then 0 else Turn(k - 1, n) + 1
  }

  lemma {:induction false} TurnSplits(k: nat, n: nat) returns (q: nat)
    requires n > 0
    ensures k == q * n + Turn(k, n)
  {
    q := 0;
    if k > 0 {
      q := TurnSplits(k - 1, n);
      if Turn(k - 1, n) + 1 == n {
        assert (q + 1) * n == q * n + n;
        q := q + 1;
      }
    }
  }

  lemma TurnIsRemainder(k: nat, n: nat)
    requires n > 0
    ensures Turn(k, n) == k % n
  {
    hide Turn;
    var q := TurnSplits(k, n);
    Remainder(k, n, q, Turn(k, n));
  }

  lemma Remainder(k: nat, n: nat, q: nat, r: nat)
    requires n > 0 && r < n && k == q * n + r
    ensures k % n == r
  {
    var d := k / n - q;
    assert d * n == r - k % n;
    assert d >= 1 ==> d * n >= n;
    assert d <= -1 ==> d * n + n <= 0;
  }

  lemma {:induction false} Rounds(nodes: set<Id>, choose: (nat, seq<Id>) -> Id, codes: nat -> GrpcStatus,
                                  p: seq<Id>, k: nat)
    requires Chooses(nodes, choose) && (forall i :: Retryable(codes(i)))
    requires Fresh(nodes, p) && |p| == |nodes| > 0 && Before(nodes, choose, codes, |p|).exclude == Reverse(p)
    ensures Before(nodes, choose, codes, |p| + 2 * k).exclude == Reverse(Turned(p, Turn(k, |p|)))
    decreases k
  {
    hide Before, Reverse, Turned, Visit, Attempt, Chooses, Fresh;
    if k == 0 {
      NoTurn(p);
    } else {
      var m := Turn(k - 1, |p|);
      Rounds(nodes, choose, codes, p, k - 1);
      TurnedFresh(nodes, p, m);
      TurnedNext(p, m);
      TwoAttempts(nodes, choose, codes, |p| + 2 * (k - 1), Turned(p, m));
      assert |p| + 2 * (k - 1) + 2 == |p| + 2 * k;
    }
  }

  lemma NoTurn(p: seq<Id>)
    ensures Turned(p, 0) == p
  {}

  /** Attempts `n + 2k` and `n + 2k + 1`, counted from zero, both visit the node whose turn it is in round `k`. */
  ghost predicate HasTurn(nodes: set<Id>, choose: (nat, seq<Id>) -> Id, codes: nat -> GrpcStatus, p: seq<Id>, k: nat)
    requires p != []
  {
    Visit(nodes, choose, codes, |p| + 2 * k) == Visit(nodes, choose, codes, |p| + 2 * k + 1) == Some(p[k % |p|])
  }

  /** Once the first round is over, the nodes take turns. */
  lemma RoundVisits(nodes: set<Id>, choose: (nat, seq<Id>) -> Id, codes: nat -> GrpcStatus, p: seq<Id>, k: nat)
    requires Chooses(nodes, choose) && (forall i :: Retryable(codes(i)))
    requires Fresh(nodes, p) && |p| == |nodes| > 0 && Before(nodes, choose, codes, |p|).exclude == Reverse(p)
    ensures HasTurn(nodes, choose, codes, p, k)
  {
    hide Before, Reverse, Visit, Attempt, Chooses;
    TurnIsRemainder(k, |p|);
    Rounds(nodes, choose, codes, p, k);
    TurnedFresh(nodes, p, Turn(k, |p|));
    TwoAttempts(nodes, choose, codes, |p| + 2 * k, Turned(p, Turn(k, |p|)));
  }

  /**
   With `n` nodes that all keep failing retryably, the first `n` attempts visit them all in some order `p`, and for
   every `k`, attempts `n + 2k` and `n + 2k + 1` both visit the node whose turn it is, `p[k % n]`, whatever the router's
   choices.
   */
  lemma Rotation(nodes: set<Id>, choose: (nat, seq<Id>) -> Id, codes: nat -> GrpcStatus) returns (p: seq<Id>)
    requires nodes != {} && Chooses(nodes, choose) && forall i :: Retryable(codes(i))
    ensures |p| == |nodes| && Distinct(p) && Elements(p) == nodes
    ensures forall i | 0 <= i < |p| :: Visit(nodes, choose, codes, i) == Some(p[i])
    ensures forall k: nat :: HasTurn(nodes, choose, codes, p, k)
  {
    hide Before, Reverse, Visit, Attempt, Chooses, HasTurn;
    p := FirstRound(nodes, choose, codes, |nodes|);
    forall n | n in nodes ensures n in p {
      AllVisited(nodes, p, n);
    }
    forall k: nat ensures HasTurn(nodes, choose, codes, p, k) {
      RoundVisits(nodes, choose, codes, p, k);
    }
  }
}
