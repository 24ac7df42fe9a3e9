/** Which nodes a call counts, and which it pings, in terms of the records and of what the nodes are. */
module PingChoices {
  import opened PingStrategy
  import opened Routing
  import opened StableSort

  /** A node with a record whose ping has not failed. */
  ghost predicate Tried(records: Records, n: RouterNode) {
    n.httpUrl in records && records[n.httpUrl].node == n && records[n.httpUrl].state != Rejected
  }

  lemma {:induction false} PingedIn(records: Records, order: seq<string>, n: RouterNode)
    requires forall u | u in records :: RecordOk(records[u], u)
    ensures n in PingedNodes(records, order) <==> Tried(records, n) && n.httpUrl in order
    decreases |order|
  {
    if order != [] {
      PingedIn(records, order[1..], n);
      assert order == [order[0]] + order[1..];
    }
  }

  lemma {:induction false} PingedDistinct(records: Records, order: seq<string>)
    requires forall u | u in records :: RecordOk(records[u], u)
    requires forall i, j | 0 <= i < j < |order| :: order[i] != order[j]
    ensures DistinctUrls(PingedNodes(records, order))
    decreases |order|
  {
    if order != [] {
      var rest := PingedNodes(records, order[1..]);
      PingedDistinct(records, order[1..]);
      forall j | 0 <= j < |rest| ensures order[0] != rest[j].httpUrl {
        assert rest[j] in rest;
        PingedIn(records, order[1..], rest[j]);
      }
    }
  }

  /** A call counts, once each, the nodes that serve its operation and whose ping is under way or was answered. */
  lemma CountedAre(w: World, op: Operation)
    requires Inv(w)
    ensures forall n :: n in CountedNodes(w, op) <==> Tried(w.records, n) && Serves(op, w.sslRequired, n)
    ensures DistinctUrls(CountedNodes(w, op))
  {
    forall n ensures n in CountedNodes(w, op) <==> Tried(w.records, n) && Serves(op, w.sslRequired, n) {
      PingedIn(w.records, w.started, n);
      MarshalByTypeIn(op, w.sslRequired, PingedNodes(w.records, w.started), n);
      ServesIff(op, w.sslRequired, n);
    }
    PingedDistinct(w.records, w.started);
    MarshalDistinct(op, w.sslRequired, PingedNodes(w.records, w.started));
  }

  /** A node that serves the operation and has no record. */
  ghost predicate Missing(w: World, op: Operation, shuffled: seq<RouterNode>, n: RouterNode) {
    n in shuffled && Serves(op, w.sslRequired, n) && n.httpUrl !in w.records
  }

  /** Up to `limit` of the missing nodes, fewer only if these are all, and of the best priorities. */
  ghost predicate BestMissing(w: World, op: Operation, shuffled: seq<RouterNode>, limit: int, chosen: seq<RouterNode>) {
    && |chosen| <= (if limit < 0 then 0 else limit)
    && (forall n | n in chosen :: Missing(w, op, shuffled, n))
    && (|chosen| < limit ==> forall n | Missing(w, op, shuffled, n) :: n in chosen)
    && (forall a, b, p, q | a in chosen && Missing(w, op, shuffled, b) && b !in chosen
          && HasPriority(a, p) && HasPriority(b, q) :: p <= q)
  }

  lemma {:induction false} FilterSorted(s: seq<RouterNode>, p: RouterNode -> bool, key: RouterNode -> Key)
    requires Sorted(s, key)
    ensures Sorted(Filter(s, p), key)
    decreases |s|
  {
    if s != [] {
      FilterSorted(s[1..], p, key);
      FilterIn(s[1..], p);
      var rest := Filter(s[1..], p);
      forall j | 0 <= j < |rest| ensures Le(key(s[0]), key(rest[j])) {
        assert rest[j] in rest && rest[j] in s[1..];
        var k :| 0 <= k < |s[1..]| && s[1..][k] == rest[j];
        assert s[k + 1] == rest[j];
      }
    }
  }

  lemma MissingSorted(w: World, op: Operation, shuffled: seq<RouterNode>)
    ensures Sorted(MissingNodes(w, op, shuffled), PriorityKey(op))
  {
    SortIsStable(ApplicableNodes(op, w.sslRequired, shuffled), PriorityKey(op));
    hide Sort, Sorted;
    FilterSorted(MarshalByType(op, w.sslRequired, shuffled), (node: RouterNode) => node.httpUrl !in w.records,
                 PriorityKey(op));
  }

  /** What is taken from the front of a sorted list stands before what is not. */
  lemma TakeFront<T>(s: seq<T>, limit: int, key: T -> Key, a: T, b: T)
    requires Sorted(s, key) && a in Take(s, limit) && b in s && b !in Take(s, limit)
    ensures Le(key(a), key(b))
  {
    var chosen := Take(s, limit);
    var i :| 0 <= i < |chosen| && chosen[i] == a;
    var j :| 0 <= j < |s| && s[j] == b;
    assert s[i] == a;
  }

  lemma TakeBest(w: World, op: Operation, shuffled: seq<RouterNode>, limit: int)
    ensures BestMissing(w, op, shuffled, limit, Take(MissingNodes(w, op, shuffled), limit))
  {
    hide MissingNodes, PriorityKey, Serves, Sorted, HasPriority;
    var missing := MissingNodes(w, op, shuffled);
    var chosen := Take(missing, limit);
    MissingSorted(w, op, shuffled);
    MissingIn(w, op, shuffled);
    assert forall n | n in chosen :: n in missing;
    forall a, b, p, q | a in chosen && b in missing && b !in chosen && HasPriority(a, p) && HasPriority(b, q)
      ensures p <= q
    {
      TakeFront(missing, limit, PriorityKey(op), a, b);
      PriorityIs(op, w.sslRequired, a);
      PriorityIs(op, w.sslRequired, b);
    }
  }

  lemma KeysAfter(w: World, a: seq<RouterNode>, b: seq<RouterNode>)
    requires Inv(w)
    ensures EnqueueAll(w, a + b).records.Keys == w.records.Keys + Urls(a) + Urls(b)
  {
    hide Inv, EnqueueAll;
    EnqueueAllKeeps(w, a + b);
    var v := EnqueueAll(w, a + b);
    forall n | n in a || n in b ensures n.httpUrl in v.records {
      assert n in a + b;
    }
  }

  /**
   A call that plans its pings starts those of up to ten nodes less the counted ones, and leaves two to the timer; both
   are the best of those without a record.
   */
  lemma PlanIs(w: World, call: nat)
    requires Inv(w) && call in w.calls && w.calls[call].Counted?
    ensures var s := w.calls[call];
      var v := Step(w, Plan(call));
      && call in v.calls && v.calls[call].Waiting?
      && BestMissing(w, s.op, s.shuffled, 2, v.calls[call].background)
      && exists chosen ::
           && BestMissing(w, s.op, s.shuffled, 10 - |s.pinged|, chosen)
           && v.records.Keys == w.records.Keys + Urls(s.pinged) + Urls(chosen)
           && v.calls[call].awaited == v.records.Keys - w.records.Keys
  {
    hide MarshalByType, NotPinged, Take, EnqueueAll, Inv, BestMissing, Urls;
    var s := w.calls[call];
    var chosen := Take(MissingNodes(w, s.op, s.shuffled), 10 - |s.pinged|);
    TakeBest(w, s.op, s.shuffled, 2);
    TakeBest(w, s.op, s.shuffled, 10 - |s.pinged|);
    EnqueueAllKeeps(w, s.pinged + chosen);
    KeysAfter(w, s.pinged, chosen);
  }
}
