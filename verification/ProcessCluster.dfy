/** The controller of three worker processes: it carries packets between them in rounds, keeps
    the completions they report, and waits for requests to complete.  What the workers answer
    is arbitrary. */
module ProcessCluster {
  import opened Common

  type Data(==, !new)

  const NODES: nat := 3
  const BATCH: nat := 128
  const BUDGET: nat := 4096

  /** Nodes are numbered from 0 here; on the wire from 1. */
  type Node = n: nat | n < NODES

  datatype Packet = Packet(source: Node, target: Node, data: Data)

  datatype Key = Key(client: nat, sequence: nat)

  datatype Completion = Completion(key: Key, outcome: Data)

  datatype Reply = Reply(sqlError: bool, packets: seq<Packet>, completed: seq<Completion>, accepted: nat,
          backpressure: bool)

  datatype Request = Request(key: Key, data: Data)

  datatype Failure = ReadFailed | QueueBudget | UnstableOutcome | Backpressure | NoSuchWorker | NotSettled

  /** What became of an emitted packet when it reached the controller. */
  datatype Routed = Queued(packet: Packet) | Partitioned(packet: Packet) | TargetDown(packet: Packet)

  /** How a queued packet left its queue. */
  datatype Left = Delivered(packet: Packet) | Dropped(packet: Packet)

  function Get(m: map<Key, nat>, k: Key, default: nat): nat
  {
    if k in m then m[k] else default
  }

  /** The packets that went into the queue of node `t`, in order. */
  function Accepted(routed: seq<Routed>, t: nat): seq<Packet>
  {
    if routed == [] then []
    else
      var last := routed[|routed| - 1];
      Accepted(routed[..|routed| - 1], t) + if last.Queued? && last.packet.target == t then [last.packet] else []
  }

  function Packets(left: seq<Left>): (r: seq<Packet>)
    ensures |r| == |left| && forall i | 0 <= i < |left| :: r[i] == left[i].packet
  {
    seq(|left|, i requires 0 <= i < |left| => left[i].packet)
  }

  function AsDelivered(packets: seq<Packet>): (r: seq<Left>)
    ensures |r| == |packets| && forall i | 0 <= i < |r| :: r[i] == Delivered(packets[i])
  {
    seq(|packets|, i requires 0 <= i < |packets| => Delivered(packets[i]))
  }

  function AsDropped(packets: seq<Packet>): (r: seq<Left>)
    ensures |r| == |packets| && forall i | 0 <= i < |r| :: r[i] == Dropped(packets[i])
  {
    seq(|packets|, i requires 0 <= i < |packets| => Dropped(packets[i]))
  }

  function Route(partition: set<(nat, nat)>, workers: seq<bool>, p: Packet): Routed
    requires |workers| == NODES
  {
    if (p.source, p.target) in partition then Partitioned(p)
    else if !workers[p.target] then TargetDown(p)
    else Queued(p)
  }

  function Routes(partition: set<(nat, nat)>, workers: seq<bool>, packets: seq<Packet>): seq<Routed>
    requires |workers| == NODES
  {
    seq(|packets|, i requires 0 <= i < |packets| => Route(partition, workers, packets[i]))
  }

  /** What became of the packets of the running workers among the first `n`. */
  function Taken(partition: set<(nat, nat)>, workers: seq<bool>, replies: seq<Reply>, n: nat): seq<Routed>
    requires n <= NODES == |workers| == |replies|
  {
    if n == 0 then []
    else Taken(partition, workers, replies, n - 1) +
         if workers[n - 1] then Routes(partition, workers, replies[n - 1].packets) else []
  }

  /** What they reported. */
  function Reported(workers: seq<bool>, replies: seq<Reply>, n: nat): seq<Completion>
    requires n <= NODES == |workers| == |replies|
  {
    if n == 0 then []
    else Reported(workers, replies, n - 1) + if workers[n - 1] then replies[n - 1].completed else []
  }

  /** How many completions of `k` there are. */
  function Count(done: seq<Completion>, k: Key): nat
  {
    if done == [] then 0
    else Count(done[..|done| - 1], k) + if done[|done| - 1].key == k then 1 else 0
  }

  lemma CountMore(done: seq<Completion>, c: Completion, k: Key)
    ensures Count(done + [c], k) == Count(done, k) + if c.key == k then 1 else 0
  {
    assert (done + [c])[..|done|] == done;
  }

  /** More completions than at an earlier point means one since then. */
  lemma {:induction false} OneSince(done: seq<Completion>, at: nat, k: Key) returns (i: nat)
    requires at <= |done| && Count(done, k) > Count(done[..at], k)
    ensures at <= i < |done| && done[i].key == k
  {
    assert done[..|done|] == done;
    if done[|done| - 1].key == k {
      i := |done| - 1;
    } else {
      assert done[..|done| - 1][..at] == done[..at];
      i := OneSince(done[..|done| - 1], at, k);
    }
  }

  // ------------------------------------------------------------------------- the invariant

  /** Every packet that was accepted for a node has left its queue or is still in it, in the
      order of acceptance. */
  ghost predicate Conserved(routed: seq<Routed>, history: seq<seq<Left>>, queues: seq<seq<Packet>>)
  {
    && |queues| == |history| == NODES
    && forall t | 0 <= t < NODES :: Accepted(routed, t) == Packets(history[t]) + queues[t]
  }

  ghost predicate Bounded(workers: seq<bool>, queues: seq<seq<Packet>>)
  {
    && |workers| == |queues| == NODES
    && (forall t | 0 <= t < NODES :: |queues[t]| <= BUDGET)
    && (forall t | 0 <= t < NODES && !workers[t] :: queues[t] == [])
  }

  /** The table of completions is that of everything reported, so no two reports differ. */
  ghost predicate Recorded(completed: map<Key, Completion>, counts: map<Key, nat>, done: seq<Completion>)
  {
    && (forall c | c in done :: c.key in completed && completed[c.key] == c)
    && (forall k | k in completed :: completed[k].key == k && completed[k] in done)
    && (forall k: Key :: Get(counts, k, 0) == Count(done, k))
  }

  /** A request waits for one completion more than there were when it was last submitted. */
  ghost predicate Awaited(awaited: map<Key, nat>, submitted: map<Key, nat>, done: seq<Completion>)
  {
    && awaited.Keys == submitted.Keys
    && forall k | k in awaited :: submitted[k] <= |done| && awaited[k] == Count(done[..submitted[k]], k) + 1
  }

  lemma AwaitedStays(awaited: map<Key, nat>, submitted: map<Key, nat>, done: seq<Completion>, more: seq<Completion>)
    requires Awaited(awaited, submitted, done) && done <= more
    ensures Awaited(awaited, submitted, more)
  {
    forall k | k in awaited ensures submitted[k] <= |more| && awaited[k] == Count(more[..submitted[k]], k) + 1 {
      assert more[..submitted[k]] == done[..submitted[k]];
    }
  }

  lemma AwaitOne(awaited: map<Key, nat>, submitted: map<Key, nat>, done: seq<Completion>, k: Key)
    requires Awaited(awaited, submitted, done)
    ensures Awaited(awaited[k := Count(done, k) + 1], submitted[k := |done|], done)
  {
    assert done[..|done|] == done;
  }

  /** What a submit has asked for among `requests`, and what it has left alone. */
  ghost predicate Asked(before: map<Key, nat>, after: map<Key, nat>, requests: seq<Request>, at: nat)
  {
    && (forall r | r in requests :: r.key in after && after[r.key] == at)
    && (forall k | k in before && (forall r | r in requests :: r.key != k) :: k in after && after[k] == before[k])
  }

  lemma AskOne(before: map<Key, nat>, after: map<Key, nat>, requests: seq<Request>, i: nat, at: nat)
    requires i < |requests| && Asked(before, after, requests[..i], at)
    ensures Asked(before, after[requests[i].key := at], requests[..i + 1], at)
  {
    assert requests[..i + 1] == requests[..i] + [requests[i]];
    forall k | k in before && (forall r | r in requests[..i + 1] :: r.key != k)
      ensures k in after && k != requests[i].key && after[k] == before[k]
    {
      assert requests[i] in requests[..i + 1];
      assert forall r | r in requests[..i] :: r in requests[..i + 1];
    }
  }

  lemma RecordOne(completed: map<Key, Completion>, counts: map<Key, nat>, done: seq<Completion>, c: Completion)
    requires Recorded(completed, counts, done) && (c.key in completed ==> completed[c.key] == c)
    ensures Recorded(completed[c.key := c], counts[c.key := Get(counts, c.key, 0) + 1], done + [c])
  {
    forall k: Key ensures Get(counts[c.key := Get(counts, c.key, 0) + 1], k, 0) == Count(done + [c], k) {
      CountMore(done, c, k);
    }
  }

  /** The completion differs from one that was reported under its key. */
  ghost predicate Clashes(done: seq<Completion>, c: Completion)
  {
    exists d :: d in done && d.key == c.key && d != c
  }

  /** Completion `i` differs from one reported earlier, by this reply or before it. */
  ghost predicate ClashesAt(done: seq<Completion>, completed: seq<Completion>, i: nat)
  {
    i < |completed| && Clashes(done + completed[..i], completed[i])
  }

  /** The packets of a reply that are queued for node `t`. */
  function Forwarded(partition: set<(nat, nat)>, workers: seq<bool>, packets: seq<Packet>, t: nat): seq<Packet>
    requires |workers| == NODES
  {
    if packets == [] then []
    else
      var n := |packets| - 1;
      Forwarded(partition, workers, packets[..n], t) +
      if packets[n].target == t && (packets[n].source, t) !in partition && workers[t] then [packets[n]] else []
  }

  /** Packet `i` of the reply finds the queue of its target full. */
  ghost predicate Overflows(partition: set<(nat, nat)>, workers: seq<bool>, queues: seq<seq<Packet>>,
                            packets: seq<Packet>, i: nat)
    requires |workers| == |queues| == NODES
  {
    i < |packets| &&
    var t := packets[i].target;
    && (packets[i].source, t) !in partition && workers[t]
    && |queues[t]| + |Forwarded(partition, workers, packets[..i], t)| >= 4096
  }

  /** The queues with what the reply's packets add to them. */
  ghost predicate Extended(partition: set<(nat, nat)>, workers: seq<bool>, before: seq<seq<Packet>>,
                           packets: seq<Packet>, after: seq<seq<Packet>>)
    requires |workers| == |before| == NODES
  {
    |after| == NODES && forall t | 0 <= t < NODES :: after[t] == before[t] + Forwarded(partition, workers, packets, t)
  }

  lemma ExtendOne(partition: set<(nat, nat)>, workers: seq<bool>, before: seq<seq<Packet>>,
                  packets: seq<Packet>, i: nat, middle: seq<seq<Packet>>, after: seq<seq<Packet>>)
    requires |workers| == |before| == NODES && i < |packets|
    requires Extended(partition, workers, before, packets[..i], middle)
    requires var p := packets[i];
             after == if (p.source, p.target) in partition || !workers[p.target] then middle
                      else middle[p.target := middle[p.target] + [p]]
    ensures Extended(partition, workers, before, packets[..i + 1], after)
  {
    assert packets[..i + 1][..i] == packets[..i];
  }

  lemma RouteOne(partition: set<(nat, nat)>, workers: seq<bool>, packets: seq<Packet>, i: nat)
    requires |workers| == NODES && i < |packets|
    ensures Routes(partition, workers, packets[..i + 1]) ==
            Routes(partition, workers, packets[..i]) + [Route(partition, workers, packets[i])]
  {
  }

  lemma AcceptOne(routed: seq<Routed>, r: Routed, t: nat)
    ensures Accepted(routed + [r], t) == Accepted(routed, t) + if r.Queued? &&
            r.packet.target == t then [r.packet] else []
  {
    assert (routed + [r])[..|routed|] == routed;
  }

  lemma ConserveRoute(routed: seq<Routed>, history: seq<seq<Left>>, queues: seq<seq<Packet>>, r: Routed,
          after: seq<seq<Packet>>)
    requires Conserved(routed, history, queues)
    requires r.Queued? ==> after == queues[r.packet.target := queues[r.packet.target] + [r.packet]]
    requires !r.Queued? ==> after == queues
    ensures Conserved(routed + [r], history, after)
  {
    forall t | 0 <= t < NODES ensures Accepted(routed + [r], t) == Packets(history[t]) + after[t] {
      AcceptOne(routed, r, t);
      if r.Queued? && r.packet.target == t {
        assert Packets(history[t]) + (queues[t] + [r.packet]) == Packets(history[t]) + queues[t] + [r.packet];
      }
    }
  }

  /** Taking packets from the front of a queue keeps the account. */
  lemma ConserveTake(routed: seq<Routed>, history: seq<seq<Left>>, queues: seq<seq<Packet>>, t: nat, n: nat,
          out: seq<Left>)
    requires Conserved(routed, history, queues) && t < NODES && n <= |queues[t]|
    requires Packets(out) == queues[t][..n]
    ensures Conserved(routed, history[t := history[t] + out], queues[t := queues[t][n..]])
  {
    assert Packets(history[t] + out) == Packets(history[t]) + Packets(out);
    assert queues[t] == queues[t][..n] + queues[t][n..];
    assert Packets(history[t] + out) + queues[t][n..] == Packets(history[t]) + queues[t];
  }

  /** Each packet accepted for a node is in one place, and in its place: the packets that left
      the queue and then those still in it are the accepted ones in order. */
  lemma OnePlaceEach(routed: seq<Routed>, history: seq<seq<Left>>, queues: seq<seq<Packet>>, t: Node, i: nat)
    requires Conserved(routed, history, queues) && i < |Accepted(routed, t)|
    ensures |Accepted(routed, t)| == |history[t]| + |queues[t]|
    ensures Accepted(routed, t)[i] ==
            if i < |history[t]| then history[t][i].packet else queues[t][i - |history[t]|]
  {
    assert Accepted(routed, t) == Packets(history[t]) + queues[t];
  }

  /** Nothing is accepted that was not emitted and routed to that node. */
  lemma {:induction false} AcceptedWasRouted(routed: seq<Routed>, t: Node, i: nat) returns (k: nat)
    requires i < |Accepted(routed, t)|
    ensures i <= k < |routed| && routed[k] == Queued(Accepted(routed, t)[i]) && routed[k].packet.target == t
    ensures |Accepted(routed[..k], t)| == i
  {
    var n := |routed| - 1;
    var before := Accepted(routed[..n], t);
    if i < |before| {
      k := AcceptedWasRouted(routed[..n], t, i);
      assert routed[..n][..k] == routed[..k];
    } else {
      k := n;
      AcceptedIsShorter(routed[..n], t);
    }
  }

  lemma {:induction false} AcceptedIsShorter(routed: seq<Routed>, t: Node)
    ensures |Accepted(routed, t)| <= |routed|
  {
    if routed != [] { AcceptedIsShorter(routed[..|routed| - 1], t); }
  }

  /** A completed outcome never changes, until it is forgotten. */
  lemma OutcomesAreStable(completed: map<Key, Completion>, counts: map<Key, nat>, done: seq<Completion>, i: nat, j: nat)
    requires Recorded(completed, counts, done) && i < |done| && j < |done| && done[i].key == done[j].key
    ensures done[i] == done[j] == completed[done[i].key]
  {
    assert done[i] in done && done[j] in done;
  }

  /** The requests that `submit` gives to a node: every request goes to the next node in
      turn. */
  function Dealt(requests: seq<Request>, offset: nat, alive: seq<Node>, node: nat): seq<Request>
    requires alive != []
  {
    if requests == [] then []
    else
      var n := |requests| - 1;
      Dealt(requests[..n], offset, alive, node) +
      if alive[(n + offset) % |alive|] == node then [requests[n]] else []
  }

  lemma {:induction false} DealtOnce(requests: seq<Request>, offset: nat, alive: seq<Node>, r: Request)
    requires alive != []
    ensures multiset(Dealt(requests, offset, alive, 0))[r] + multiset(Dealt(requests, offset, alive, 1))[r]
            + multiset(Dealt(requests, offset, alive, 2))[r] == multiset(requests)[r]
  {
    if requests != [] {
      var n := |requests| - 1;
      assert requests == requests[..n] + [requests[n]];
      DealtOnce(requests[..n], offset, alive, r);
    }
  }

  /** The nodes take turns from the offset on: request `i` is given to the node whose turn it is,
      behind the earlier requests of that node. */
  lemma {:induction false} DealtInTurn(requests: seq<Request>, offset: nat, alive: seq<Node>, i: nat)
    requires alive != [] && i < |requests|
    ensures var node := alive[(i + offset) % |alive|];
            var place := |Dealt(requests[..i], offset, alive, node)|;
            place < |Dealt(requests, offset, alive, node)| && Dealt(requests, offset, alive, node)[place] == requests[i]
  {
    var n := |requests| - 1;
    if i < n {
      assert requests[..n][..i] == requests[..i];
      DealtInTurn(requests[..n], offset, alive, i);
    }
  }

  /** A round takes the replies of the three nodes in their order, those of stopped workers
      aside. */
  lemma RoundMeaning(partition: set<(nat, nat)>, workers: seq<bool>, replies: seq<Reply>)
    requires |workers| == |replies| == 3
    ensures Taken(partition, workers, replies, 3) ==
            (if workers[0] then Routes(partition, workers, replies[0].packets) else []) +
            (if workers[1] then Routes(partition, workers, replies[1].packets) else []) +
            (if workers[2] then Routes(partition, workers, replies[2].packets) else [])
    ensures Reported(workers, replies, 3) ==
            (if workers[0] then replies[0].completed else []) +
            (if workers[1] then replies[1].completed else []) +
            (if workers[2] then replies[2].completed else [])
  {
    assert Taken(partition, workers, replies, 0) == [] && Reported(workers, replies, 0) == [];
    assert Taken(partition, workers, replies, 1) ==
        if workers[0] then Routes(partition, workers, replies[0].packets) else [];
    assert Reported(workers, replies, 1) == if workers[0] then replies[0].completed else [];
  }

  /** No request is lost or given out twice. */
  lemma AllDealt(requests: seq<Request>, offset: nat, alive: seq<Node>)
    requires alive != []
    ensures multiset(requests) == multiset(Dealt(requests, offset, alive, 0)) + multiset(Dealt(requests, offset,
            alive, 1))
                                + multiset(Dealt(requests, offset, alive, 2))
  {
    forall r: Request
      ensures multiset(Dealt(requests, offset, alive, 0))[r] + multiset(Dealt(requests, offset, alive, 1))[r]
              + multiset(Dealt(requests, offset, alive, 2))[r] == multiset(requests)[r]
    {
      DealtOnce(requests, offset, alive, r);
    }
  }

  lemma Regroup<T>(a: seq<T>, b: seq<T>, c: seq<T>)
    ensures (a + b) + c == a + (b + c)
  {
  }

  // ------------------------------------------------------------------------- the controller

  class Cluster {
    var workers: seq<bool>
    var queues: seq<seq<Packet>>
    var partition: set<(nat, nat)>
    var completed: map<Key, Completion>
    var counts: map<Key, nat>
    var awaited: map<Key, nat>
    ghost var routed: seq<Routed>         // every packet ever emitted
    ghost var history: seq<seq<Left>>     // how packets left each queue
    ghost var done: seq<Completion>       // every completion reported since the last Forget
    ghost var submitted: map<Key, nat>    // how many there were at the latest submit

    ghost predicate Valid()
      reads this
    {
      && Bounded(workers, queues) && Conserved(routed, history, queues)
      && Recorded(completed, counts, done) && Awaited(awaited, submitted, done)
    }

    constructor ()
      ensures Valid() && workers == [true, true, true] && partition == {}
      ensures routed == [] && done == [] && queues == [[], [], []]
    {
      workers := [true, true, true];
      queues := [[], [], []];
      partition := {};
      completed, counts, awaited := map[], map[], map[];
      routed, history, done, submitted := [], [[], [], []], [], map[];
    }

    /** `start`: a new worker in the node's place; its queue is what it was. */
    method Start(node: nat)
      requires Valid() && node < NODES
      modifies this`workers
      ensures Valid() && workers == old(workers)[node := true]
    {
      workers := workers[node := true];
    }

    /** `stop`: whatever was queued for the node is dropped. */
    method Stop(node: nat)
      requires Valid() && node < NODES && workers[node]
      modifies this`workers, this`queues, this`history
      ensures Valid() && workers == old(workers)[node := false]
      ensures queues == old(queues)[node := []]
      ensures history == old(history)[node := old(history)[node] + AsDropped(old(queues)[node])]
    {
      workers := workers[node := false];
      assert queues[node][..|queues[node]|] == queues[node] && queues[node][|queues[node]|..] == [];
      ConserveTake(routed, history, queues, node, |queues[node]|, AsDropped(queues[node]));
      history := history[node := history[node] + AsDropped(queues[node])];
      queues := queues[node := []];
    }

    method SetPartition(links: set<(nat, nat)>)
      requires Valid()
      modifies this`partition
      ensures Valid() && partition == links
    {
      partition := links;
    }

    /** The first loop of `round`: every running worker is given the oldest packets of its
        queue. */
    method Hand() returns (given: seq<seq<Packet>>)
      requires Valid()
      modifies this`queues, this`history
      ensures Valid() && |given| == NODES
      ensures forall t | 0 <= t < NODES ::
                && |given[t]| == (if |old(queues)[t]| <= BATCH then |old(queues)[t]| else BATCH)
                && old(queues)[t] == given[t] + queues[t]
                && history[t] == old(history)[t] + AsDelivered(given[t])
    {
      given := [];
      var node := 0;
      while node < NODES
        invariant node <= NODES && |given| == node
        invariant Bounded(workers, queues) && Conserved(routed, history, queues)
        invariant forall t | node <= t < NODES :: queues[t] == old(queues)[t] && history[t] == old(history)[t]
        invariant forall t | 0 <= t < node ::
                    && |given[t]| == (if |old(queues)[t]| <= BATCH then |old(queues)[t]| else BATCH)
                    && old(queues)[t] == given[t] + queues[t]
                    && history[t] == old(history)[t] + AsDelivered(given[t])
      {
        var n := if |queues[node]| <= BATCH then |queues[node]| else BATCH;
        var incoming := queues[node][..n];
        ConserveTake(routed, history, queues, node, n, AsDelivered(incoming));
        history := history[node := history[node] + AsDelivered(incoming)];
        queues := queues[node := queues[node][n..]];
        given := given + [incoming];
        node := node + 1;
      }
    }

    /** One packet of a reply. */
    method Forward(p: Packet) returns (failure: Option<Failure>)
      requires Valid()
      modifies this`queues, this`routed
      ensures Valid()
      ensures failure.Some? <==>
                (p.source, p.target) !in partition && workers[p.target] && |old(queues)[p.target]| >= 4096
      ensures failure.Some? ==> failure == Some(QueueBudget) && routed == old(routed) && queues == old(queues)
      ensures failure.None? ==>
                && routed == old(routed) + [Route(partition, workers, p)]
                && if (p.source, p.target) in partition then
                     Route(partition, workers, p) == Partitioned(p) && queues == old(queues)
                   else if !workers[p.target] then
                     Route(partition, workers, p) == TargetDown(p) && queues == old(queues)
                   else
                     && Route(partition, workers, p) == Queued(p)
                     && queues == old(queues)[p.target := old(queues)[p.target] + [p]]
    {
      if (p.source, p.target) !in partition && workers[p.target] {
        if |queues[p.target]| >= BUDGET {
          return Some(QueueBudget);
        }
        queues := queues[p.target := queues[p.target] + [p]];
      }
      ConserveRoute(routed, history, old(queues), Route(partition, workers, p), queues);
      routed := routed + [Route(partition, workers, p)];
      failure := None;
    }

    /** One completion of a reply: a key that was reported before must be reported alike. */
    method Record(c: Completion) returns (failure: Option<Failure>)
      requires Valid()
      modifies this`completed, this`counts, this`done
      ensures Valid()
      ensures failure.None? ==> done == old(done) + [c]
      ensures failure.Some? ==> failure == Some(UnstableOutcome) && done == old(done)
      ensures failure.Some? <==> Clashes(old(done), c)
    {
      if c.key in completed && completed[c.key] != c {
        ReportedBefore(c.key);
        return Some(UnstableOutcome);
      }
      RecordOne(completed, counts, done, c);
      AwaitedStays(awaited, submitted, done, done + [c]);
      completed := completed[c.key := c];
      counts := counts[c.key := Get(counts, c.key, 0) + 1];
      done := done + [c];
      failure := None;
    }

    lemma ReportedBefore(k: Key)
      requires Valid() && k in completed
      ensures completed[k] in done && completed[k].key == k
    {
    }

    /** The second loop of `round` for one worker. */
    method Receive(reply: Reply) returns (failure: Option<Failure>)
      requires Valid()
      modifies this`queues, this`routed, this`completed, this`counts, this`done
      ensures Valid() && old(done) <= done && old(routed) <= routed
      ensures failure == Some(ReadFailed) <==> reply.sqlError
      ensures failure == Some(QueueBudget) <==>
                !reply.sqlError && exists i: nat :: Overflows(partition, workers, old(queues), reply.packets, i)
      ensures failure == Some(UnstableOutcome) <==>
                && !reply.sqlError
                && (forall i: nat :: !Overflows(partition, workers, old(queues), reply.packets, i))
                && exists i: nat :: ClashesAt(old(done), reply.completed, i)
      ensures failure.Some? ==> failure.value in {ReadFailed, QueueBudget, UnstableOutcome}
      ensures failure.None? ==>
                && routed == old(routed) + Routes(partition, workers, reply.packets)
                && Extended(partition, workers, old(queues), reply.packets, queues)
                && done == old(done) + reply.completed
    {
      if reply.sqlError {
        return Some(ReadFailed);
      }
      failure := ForwardAll(reply.packets);
      if failure.Some? {
        return;
      }
      failure := RecordAll(reply.completed);
    }

    /** The packets of a reply, in order, until one finds its queue full. */
    method ForwardAll(packets: seq<Packet>) returns (failure: Option<Failure>)
      requires Valid()
      modifies this`queues, this`routed
      ensures Valid() && old(routed) <= routed
      ensures failure.Some? <==> exists i: nat :: Overflows(partition, workers, old(queues), packets, i)
      ensures failure.Some? ==> failure == Some(QueueBudget)
      ensures failure.None? ==>
                && routed == old(routed) + Routes(partition, workers, packets)
                && Extended(partition, workers, old(queues), packets, queues)
    {
      ghost var before, log := queues, routed;
      var i := 0;
      while i < |packets|
        invariant i <= |packets| && Valid()
        invariant routed == log + Routes(partition, workers, packets[..i])
        invariant Extended(partition, workers, before, packets[..i], queues)
        invariant forall j: nat | j < i :: !Overflows(partition, workers, before, packets, j)
      {
        failure := ForwardNext(packets, i, before, log);
        if failure.Some? {
          return;
        }
        i := i + 1;
      }
      assert packets[..i] == packets;
      failure := None;
    }

    method ForwardNext(packets: seq<Packet>, i: nat, ghost before: seq<seq<Packet>>, ghost log: seq<Routed>)
      returns (failure: Option<Failure>)
      requires Valid() && i < |packets| && |before| == NODES
      requires routed == log + Routes(partition, workers, packets[..i])
      requires Extended(partition, workers, before, packets[..i], queues)
      modifies this`queues, this`routed
      ensures Valid() && log <= routed
      ensures failure.Some? <==> Overflows(partition, workers, before, packets, i)
      ensures failure.Some? ==> failure == Some(QueueBudget)
      ensures failure.None? ==>
                && routed == log + Routes(partition, workers, packets[..i + 1])
                && Extended(partition, workers, before, packets[..i + 1], queues)
    {
      ghost var middle, so := queues, Routes(partition, workers, packets[..i]);
      failure := Forward(packets[i]);
      if failure.None? {
        ExtendOne(partition, workers, before, packets, i, middle, queues);
        RouteOne(partition, workers, packets, i);
        Regroup(log, so, [Route(partition, workers, packets[i])]);
      }
    }

    method RecordAll(reported: seq<Completion>) returns (failure: Option<Failure>)
      requires Valid()
      modifies this`completed, this`counts, this`done
      ensures Valid() && old(done) <= done
      ensures failure.Some? <==> exists i: nat :: ClashesAt(old(done), reported, i)
      ensures failure.Some? ==> failure == Some(UnstableOutcome)
      ensures failure.None? ==> done == old(done) + reported
    {
      var i := 0;
      while i < |reported|
        invariant i <= |reported| && Valid()
        invariant done == old(done) + reported[..i]
        invariant forall j: nat | j < i :: !ClashesAt(old(done), reported, j)
      {
        failure := Record(reported[i]);
        if failure.Some? {
          assert ClashesAt(old(done), reported, i);
          return;
        }
        i := i + 1;
      }
      failure := None;
    }

    /** The second loop of `round`: the answers are taken in, node by node. */
    method Collect(replies: seq<Reply>) returns (failure: Option<Failure>)
      requires Valid() && |replies| == NODES
      modifies this`queues, this`routed, this`completed, this`counts, this`done
      ensures Valid() && old(done) <= done && old(routed) <= routed
      ensures failure.None? ==>
                && routed == old(routed) + Taken(partition, workers, replies, NODES)
                && done == old(done) + Reported(workers, replies, NODES)
    {
      failure := None;
      var node := 0;
      while node < NODES
        invariant node <= NODES && Valid() && failure == None
        invariant routed == old(routed) + Taken(partition, workers, replies, node)
        invariant done == old(done) + Reported(workers, replies, node)
      {
        if workers[node] {
          failure := Receive(replies[node]);
          if failure.Some? {
            return;
          }
          Regroup(old(routed), Taken(partition, workers, replies, node), Routes(partition, workers,
                  replies[node].packets));
          Regroup(old(done), Reported(workers, replies, node), replies[node].completed);
        }
        node := node + 1;
      }
    }

    /** `round`: packets are handed out first, then the answers are taken in. */
    method Round(replies: seq<Reply>) returns (failure: Option<Failure>, given: seq<seq<Packet>>)
      requires Valid() && |replies| == NODES
      modifies this`queues, this`history, this`routed, this`completed, this`counts, this`done
      ensures Valid() && old(done) <= done && old(routed) <= routed
      ensures |given| == NODES
      ensures forall t | 0 <= t < NODES ::
                && given[t] == old(queues)[t][..if |old(queues)[t]| <= 128 then |old(queues)[t]| else 128]
                && history[t] == old(history)[t] + AsDelivered(given[t])
      ensures failure.None? ==>
                && routed == old(routed) + Taken(partition, workers, replies, NODES)
                && done == old(done) + Reported(workers, replies, NODES)
    {
      given := Hand();
      failure := Collect(replies);
    }

    /** The round after which `settle` looks again. */
    predicate Settled(keys: set<Key>)
      reads this
    {
      && (forall k | k in keys :: Get(counts, k, 0) >= Get(awaited, k, 1))
      && (forall q | q in queues :: q == [])
    }

    /** `settle`: success means that every request was completed after it was last submitted,
        and that nothing is under way. */
    method Settle(keys: set<Key>, replies: seq<seq<Reply>>) returns (failure: Option<Failure>)
      requires Valid() && forall r | r in replies :: |r| == NODES
      modifies this`queues, this`history, this`routed, this`completed, this`counts, this`done
      ensures Valid() && old(done) <= done && old(routed) <= routed
      ensures failure.None? ==> Settled(keys)
      ensures old(Settled(keys)) && replies != [] ==>
                failure.None? && done == old(done) && routed == old(routed) && queues == old(queues)
      ensures failure.None? ==>
                && queues == [[], [], []]
                && forall k | k in keys ::
                     exists i :: Get(submitted, k, 0) <= i < |done| && done[i].key == k && completed[k] == done[i]
    {
      var attempt := 0;
      while attempt < |replies|
        invariant attempt <= |replies| && Valid() && old(done) <= done && old(routed) <= routed
        invariant old(Settled(keys)) ==> attempt == 0
        invariant attempt == 0 ==> done == old(done) && routed == old(routed) && queues == old(queues)
        invariant attempt == 0 ==> counts == old(counts)
      {
        if Settled(keys) {
          assert queues[0] in queues && queues[1] in queues && queues[2] in queues;
          forall k | k in keys
            ensures exists i :: Get(submitted, k, 0) <= i < |done| && done[i].key == k && completed[k] == done[i]
          {
            CompletedSince(k);
          }
          return None;
        }
        var given;
        failure, given := Round(replies[attempt]);
        if failure.Some? {
          return;
        }
        attempt := attempt + 1;
      }
      failure := Some(NotSettled);
    }

    lemma CompletedSince(k: Key)
      requires Valid() && Get(counts, k, 0) >= Get(awaited, k, 1)
      ensures k in completed
      ensures exists i :: Get(submitted, k, 0) <= i < |done| && done[i].key == k && completed[k] == done[i]
    {
      var at := Get(submitted, k, 0);
      if k !in awaited { assert done[..0] == []; }
      var i := OneSince(done, at, k);
      assert done[i] in done;
    }

    /** The first loop of `submit`: from now on one more completion of each is awaited. */
    method Await(requests: seq<Request>)
      requires Valid()
      modifies this`awaited, this`submitted
      ensures Valid()
      ensures Asked(old(submitted), submitted, requests, |done|)
    {
      var i := 0;
      while i < |requests|
        invariant i <= |requests| && Valid()
        invariant Asked(old(submitted), submitted, requests[..i], |done|)
      {
        var key := requests[i].key;
        AwaitOne(awaited, submitted, done, key);
        AskOne(old(submitted), submitted, requests, i, |done|);
        awaited := awaited[key := Get(counts, key, 0) + 1];
        submitted := submitted[key := |done|];
        i := i + 1;
      }
      assert requests[..i] == requests;
    }

    /** `forget_completed`: what was reported before is neither kept nor compared any more. */
    method Forget()
      requires Valid()
      modifies this`completed, this`counts, this`awaited, this`done, this`submitted
      ensures Valid() && completed == map[] && counts == map[] && awaited == map[]
      ensures done == [] && submitted == map[]
    {
      completed, counts, awaited := map[], map[], map[];
      done, submitted := [], map[];
    }

    /** `submit` */
    method Submit(requests: seq<Request>, offset: nat, alive: seq<Node>, replies: seq<Reply>)
      returns (failure: Option<Failure>, groups: seq<seq<Request>>)
      requires Valid() && alive != [] && |replies| == NODES
      modifies this`queues, this`history, this`routed, this`completed, this`counts, this`done, this`awaited,
              this`submitted
      ensures Valid() && old(done) <= done && old(routed) <= routed
      ensures groups == [Dealt(requests, offset, alive, 0), Dealt(requests, offset, alive, 1), Dealt(requests,
              offset, alive, 2)]
      ensures forall r | r in requests :: r.key in submitted && submitted[r.key] == |old(done)|
      ensures failure.None? ==>
                done == old(done) + Reported(workers, replies, NODES) && AllTaken(workers, groups, replies)
    {
      Await(requests);
      groups := Deal(requests, offset, alive);
      var given;
      failure, given := Round(replies);
      if failure.Some? {
        return;
      }
      failure := Rejected(workers, groups, replies);
    }
  }

  /** The last loop of `submit`: every node that was given requests took them all. */
  method Rejected(workers: seq<bool>, groups: seq<seq<Request>>, replies: seq<Reply>) returns (failure: Option<Failure>)
    requires |workers| == |groups| == |replies| == NODES
    ensures failure.None? <==> AllTaken(workers, groups, replies)
    ensures failure.Some? ==>
              exists t | 0 <= t < NODES ::
                && groups[t] != []
                && failure == Some(if workers[t] then Backpressure else NoSuchWorker)
                && (workers[t] ==> replies[t].accepted != |groups[t]| || replies[t].backpressure)
  {
    var node := 0;
    while node < NODES
      invariant node <= NODES
      invariant forall t | 0 <= t < node && groups[t] != [] ::
                  workers[t] && replies[t].accepted == |groups[t]| && !replies[t].backpressure
    {
      if groups[node] != [] {
        if !workers[node] {
          return Some(NoSuchWorker);
        }
        if replies[node].accepted != |groups[node]| || replies[node].backpressure {
          return Some(Backpressure);
        }
      }
      node := node + 1;
    }
    failure := None;
  }

  predicate AllTaken(workers: seq<bool>, groups: seq<seq<Request>>, replies: seq<Reply>)
    requires |workers| == |groups| == |replies| == NODES
  {
    forall t | 0 <= t < NODES && groups[t] != [] ::
      workers[t] && replies[t].accepted == |groups[t]| && !replies[t].backpressure
  }

  /** The second loop of `submit`. */
  method Deal(requests: seq<Request>, offset: nat, alive: seq<Node>) returns (groups: seq<seq<Request>>)
    requires alive != []
    ensures groups == [Dealt(requests, offset, alive, 0), Dealt(requests, offset, alive, 1), Dealt(requests,
            offset, alive, 2)]
  {
    groups := [[], [], []];
    var i := 0;
    while i < |requests|
      invariant i <= |requests| && |groups| == NODES
      invariant forall t | 0 <= t < NODES :: groups[t] == Dealt(requests[..i], offset, alive, t)
    {
      var node := alive[(i + offset) % |alive|];
      assert requests[..i + 1][..i] == requests[..i];
      groups := groups[node := groups[node] + [requests[i]]];
      i := i + 1;
    }
    assert requests[..i] == requests;
  }
}
