/** The group-commit worker: one thread takes waiting requests from a bounded queue and runs
    them as one transaction; the producers only ever put.  Producers may put at any moment,
    also while a group is being collected. */
module GroupCommit {
  import opened Common
  import opened Division

  type Db(==, !new)
  type Text(==, !new)

  /** A statement may fail, and so may the commit of a transaction. */
  datatype Engine = Engine(exec: (Db, Text) -> Option<Db>, commits: (Db, Db) -> bool)

  datatype Request = Request(text: Text, write: bool, id: nat)

  datatype Item = Job(request: Request) | Sentinel

  datatype Group = Group(requests: nat, writes: nat)

  /** `ok` stands for a result of None. */
  datatype Answer = Answer(request: Request, ok: bool)

  const CAPACITY: nat := 64

  // ------------------------------------------------------------------------ what a group does

  /** The statements in order, up to the first that fails. */
  function RunTexts(e: Engine, db: Db, group: seq<Request>): (Db, bool)
  {
    if group == [] then (db, true)
    else
      var n := |group| - 1;
      var (before, ok) := RunTexts(e, db, group[..n]);
      if !ok then (before, false)
      else match e.exec(before, group[n].text)
        case None => (before, false)
        case Some(after) => (after, true)
  }

  predicate Writing(group: seq<Request>)
  {
    exists r | r in group :: r.write
  }

  /** A writing group happens as a whole or not at all. */
  function RunGroup(e: Engine, db: Db, group: seq<Request>): (Db, bool)
  {
    var (after, ok) := RunTexts(e, db, group);
    if !Writing(group) then (after, ok)
    else if ok && e.commits(db, after) then (after, true)
    else (db, false)
  }

  function Writes(group: seq<Request>): nat
  {
    if group == [] then 0 else Writes(group[..|group| - 1]) + if group[|group| - 1].write then 1 else 0
  }

  function Answers(group: seq<Request>, ok: bool): (r: seq<Answer>)
    ensures |r| == |group| && forall i | 0 <= i < |r| :: r[i] == Answer(group[i], ok)
  {
    seq(|group|, i requires 0 <= i < |group| => Answer(group[i], ok))
  }

  // --------------------------------------------------------------- what a list of groups does

  function Replay(e: Engine, db: Db, log: seq<seq<Request>>): Db
  {
    if log == [] then db else RunGroup(e, Replay(e, db, log[..|log| - 1]), log[|log| - 1]).0
  }

  function Answered(e: Engine, db: Db, log: seq<seq<Request>>): seq<Answer>
  {
    if log == [] then []
    else
      var n := |log| - 1;
      Answered(e, db, log[..n]) + Answers(log[n], RunGroup(e, Replay(e, db, log[..n]), log[n]).1)
  }

  function Sizes(log: seq<seq<Request>>): (r: seq<Group>)
    ensures |r| == |log| && forall i | 0 <= i < |r| :: r[i] == Group(|log[i]|, Writes(log[i]))
  {
    seq(|log|, i requires 0 <= i < |log| => Group(|log[i]|, Writes(log[i])))
  }

  function Flat(log: seq<seq<Request>>): seq<Request>
  {
    if log == [] then [] else Flat(log[..|log| - 1]) + log[|log| - 1]
  }

  function Jobs(requests: seq<Request>): (r: seq<Item>)
    ensures |r| == |requests| && forall i | 0 <= i < |r| :: r[i] == Job(requests[i])
  {
    seq(|requests|, i requires 0 <= i < |requests| => Job(requests[i]))
  }

  function TotalRequests(groups: seq<Group>): nat
  {
    if groups == [] then 0 else TotalRequests(groups[..|groups| - 1]) + groups[|groups| - 1].requests
  }

  /** Group sizes add up to the requests answered, and each request is answered once, in
      order. */
  lemma {:induction false} AnsweredOnceEach(e: Engine, db: Db, log: seq<seq<Request>>)
    ensures |Answered(e, db, log)| == |Flat(log)| == TotalRequests(Sizes(log))
    ensures forall i | 0 <= i < |Flat(log)| :: Answered(e, db, log)[i].request == Flat(log)[i]
  {
    if log != [] {
      var n := |log| - 1;
      AnsweredOnceEach(e, db, log[..n]);
      assert Sizes(log)[..n] == Sizes(log[..n]);
    }
  }

  lemma Regroup<T>(a: seq<T>, b: seq<T>, c: seq<T>)
    ensures (a + b) + c == a + (b + c)
  {
  }

  lemma {:induction false} FailsForGood(e: Engine, db: Db, group: seq<Request>, i: nat)
    requires i <= |group| && !RunTexts(e, db, group[..i]).1
    ensures RunTexts(e, db, group) == RunTexts(e, db, group[..i])
  {
    if i == |group| {
      assert group[..i] == group;
    } else {
      assert group[..|group| - 1][..i] == group[..i];
      FailsForGood(e, db, group[..|group| - 1], i);
    }
  }

  // -------------------------------------------------- a group, statement by statement

  /** The databases between the statements, each of which succeeds. */
  ghost predicate Chain(e: Engine, group: seq<Request>, dbs: seq<Db>)
  {
    && |dbs| == |group| + 1
    && forall i | 0 <= i < |group| :: e.exec(dbs[i], group[i].text) == Some(dbs[i + 1])
  }

  /** The group succeeds into `after`: every statement does, and so does the commit if one of
      the requests writes. */
  ghost predicate Succeeds(e: Engine, before: Db, group: seq<Request>, after: Db)
  {
    exists dbs ::
      && Chain(e, group, dbs) && dbs[0] == before && dbs[|group|] == after
      && ((exists i :: 0 <= i < |group| && group[i].write) ==> e.commits(before, after))
  }

  /** Some statement is the first that fails, on `after`. */
  ghost predicate StopsAt(e: Engine, before: Db, group: seq<Request>, after: Db)
  {
    exists k, dbs :: StopsBehind(e, before, group, after, k, dbs)
  }

  ghost predicate StopsBehind(e: Engine, before: Db, group: seq<Request>, after: Db, k: nat, dbs: seq<Db>)
  {
    && k < |group| && Chain(e, group[..k], dbs) && dbs[0] == before && dbs[k] == after
    && e.exec(after, group[k].text) == None
  }

  lemma {:induction false} TextsChain(e: Engine, before: Db, group: seq<Request>) returns (dbs: seq<Db>, k: nat)
    ensures k <= |group| && Chain(e, group[..k], dbs) && dbs[0] == before
    ensures RunTexts(e, before, group) == (dbs[k], k == |group|)
    ensures k < |group| ==> e.exec(dbs[k], group[k].text) == None
  {
    if group == [] {
      dbs, k := [before], 0;
    } else {
      var n := |group| - 1;
      dbs, k := TextsChain(e, before, group[..n]);
      assert group[..n][..k] == group[..k];
      if k == n && e.exec(dbs[n], group[n].text).Some? {
        dbs := dbs + [e.exec(dbs[n], group[n].text).value];
        k := n + 1;
        assert group[..k] == group;
      }
    }
  }

  lemma {:induction false} ChainTexts(e: Engine, group: seq<Request>, dbs: seq<Db>)
    requires Chain(e, group, dbs)
    ensures RunTexts(e, dbs[0], group) == (dbs[|group|], true)
  {
    if group != [] {
      var n := |group| - 1;
      ChainTexts(e, group[..n], dbs[..n + 1]);
    }
  }

  /** A group succeeds exactly if all its statements do, in order, and its commit if it writes.
      A group that writes leaves no trace otherwise, and one that only reads what the statements
      before the failing one left. */
  lemma GroupMeaning(e: Engine, before: Db, group: seq<Request>, after: Db)
    ensures RunGroup(e, before, group) == (after, true) <==> Succeeds(e, before, group, after)
    ensures RunGroup(e, before, group) == (after, false) <==>
            && (forall d :: !Succeeds(e, before, group, d))
            && (if exists i :: 0 <= i < |group| && group[i].write then after == before
                else StopsAt(e, before, group, after))
  {
    WritingMeaning(group);
    var dbs, k := TextsChain(e, before, group);
    if k == |group| {
      assert group[..k] == group;
      if !Writing(group) || e.commits(before, dbs[k]) { assert Succeeds(e, before, group, dbs[k]); }
    } else {
      assert StopsBehind(e, before, group, dbs[k], k, dbs);
    }
    forall d | Succeeds(e, before, group, d) ensures RunGroup(e, before, group) == (d, true) {
      var all :| Chain(e, group, all) && all[0] == before && all[|group|] == d;
      ChainTexts(e, group, all);
    }
    forall d | StopsAt(e, before, group, d) ensures k < |group| && d == dbs[k] {
      StopsOnce(e, before, group, d);
    }
  }

  lemma StopsOnce(e: Engine, before: Db, group: seq<Request>, after: Db)
    requires StopsAt(e, before, group, after)
    ensures RunTexts(e, before, group) == (after, false)
  {
    var k: nat, dbs :| StopsBehind(e, before, group, after, k, dbs);
    ChainTexts(e, group[..k], dbs);
    assert group[..k + 1][..k] == group[..k];
    FailsForGood(e, before, group, k + 1);
  }

  lemma WritingMeaning(group: seq<Request>)
    ensures Writing(group) <==> exists i :: 0 <= i < |group| && group[i].write
  {
    if Writing(group) {
      var r :| r in group && r.write;
      var i :| 0 <= i < |group| && group[i] == r;
      assert group[i].write;
    }
    forall i | 0 <= i < |group| && group[i].write ensures Writing(group) {
      assert group[i] in group;
    }
  }

  /** The number of requests that write. */
  lemma {:induction false} WritesMeaning(group: seq<Request>)
    ensures Writes(group) == |set i | 0 <= i < |group| && group[i].write|
  {
    if group != [] {
      var n := |group| - 1;
      WritesMeaning(group[..n]);
      var before := set i | 0 <= i < |group[..n]| && group[..n][i].write;
      var all := set i | 0 <= i < |group| && group[i].write;
      assert all == before + if group[n].write then {n} else {};
    }
  }

  // ---------------------------------------------------------------- serial FIFO execution

  lemma {:induction false} RunTextsConcat(e: Engine, db: Db, x: seq<Request>, y: seq<Request>)
    requires RunTexts(e, db, x).1
    ensures RunTexts(e, db, x + y) == RunTexts(e, RunTexts(e, db, x).0, y)
  {
    if y == [] {
      assert x + y == x;
    } else {
      var all, n := x + y, |y| - 1;
      assert all[..|all| - 1] == x + y[..n];
      RunTextsConcat(e, db, x, y[..n]);
    }
  }

  lemma {:induction false} PrefixSucceeds(e: Engine, db: Db, x: seq<Request>, y: seq<Request>)
    requires RunTexts(e, db, x + y).1
    ensures RunTexts(e, db, x).1
  {
    if y == [] {
      assert x + y == x;
    } else {
      var all, n := x + y, |y| - 1;
      assert all[..|all| - 1] == x + y[..n];
      PrefixSucceeds(e, db, x, y[..n]);
    }
  }

  /** With valid requests grouping is invisible: the database is the one that the requests
      make one by one in the order they were put, and every answer is a success. */
  lemma {:induction false} GroupingIsSerial(e: Engine, db: Db, log: seq<seq<Request>>)
    requires RunTexts(e, db, Flat(log)).1 && forall a, b :: e.commits(a, b)
    ensures Replay(e, db, log) == RunTexts(e, db, Flat(log)).0
    ensures forall a | a in Answered(e, db, log) :: a.ok
  {
    if log != [] {
      var n := |log| - 1;
      PrefixSucceeds(e, db, Flat(log[..n]), log[n]);
      GroupingIsSerial(e, db, log[..n]);
      RunTextsConcat(e, db, Flat(log[..n]), log[n]);
      var last := Answers(log[n], RunGroup(e, Replay(e, db, log[..n]), log[n]).1);
      forall a | a in Answered(e, db, log) ensures a.ok {
        if a !in Answered(e, db, log[..n]) { assert a in last; }
      }
    }
  }

  /** Where the answers of a group stand among all answers, and that they are all alike. */
  lemma {:induction false} GroupAnswers(e: Engine, db: Db, log: seq<seq<Request>>, k: nat, i: nat)
    requires k < |log| && i < |log[k]|
    ensures |Flat(log[..k])| + i < |Answered(e, db, log)|
    ensures Answered(e, db, log)[|Flat(log[..k])| + i] ==
            Answer(log[k][i], RunGroup(e, Replay(e, db, log[..k]), log[k]).1)
  {
    var n := |log| - 1;
    var before, last := Answered(e, db, log[..n]), Answers(log[n], RunGroup(e, Replay(e, db, log[..n]), log[n]).1);
    assert Answered(e, db, log) == before + last;
    AnsweredOnceEach(e, db, log[..n]);
    if k < n {
      assert log[..n][..k] == log[..k];
      GroupAnswers(e, db, log[..n], k, i);
    } else {
      assert (before + last)[|before| + i] == last[i];
    }
  }

  /** One failure told in a writing group: all of the group were told of it, and it left no
      trace. */
  lemma FailureIsShared(e: Engine, db: Db, log: seq<seq<Request>>, k: nat, i: nat)
    requires k < |log| && Writing(log[k]) && i < |log[k]|
    requires var at := |Flat(log[..k])|; at + i < |Answered(e, db, log)| && !Answered(e, db, log)[at + i].ok
    ensures Replay(e, db, log[..k + 1]) == Replay(e, db, log[..k])
    ensures var at := |Flat(log[..k])|;
            && at + |log[k]| <= |Answered(e, db, log)|
            && forall j | 0 <= j < |log[k]| :: Answered(e, db, log)[at + j] == Answer(log[k][j], false)
  {
    GroupAnswers(e, db, log, k, i);
    GroupAnswers(e, db, log, k, |log[k]| - 1);
    assert log[..k + 1] == log[..k] + [log[k]];
    ReplayMore(e, db, log[..k], log[k]);
    forall j | 0 <= j < |log[k]|
      ensures Answered(e, db, log)[|Flat(log[..k])| + j] == Answer(log[k][j], false)
    {
      GroupAnswers(e, db, log, k, j);
    }
  }

  lemma GroupsStayBounded(log: seq<seq<Request>>, group: seq<Request>, limit: nat)
    requires (forall g | g in log :: 1 <= |g| <= limit) && 1 <= |group| <= limit
    ensures forall g | g in log + [group] :: 1 <= |g| <= limit
  {
  }

  lemma FlatMore(log: seq<seq<Request>>, group: seq<Request>)
    ensures Flat(log + [group]) == Flat(log) + group
  {
    assert (log + [group])[..|log|] == log;
  }

  lemma ReplayMore(e: Engine, db: Db, log: seq<seq<Request>>, group: seq<Request>)
    ensures var (after, ok) := RunGroup(e, Replay(e, db, log), group);
            && Replay(e, db, log + [group]) == after
            && Answered(e, db, log + [group]) == Answered(e, db, log) + Answers(group, ok)
    ensures Flat(log + [group]) == Flat(log) + group
    ensures Sizes(log + [group]) == Sizes(log) + [Group(|group|, Writes(group))]
  {
    assert (log + [group])[..|log|] == log;
  }

  // ------------------------------------------------------------------------------ the worker

  datatype Status = Serving | Ended | Died

  class GroupReference {
    const engine: Engine
    const maximum: nat
    var db: Db
    var queue: seq<Item>
    var groups: seq<Group>
    var answers: seq<Answer>
    ghost const start: Db
    ghost var put: seq<Item>
    ghost var log: seq<seq<Request>>

    /** The first request of a group is taken whatever the maximum is. */
    function Limit(): nat
    {
      if maximum == 0 then 1 else maximum
    }

    ghost predicate Served()
      reads this
    {
      && db == Replay(engine, start, log) && answers == Answered(engine, start, log) && groups == Sizes(log)
      && |queue| <= CAPACITY
      && forall g | g in log :: 1 <= |g| <= Limit()
    }

    /** At the head of the worker's loop: everything put was answered or is still waiting. */
    ghost predicate Valid()
      reads this
    {
      Served() && put == Jobs(Flat(log)) + queue
    }

    constructor (engine: Engine, db: Db, maximum: nat)
      ensures Valid() && queue == [] && put == [] && this.db == db && start == db
      ensures this.engine == engine && this.maximum == maximum
    {
      this.engine, this.maximum, this.db := engine, maximum, db;
      queue, groups, answers := [], [], [];
      start, put, log := db, [], [];
    }

    /** `queue.put` with room in the queue. */
    method Put(item: Item)
      requires Valid() && |queue| < CAPACITY
      modifies this`queue, this`put
      ensures Valid() && queue == old(queue) + [item] && put == old(put) + [item]
    {
      Regroup(Jobs(Flat(log)), queue, [item]);
      queue := queue + [item];
      put := put + [item];
    }

    /** The producers put what they have; a full queue makes them wait. */
    method Arrive(items: seq<Item>) returns (ghost arrived: seq<Item>)
      requires |queue| <= CAPACITY
      modifies this`queue, this`put
      ensures |queue| <= CAPACITY && arrived <= items
      ensures queue == old(queue) + arrived && put == old(put) + arrived
      ensures |old(queue)| + |items| <= CAPACITY ==> arrived == items
    {
      var n := if |items| <= CAPACITY - |queue| then |items| else CAPACITY - |queue|;
      arrived := items[..n];
      queue := queue + items[..n];
      put := put + arrived;
    }

    /** Collecting a group: `arrivals(i)` is put before the i-th further request is asked for. */
    method Collect(first: Item, arrivals: nat -> seq<Item>) returns (group: seq<Item>, ghost arrived: seq<Item>)
      requires |queue| <= CAPACITY
      modifies this`queue, this`put
      ensures |queue| <= CAPACITY && 1 <= |group| <= Limit() && group[0] == first
      ensures [first] + old(queue) + arrived == group + queue && put == old(put) + arrived
      ensures (forall i :: arrivals(i) == []) ==>
                && arrived == []
                && |group| == if 1 + |old(queue)| <= Limit() then 1 + |old(queue)| else Limit()
    {
      group, arrived := [first], [];
      while |group| < maximum
        invariant |queue| <= CAPACITY && 1 <= |group| <= Limit() && group[0] == first
        invariant [first] + old(queue) + arrived == group + queue && put == old(put) + arrived
        invariant (forall i :: arrivals(i) == []) ==> arrived == []
        decreases maximum - |group|
      {
        ghost var waiting := queue;
        ghost var more := Arrive(arrivals(|group|));
        Regroup([first] + old(queue), arrived, more);
        Regroup(group, waiting, more);
        arrived := arrived + more;
        if queue == [] {
          break;
        }
        group := group + [queue[0]];
        queue := queue[1..];
      }
    }

    /** The transaction of a group: it succeeds exactly if every statement does, and the commit
        if some request writes; a failed writing group leaves the database as it was. */
    method Execute(group: seq<Request>) returns (ok: bool)
      modifies this`db
      ensures (db, ok) == RunGroup(engine, old(db), group)
      ensures if ok then Succeeds(engine, old(db), group, db)
              else
                && (forall d :: !Succeeds(engine, old(db), group, d))
                && (if exists i :: 0 <= i < |group| && group[i].write then db == old(db)
                    else StopsAt(engine, old(db), group, db))
    {
      ghost var before := db;
      var writing, saved := Writing(group), db;
      var i := 0;
      ok := true;
      while i < |group| && ok
        invariant i <= |group| && (ok ==> RunTexts(engine, old(db), group[..i]) == (db, true))
        invariant !ok ==> RunTexts(engine, old(db), group) == (db, false)
        decreases |group| - i, ok
      {
        assert group[..i + 1][..i] == group[..i];
        var next := engine.exec(db, group[i].text);
        if next.None? {
          FailsForGood(engine, old(db), group, i + 1);
          ok := false;
        } else {
          db := next.value;
          i := i + 1;
        }
      }
      assert ok ==> group[..i] == group;
      if writing && ok && !engine.commits(saved, db) {
        ok := false;
      }
      if writing && !ok {
        db := saved;
      }
      GroupMeaning(engine, before, group, db);
    }

    /** A group of requests: run, counted, and only then answered, all alike. */
    method Finish(requests: seq<Request>) returns (ok: bool)
      requires Served() && 1 <= |requests| <= Limit()
      modifies this`db, this`groups, this`answers, this`log
      ensures Served() && log == old(log) + [requests]
      ensures answers == old(answers) + Answers(requests, ok)
      ensures ok <==> Succeeds(engine, old(db), requests, db)
      ensures !ok ==> forall d :: !Succeeds(engine, old(db), requests, d)
      ensures !ok && (exists i :: 0 <= i < |requests| && requests[i].write) ==> db == old(db)
    {
      ghost var was := log;
      ok := Execute(requests);
      log := log + [requests];
      groups := groups + [Group(|requests|, Writes(requests))];
      answers := answers + Answers(requests, ok);
      ReplayMore(engine, start, was, requests);
      GroupsStayBounded(was, requests, Limit());
    }

    /** Each request of the `k`-th group was told of a success exactly if the group succeeded on
        the database that the groups before it had left, and then that is what came of it. */
    lemma AnswerMeaning(k: nat, i: nat)
      requires Served() && k < |log| && i < |log[k]|
      ensures var before, after := Replay(engine, start, log[..k]), Replay(engine, start, log[..k + 1]);
              var at := |Flat(log[..k])| + i;
              && at < |answers| && answers[at].request == log[k][i]
              && (answers[at].ok <==> Succeeds(engine, before, log[k], after))
              && (answers[at].ok <==> exists d :: Succeeds(engine, before, log[k], d))
    {
      var before, after := Replay(engine, start, log[..k]), Replay(engine, start, log[..k + 1]);
      GroupAnswers(engine, start, log, k, i);
      assert log[..k + 1] == log[..k] + [log[k]];
      ReplayMore(engine, start, log[..k], log[k]);
      GroupMeaning(engine, before, log[k], after);
    }

    /** If any request of a writing group was told of a failure, all of them were, and the
        group left no trace. */
    lemma FailedGroup(k: nat, i: nat)
      requires Served() && k < |log| && Writing(log[k]) && i < |log[k]|
      requires var at := |Flat(log[..k])|; at + i < |answers| && !answers[at + i].ok
      ensures Replay(engine, start, log[..k + 1]) == Replay(engine, start, log[..k])
      ensures var at := |Flat(log[..k])|;
              && at + |log[k]| <= |answers|
              && forall j | 0 <= j < |log[k]| :: answers[at + j] == Answer(log[k][j], false)
    {
      FailureIsShared(engine, start, log, k, i);
    }

    /** One turn of the worker's loop.  A sentinel behind the first place is no request: the
        worker fails on it, undoing what the group had done, and nobody in the group is
        answered. */
    method ServeOnce(arrivals: nat -> seq<Item>) returns (status: Status, ghost taken: seq<Item>,
            ghost arrived: seq<Item>)
      requires Valid() && queue != []
      modifies this
      ensures Served() && put == old(put) + arrived
      ensures old(queue) + arrived == taken + queue
      ensures 1 <= |taken| <= Limit() && taken[0] == old(queue)[0]
      ensures status == Serving <==> Sentinel !in taken
      ensures status == Ended <==> taken[0] == Sentinel
      ensures status == Serving ==>
                && Valid() && taken == Jobs(Requests(taken)) && log == old(log) + [Requests(taken)]
      ensures status != Serving ==>
                && log == old(log) && db == old(db) && answers == old(answers) && groups == old(groups)
                && put == Jobs(Flat(log)) + taken + queue
      ensures (forall i :: arrivals(i) == []) ==>
                && arrived == []
                && (taken[0] != Sentinel ==> |taken| == if |old(queue)| <= Limit() then |old(queue)| else Limit())
    {
      var first := queue[0];
      ghost var before := queue;
      queue := queue[1..];
      assert before == [first] + queue;
      arrived := [];
      if first == Sentinel {
        taken := [first];
        Regroup(Jobs(Flat(log)), taken, queue);
        return Ended, taken, arrived;
      }
      var group;
      group, arrived := Collect(first, arrivals);
      taken := group;
      Regroup(Jobs(Flat(log)), before, arrived);
      Regroup(Jobs(Flat(log)), group, queue);
      if Sentinel in group {
        return Died, taken, arrived;
      }
      JobsOfRequests(group);
      ReplayMore(engine, start, log, Requests(group));
      JobsConcat(Flat(log), Requests(group));
      ghost var requests := Requests(group);
      var ok := Finish(Requests(group));
      assert Flat(log) == Flat(old(log)) + requests;
      status := Serving;
    }

    /** `close`, from the head of the worker's loop: the sentinel goes in behind whatever is
        outstanding, and the worker runs until it ends one way or the other.  It ends cleanly
        exactly when full groups use up what was outstanding; with nothing outstanding it
        always does.  Otherwise the last requests are never answered. */
    method Close(ghost outstanding: seq<Request>)
      returns (status: Status, ghost served: seq<Request>, ghost lost: seq<Request>)
      requires Valid() && queue == Jobs(outstanding) && |queue| < CAPACITY
      modifies this
      ensures Served() && (status == Ended || status == Died)
      ensures status == Ended <==> Leftover(|outstanding|, Limit()) == 0
      ensures outstanding == served + lost && |lost| == Leftover(|outstanding|, Limit())
      ensures Flat(log) == Flat(old(log)) + served
    {
      ghost var flat := Flat(log);
      served, lost := [], outstanding;
      Put(Sentinel);
      status := Serving;
      while status == Serving
        invariant Served() && outstanding == served + lost && Flat(log) == flat + served
        invariant status == Serving ==> Valid() && queue == Jobs(lost) + [Sentinel]
        invariant Leftover(|outstanding|, Limit()) == Leftover(|lost|, Limit())
        invariant status != Serving ==> |lost| < Limit() && (status == Ended <==> lost == [])
        decreases |lost|, status == Serving
      {
        ghost var taken, later;
        status, taken, later := Turn(lost);
        Regroup(served, taken, later);
        Regroup(flat, served, taken);
        served, lost := served + taken, later;
      }
    }

    /** A turn with nothing new arriving, in terms of the outstanding requests. */
    method Turn(ghost rest: seq<Request>)
      returns (status: Status, ghost taken: seq<Request>, ghost later: seq<Request>)
      requires Valid() && queue == Jobs(rest) + [Sentinel]
      modifies this
      ensures Served() && rest == taken + later && Flat(log) == Flat(old(log)) + taken
      ensures status == Serving ==> Valid() && |taken| == Limit() && queue == Jobs(later) + [Sentinel]
      ensures status != Serving ==> taken == [] && |rest| < Limit()
      ensures status == Ended <==> rest == []
      ensures status == Died <==> 0 < |rest| < Limit()
    {
      ghost var items, arrived, logged, waiting := [], [], log, queue;
      status, items, arrived := ServeOnce(_ => []);
      taken, later := TurnTakes(rest, waiting, items, arrived, queue, Limit());
      if status == Serving {
        FlatMore(logged, taken);
      }
    }
  }

  /** Closing the worker with one request outstanding, out of the sixteen that a group may hold:
      the sentinel joins its group, and it is never answered. */
  method StrandedRequest(engine: Engine, db: Db, r: Request) returns (status: Status, answers: seq<Answer>)
    ensures status == Died && answers == []
  {
    var g := new GroupReference(engine, db, 16);
    g.Put(Job(r));
    ghost var served, lost;
    status, served, lost := g.Close([r]);
    assert Leftover(1, 16) == 1;
    AnsweredOnceEach(engine, db, g.log);
    answers := g.answers;
  }

  lemma JobsConcat(x: seq<Request>, y: seq<Request>)
    ensures Jobs(x + y) == Jobs(x) + Jobs(y)
  {
  }

  /** What is left of `m` requests when only full groups are taken. */
  function Leftover(m: nat, limit: nat): (r: nat)
    requires limit > 0
    ensures r <= m && r < limit
  {
    if m < limit then m else Leftover(m - limit, limit)
  }

  lemma {:induction false} LeftoverIsRemainder(m: nat, limit: nat)
    requires limit > 0
    ensures Leftover(m, limit) == m % limit
  {
    if m < limit {
      ModSmall(m, limit);
    } else {
      LeftoverIsRemainder(m - limit, limit);
      ModPlus(m - limit, limit);
    }
  }

  /** What is taken from the front of requests with a sentinel behind them. */
  lemma SplitTaken(rest: seq<Request>, taken: seq<Item>, after: seq<Item>)
    requires Jobs(rest) + [Sentinel] == taken + after && taken != []
    ensures Sentinel in taken <==> |taken| == |rest| + 1
    ensures taken[0] == Sentinel <==> rest == []
    ensures Sentinel !in taken ==>
              && |taken| <= |rest| && Requests(taken) == rest[..|taken|]
              && after == Jobs(rest[|taken|..]) + [Sentinel]
  {
    var all, n := Jobs(rest) + [Sentinel], |taken|;
    assert forall i | 0 <= i < n :: taken[i] == all[i];
    assert forall i | 0 <= i < |after| :: after[i] == all[n + i];
    if n == |rest| + 1 { assert taken[|rest|] == Sentinel; }
  }

  /** What one turn takes of requests with a sentinel behind them, when nothing new arrives. */
  lemma TurnTakes(rest: seq<Request>, waiting: seq<Item>, items: seq<Item>, arrived: seq<Item>, after: seq<Item>,
                  limit: nat)
    returns (taken: seq<Request>, later: seq<Request>)
    requires waiting == Jobs(rest) + [Sentinel] && waiting + arrived == items + after && arrived == []
    requires 1 <= |items| <= limit
    requires items[0] != Sentinel ==> |items| == if |waiting| <= limit then |waiting| else limit
    ensures items[0] == Sentinel <==> rest == []
    ensures rest == taken + later
    ensures Sentinel in items ==> |rest| < limit && taken == []
    ensures Sentinel !in items ==>
              |taken| == limit && Requests(items) == taken && after == Jobs(later) + [Sentinel]
  {
    assert waiting + arrived == waiting;
    SplitTaken(rest, items, after);
    taken, later := [], rest;
    if Sentinel !in items {
      taken, later := rest[..limit], rest[limit..];
    }
  }

  lemma JobsOfRequests(items: seq<Item>)
    requires Sentinel !in items
    ensures Jobs(Requests(items)) == items
  {
  }

  function Requests(items: seq<Item>): (r: seq<Request>)
    requires Sentinel !in items
    ensures |r| == |items| && forall i | 0 <= i < |r| :: items[i] == Job(r[i])
  {
    assert forall i | 0 <= i < |items| :: items[i] in items && items[i].Job?;
    seq(|items|, i requires 0 <= i < |items| => items[i].request)
  }
}
