/** DB-API transactions on many connections over the retry protocol: they are strictly
    serializable in commit order, and every preview tells the truth about its serial point.

    A transaction's local bookkeeping is the class in DbApi: what that class guarantees, that
    every prefix of the staged statements was previewed at the read version, is all that a
    step here may rely on.  A begin is a fresh read.  A preview may be answered by any
    replica, however far behind. */
module Serializability {
  import opened Common
  import opened Store
  import C = Client
  import D = DbApi
  import P = Protocol

  datatype Setting = Setting(service: P.Service, compose: seq<D.Statement> -> D.Prepared<Body>)

  /** `start` is a time, `begun` the length of the log then.  A failed transaction can only be
      rolled back, a committing one only be settled.  A transaction is `left` when its connection
      has given it up while its write is unresolved; recovering the write settles it. */
  datatype Tx = Tx(start: nat, begun: nat, version: nat, staged: seq<D.Statement>, observed: set<D.Preview>,
                   committing: bool, failed: bool, left: bool)

  /** The write of a transaction is out, and its fate is not known. */
  predicate Unresolved(t: Tx)
  {
    t.committing && !t.failed
  }

  /** A finished transaction, with its write if it had one. */
  datatype Done = Done(tx: Tx, end: nat, ended: nat, write: Option<Write>)

  datatype World = World(net: P.System, clock: nat, active: map<string, Tx>, done: set<Done>)

  datatype Action =
    | Net(action: P.Action)
    | Begin(session: string)
    | Preview(session: string, preview: D.Preview, at: nat)
    | Restage(session: string, staged: seq<D.Statement>)
    | Fail(session: string)
    | Abandon(session: string)
    | Read(session: string, preview: D.Preview)
    | CommitNothing(session: string)
    | CommitStaged(session: string)

  function Seen(x: Setting, w: World, at: nat): Store.State
    requires at <= |w.net.log|
  {
    At(x.service.engine, x.service.start, w.net.log, at)
  }

  /** The data that the staged statements make of `data`, if they run at all. */
  function View(x: Setting, data: Data, staged: seq<D.Statement>): Option<Data>
  {
    if staged == [] then Some(data)
    else match x.compose(staged)
      case Bad(_) => None
      case Good(body) =>
        match x.service.engine.run(data, body)
        case Ran(after, _, _) => Some(after)
        case RolledBack(_) => None
  }

  /** What a preview showed is what its staged statements make of the data in `s`. */
  ghost predicate Truthful(x: Setting, s: Store.State, p: D.Preview)
  {
    && p.version == s.version
    && View(x, s.data, p.staged).Some?
    && p.response.rows ==
         if p.query.None? then None
         else Some(x.service.engine.ask(View(x, s.data, p.staged).value, p.query.value))
  }

  /** The native connection is free for the transaction's next step. */
  predicate Free(w: World, name: string)
  {
    && name in w.active && !w.active[name].committing && !w.active[name].failed
    && name in w.net.clients && w.net.clients[name].pending.None?
  }

  ghost predicate Enabled(x: Setting, w: World, a: Action)
  {
    match a
    case Net(b) => P.Enabled(x.service, w.net, b) && (b.Prepare? ==> b.session !in w.active)
    case Begin(name) =>
      && name in w.net.clients && w.net.clients[name].pending.None? && name !in w.active
      && P.Now(x.service, w.net).version <= C.MAX_I64
    case Preview(name, p, at) =>
      && Free(w, name) && at <= |w.net.log|
      && p.version == w.active[name].version && Truthful(x, Seen(x, w, at), p)
    case Restage(name, staged) =>
      Free(w, name) && D.EveryPrefixPassed(w.active[name].observed, w.active[name].version, staged)
    case Fail(name) => Free(w, name)
    case Abandon(name) => name in w.active
    case Read(name, p) =>
      && name in w.net.clients && name !in w.active && p.staged == [] && p.query.Some?
      && Truthful(x, P.Now(x.service, w.net), p)
    case CommitNothing(name) => Free(w, name) && w.active[name].staged == []
    case CommitStaged(name) =>
      && Free(w, name) && w.active[name].staged != [] && x.compose(w.active[name].staged).Good?
      && P.Enabled(x.service, w.net, P.Prepare(name, Staged(x, w.active[name])))
  }

  function Staged(x: Setting, t: Tx): Content
    requires x.compose(t.staged).Good?
  {
    Content(t.version, x.compose(t.staged).value)
  }

  /** What a protocol step tells the transaction that waits for it. */
  function Told(x: Setting, w: World, b: P.Action): World
    requires P.Enabled(x.service, w.net, b)
  {
    var net := P.Next(x.service, w.net, b);
    var v := w.(net := net, clock := w.clock + 1);
    if !(b.Deliver? || b.TurnDown?) || b.session !in w.active || !Unresolved(w.active[b.session])
       || net.clients[b.session].pending.Some? then v
    else
      var t := w.active[b.session];
      if b.Deliver? && OutcomeAt(x.service.engine, x.service.start, w.net.log, b.at).code == Applied then
        v.(active := w.active - {b.session},
           done := w.done + {Done(t, w.clock, |w.net.log|, w.net.clients[b.session].pending)})
      else if t.left then
        v.(active := w.active - {b.session})
      else
        v.(active := w.active[b.session := t.(failed := true)])
  }

  function Next(x: Setting, w: World, a: Action): World
    requires Enabled(x, w, a)
  {
    var v := w.(clock := w.clock + 1);
    match a
    case Net(b) => Told(x, w, b)
    case Begin(name) =>
      v.(net := if w.net.clients[name].epoch.None? then P.Next(x.service, w.net, P.Discover(name)) else w.net,
         active := w.active[name := Tx(w.clock, |w.net.log|, P.Now(x.service, w.net).version, [], {},
                                       false, false, false)])
    case Preview(name, p, _) =>
      v.(active := w.active[name := w.active[name].(observed := w.active[name].observed + {p})])
    case Restage(name, staged) => v.(active := w.active[name := w.active[name].(staged := staged)])
    case Fail(name) => v.(active := w.active[name := w.active[name].(failed := true)])
    case Abandon(name) =>
      var t := w.active[name];
      v.(active := if Unresolved(t) then w.active[name := t.(left := true)] else w.active - {name})
    case Read(name, p) =>
      w.(clock := w.clock + 2,
         done := w.done + {Alone(w, p)})
    case CommitNothing(name) =>
      v.(active := w.active - {name}, done := w.done + {Done(w.active[name], w.clock, |w.net.log|, None)})
    case CommitStaged(name) =>
      v.(net := P.Next(x.service, w.net, P.Prepare(name, Staged(x, w.active[name]))),
         active := w.active[name := w.active[name].(committing := true)])
  }

  ghost predicate Starts(x: Setting, w: World)
  {
    P.Starts(x.service, w.net) && w == World(w.net, 0, map[], {})
  }

  ghost predicate Run(x: Setting, run: seq<World>, actions: seq<Action>)
  {
    && |run| == |actions| + 1 && Starts(x, run[0])
    && forall i | 0 <= i < |actions| ::
         Enabled(x, run[i], actions[i]) && run[i + 1] == Next(x, run[i], actions[i])
  }

  // ---------------------------------------------------------------------- the invariant

  /** The transaction began at the log position `begun`, and all it saw is true of the data
      there. */
  ghost predicate Consistent(x: Setting, log: seq<Request>, t: Tx)
  {
    && t.begun <= |log|
    && var then' := At(x.service.engine, x.service.start, log, t.begun);
    && t.version == then'.version
    && D.EveryPrefixPassed(t.observed, t.version, t.staged)
    && forall p | p in t.observed :: Truthful(x, then', p)
  }

  /** A committing transaction's write is the pending one of its connection. */
  ghost predicate Waiting(x: Setting, net: P.System, name: string, t: Tx)
  {
    Unresolved(t) ==>
      && t.staged != [] && x.compose(t.staged).Good?
      && name in net.clients && net.clients[name].pending.Some?
      && net.clients[name].pending.value.content == Staged(x, t)
  }

  /** Position `k` is where the write of `d` took effect. */
  ghost predicate Point(x: Setting, log: seq<Request>, d: Done, k: nat)
  {
    && d.write.Some? && d.tx.begun <= k < d.ended
    && k < |log| && log[k] == Submit(d.write.value)
    && Effective(x.service.engine, x.service.start, log, k)
  }

  ghost predicate Finished(x: Setting, log: seq<Request>, d: Done)
  {
    && Consistent(x, log, d.tx) && d.tx.begun <= d.ended <= |log| && d.tx.start < d.end
    && if d.tx.staged == [] then d.write.None?
       else
         && x.compose(d.tx.staged).Good?
         && d.write.Some? && d.write.value.content == Staged(x, d.tx)
         && exists k :: Point(x, log, d, k)
  }

  /** What ended before `t` started had ended in the log by then. */
  ghost predicate Timely(d: Done, t: Tx)
  {
    d.end < t.start ==> d.ended <= t.begun
  }

  /** The session of a finished write has moved on to later numbers. */
  ghost predicate MovedOn(net: P.System, d: Done)
  {
    d.write.Some? ==>
      && d.write.value.id.session in net.clients
      && d.write.value.id.sequence < net.clients[d.write.value.id.session].sequence
  }

  /** No write is two transactions'. */
  ghost predicate OwnWrites(done: set<Done>)
  {
    forall d, e | d in done && e in done && d.write.Some? && e.write.Some? ::
      d.write.value.id == e.write.value.id ==> d == e
  }

  ghost predicate Inv(x: Setting, w: World)
  {
    && P.Inv(x.service, w.net) && OwnWrites(w.done)
    && (forall d | d in w.done :: MovedOn(w.net, d))
    && (forall n | n in w.active ::
          Consistent(x, w.net.log, w.active[n]) && Waiting(x, w.net, n, w.active[n]) && w.active[n].start < w.clock)
    && (forall d | d in w.done :: Finished(x, w.net.log, d) && d.end < w.clock)
    && (forall d, n | d in w.done && n in w.active :: Timely(d, w.active[n]))
    && (forall d, e | d in w.done && e in w.done :: Timely(d, e.tx))
  }

  lemma InitialInv(x: Setting, w: World)
    requires Starts(x, w)
    ensures Inv(x, w)
  {
    P.InitialInv(x.service, w.net);
  }

  // ------------------------------------------------------------ what a longer log keeps

  lemma ConsistentStays(x: Setting, log: seq<Request>, more: seq<Request>, t: Tx)
    requires Consistent(x, log, t)
    ensures Consistent(x, log + more, t)
  {
    AtPrefix(x.service.engine, x.service.start, log, more, t.begun);
  }

  lemma FinishedStays(x: Setting, log: seq<Request>, more: seq<Request>, d: Done)
    requires Finished(x, log, d)
    ensures Finished(x, log + more, d)
  {
    ConsistentStays(x, log, more, d.tx);
    if d.tx.staged != [] {
      var k :| Point(x, log, d, k);
      AtPrefix(x.service.engine, x.service.start, log, more, k);
      assert Point(x, log + more, d, k);
    }
  }

  /** One revision, one content: a position with the version of another has its data. */
  lemma SameVersion(x: Setting, log: seq<Request>, i: nat, j: nat)
    requires Initial(x.service.start) && i <= |log| && j <= |log|
    requires At(x.service.engine, x.service.start, log, i).version ==
             At(x.service.engine, x.service.start, log, j).version
    ensures At(x.service.engine, x.service.start, log, i).data ==
            At(x.service.engine, x.service.start, log, j).data
  {
    if i <= j {
      VersionIdentifiesData(x.service.engine, x.service.start, log, i, j);
    } else {
      VersionIdentifiesData(x.service.engine, x.service.start, log, j, i);
    }
  }

  /** A write that took effect under a read version did so no earlier than where the version
      was read. */
  lemma EffectAfterBegin(x: Setting, log: seq<Request>, begun: nat, k: nat)
    requires Initial(x.service.start) && begun <= |log|
    requires Effective(x.service.engine, x.service.start, log, k)
    requires log[k].write.content.readVersion == At(x.service.engine, x.service.start, log, begun).version
    ensures begun <= k
    ensures At(x.service.engine, x.service.start, log, k).version ==
            At(x.service.engine, x.service.start, log, begun).version
    ensures At(x.service.engine, x.service.start, log, k).data ==
            At(x.service.engine, x.service.start, log, begun).data
  {
    var e, s0 := x.service.engine, x.service.start;
    VersionBound(e, s0, log, begun);
    VersionBound(e, s0, log, k);
    EffectOf(e, s0, log, k);
    SlotAt(e, s0, log, k);
    Step(e, s0, log, k);
    if k < begun {
      VersionIdentifiesData(e, s0, log, k + 1, begun);
    }
    SameVersion(x, log, k, begun);
  }

  // ------------------------------------------------------------- steps keep the invariant

  /** A step that leaves the log, the net of every other session and every other transaction
      alone. */
  ghost predicate Local(w: World, v: World, name: string)
  {
    && v.net.log == w.net.log && v.clock == w.clock + 1
    && (forall n | n in v.active && n != name :: n in w.active && v.active[n] == w.active[n])
    && (forall n | n in w.net.clients && n != name ::
          n in v.net.clients && v.net.clients[n] == w.net.clients[n])
    && (name in w.net.clients ==>
          name in v.net.clients && w.net.clients[name].sequence <= v.net.clients[name].sequence)
  }

  /** What the step finishes, if anything: the transaction of its session. */
  ghost predicate Finishes(x: Setting, w: World, v: World, name: string, d: Done)
  {
    && name in w.active && name !in v.active
    && d == Done(w.active[name], w.clock, |w.net.log|, d.write) && v.done == w.done + {d}
    && Finished(x, w.net.log, d) && MovedOn(v.net, d)
    && (d.write.Some? ==>
          && name in w.net.clients && d.write == w.net.clients[name].pending
          && d.write.value.id.session == name && d.write.value.id.sequence == w.net.clients[name].sequence)
  }

  lemma LocalInv(x: Setting, w: World, v: World, name: string)
    requires Inv(x, w) && Local(w, v, name) && P.Inv(x.service, v.net)
    requires name in v.active ==>
               && Consistent(x, v.net.log, v.active[name]) && Waiting(x, v.net, name, v.active[name])
               && v.active[name].start < v.clock
               && forall d | d in w.done :: Timely(d, v.active[name])
    requires v.done == w.done || exists d :: Finishes(x, w, v, name, d)
    ensures Inv(x, v)
  {
    forall n | n in v.active && n != name
      ensures Consistent(x, v.net.log, v.active[n]) && Waiting(x, v.net, n, v.active[n]) && v.active[n].start < v.clock
    {
      assert Waiting(x, w.net, n, w.active[n]);
    }
    forall d | d in v.done ensures MovedOn(v.net, d) {
      if d in w.done { assert MovedOn(w.net, d); }
    }
    LocalOwnWrites(x, w, v, name);
    forall d, n | d in v.done && n in v.active ensures Timely(d, v.active[n]) {
      if d in w.done && n != name { assert Timely(d, w.active[n]); }
    }
    forall d, e | d in v.done && e in v.done ensures Timely(d, e.tx) {
      if d in w.done && e !in w.done { assert Timely(d, w.active[name]); }
    }
  }

  lemma LocalOwnWrites(x: Setting, w: World, v: World, name: string)
    requires Inv(x, w)
    requires v.done == w.done || exists d :: Finishes(x, w, v, name, d)
    ensures OwnWrites(v.done)
  {
    forall d, e | d in v.done && e in v.done && d.write.Some? && e.write.Some?
                  && d.write.value.id == e.write.value.id
      ensures d == e
    {
      if d in w.done { assert MovedOn(w.net, d); }
      if e in w.done { assert MovedOn(w.net, e); }
    }
  }

  lemma BeginInv(x: Setting, w: World, name: string)
    requires Inv(x, w) && Enabled(x, w, Begin(name))
    ensures Inv(x, Next(x, w, Begin(name)))
  {
    var v := Next(x, w, Begin(name));
    if w.net.clients[name].epoch.None? {
      P.NextInv(x.service, w.net, P.Discover(name));
    }
    AtEnd(x.service.engine, x.service.start, w.net.log);
    LocalInv(x, w, v, name);
  }

  lemma PreviewInv(x: Setting, w: World, name: string, p: D.Preview, at: nat)
    requires Inv(x, w) && Enabled(x, w, Preview(name, p, at))
    ensures Inv(x, Next(x, w, Preview(name, p, at)))
  {
    var v, t := Next(x, w, Preview(name, p, at)), w.active[name];
    assert Consistent(x, w.net.log, t);
    SameVersion(x, w.net.log, at, t.begun);
    forall k | 1 <= k <= |t.staged| ensures D.Passed(t.observed + {p}, t.version, t.staged[..k]) {
      assert D.Passed(t.observed, t.version, t.staged[..k]);
    }
    LocalInv(x, w, v, name);
  }

  /** A query in autocommit, as a transaction. */
  function Alone(w: World, p: D.Preview): Done
  {
    Done(Tx(w.clock, |w.net.log|, p.version, [], {p}, false, false, false), w.clock + 1, |w.net.log|, None)
  }

  lemma AloneFinished(x: Setting, w: World, p: D.Preview)
    requires p.staged == [] && Truthful(x, P.Now(x.service, w.net), p)
    ensures Finished(x, w.net.log, Alone(w, p))
  {
    AtEnd(x.service.engine, x.service.start, w.net.log);
  }

  /** A reader that begins now: what is on time for it, and for what it is on time. */
  lemma ReaderIsTimely(done: set<Done>, active: map<string, Tx>, clock: nat, length: nat, d: Done)
    requires forall e | e in done :: e.tx.start < e.end < clock && e.ended <= length
    requires forall n | n in active :: active[n].start < clock
    requires d.tx.start == clock <= d.end && d.tx.begun == length
    ensures Timely(d, d.tx) && (forall e | e in done :: Timely(e, d.tx) && Timely(d, e.tx))
    ensures forall n | n in active :: Timely(d, active[n])
  {
  }

  lemma AddReader(x: Setting, w: World, v: World, d: Done)
    requires Inv(x, w) && v == w.(clock := v.clock, done := w.done + {d}) && w.clock <= d.end < v.clock
    requires Finished(x, w.net.log, d) && d.write.None? && d.tx.start == w.clock && d.tx.begun == |w.net.log|
    ensures Inv(x, v)
  {
    assert forall e | e in w.done :: e.tx.start < e.end < w.clock && e.ended <= |w.net.log| by {
      forall e | e in w.done ensures e.tx.start < e.end && e.ended <= |w.net.log| {
        assert Finished(x, w.net.log, e);
      }
    }
    ReaderIsTimely(w.done, w.active, w.clock, |w.net.log|, d);
    ReaderOwnsNothing(w.net, w.done, d);
    forall e | e in v.done ensures Finished(x, v.net.log, e) && e.end < v.clock {
    }
    forall e, n | e in v.done && n in v.active ensures Timely(e, v.active[n]) {
      assert e == d || e in w.done;
    }
    forall e, f | e in v.done && f in v.done ensures Timely(e, f.tx) {
      assert (e == d || e in w.done) && (f == d || f in w.done);
    }
  }

  lemma ReaderOwnsNothing(net: P.System, done: set<Done>, d: Done)
    requires OwnWrites(done) && d.write.None? && forall e | e in done :: MovedOn(net, e)
    ensures OwnWrites(done + {d}) && forall e | e in done + {d} :: MovedOn(net, e)
  {
  }

  lemma ReadInv(x: Setting, w: World, name: string, p: D.Preview)
    requires Inv(x, w) && Enabled(x, w, Read(name, p))
    ensures Inv(x, Next(x, w, Read(name, p)))
  {
    AloneFinished(x, w, p);
    AddReader(x, w, Next(x, w, Read(name, p)), Alone(w, p));
  }

  lemma CommitNothingInv(x: Setting, w: World, name: string)
    requires Inv(x, w) && Enabled(x, w, CommitNothing(name))
    ensures Inv(x, Next(x, w, CommitNothing(name)))
  {
    var v := Next(x, w, CommitNothing(name));
    var d := Done(w.active[name], w.clock, |w.net.log|, None);
    assert Consistent(x, w.net.log, w.active[name]);
    assert Finished(x, w.net.log, d);
    assert Finishes(x, w, v, name, d);
    LocalInv(x, w, v, name);
  }

  lemma CommitStagedInv(x: Setting, w: World, name: string)
    requires Inv(x, w) && Enabled(x, w, CommitStaged(name))
    ensures Inv(x, Next(x, w, CommitStaged(name)))
  {
    var v := Next(x, w, CommitStaged(name));
    P.NextInv(x.service, w.net, P.Prepare(name, Staged(x, w.active[name])));
    assert Consistent(x, w.net.log, w.active[name]);
    LocalInv(x, w, v, name);
  }

  /** An acknowledged commit took effect, at a position between begin and acknowledgement. */
  lemma AcknowledgedPoint(x: Setting, w: World, name: string, at: nat)
    requires Inv(x, w) && P.Enabled(x.service, w.net, P.Deliver(name, at))
    requires name in w.active && Unresolved(w.active[name])
    requires OutcomeAt(x.service.engine, x.service.start, w.net.log, at).code == Applied
    ensures Finished(x, w.net.log, Done(w.active[name], w.clock, |w.net.log|, w.net.clients[name].pending))
  {
    var t, log := w.active[name], w.net.log;
    var d := Done(t, w.clock, |log|, w.net.clients[name].pending);
    assert Consistent(x, log, t) && Waiting(x, w.net, name, t);
    var k := AppliedMeansEffect(x.service.engine, x.service.start, log, at);
    EffectAfterBegin(x, log, t.begun, k);
    assert Point(x, log, d, k);
  }

  /** An answer reaches one client only, whose number does not go back. */
  lemma AnswerIsLocal(v: P.Service, s: P.System, b: P.Action)
    requires P.Enabled(v, s, b) && (b.Deliver? || b.TurnDown?)
    ensures var t := P.Next(v, s, b);
            && t.log == s.log && t.clients.Keys == s.clients.Keys && b.session in s.clients
            && s.clients[b.session].sequence <= t.clients[b.session].sequence
            && forall n | n in s.clients && n != b.session :: t.clients[n] == s.clients[n]
  {
  }

  lemma ToldLocal(x: Setting, w: World, b: P.Action)
    requires Enabled(x, w, Net(b)) && (b.Deliver? || b.TurnDown?)
    ensures Local(w, Told(x, w, b), b.session) && Told(x, w, b).net == P.Next(x.service, w.net, b)
  {
    AnswerIsLocal(x.service, w.net, b);
  }

  lemma ToldWaiting(x: Setting, w: World, b: P.Action)
    requires Inv(x, w) && Enabled(x, w, Net(b)) && (b.Deliver? || b.TurnDown?)
    requires b.session in Told(x, w, b).active
    ensures var v := Told(x, w, b);
            && v.done == w.done && b.session in w.active
            && v.active[b.session].(failed := false) == w.active[b.session].(failed := false)
            && Waiting(x, v.net, b.session, v.active[b.session])
  {
    assert Waiting(x, w.net, b.session, w.active[b.session]);
  }

  lemma ToldFinishes(x: Setting, w: World, b: P.Action)
    requires Inv(x, w) && Enabled(x, w, Net(b)) && (b.Deliver? || b.TurnDown?)
    requires b.session in w.active && b.session !in Told(x, w, b).active
    ensures Told(x, w, b).done == w.done || exists d :: Finishes(x, w, Told(x, w, b), b.session, d)
  {
    var name, v := b.session, Told(x, w, b);
    if v.done != w.done {
      AcknowledgedPoint(x, w, name, b.at);
      assert P.GoodClient(P.Now(x.service, w.net), name, w.net.clients[name]);
      assert Finishes(x, w, v, name, Done(w.active[name], w.clock, |w.net.log|, w.net.clients[name].pending));
    }
  }

  lemma ToldInv(x: Setting, w: World, b: P.Action)
    requires Inv(x, w) && Enabled(x, w, Net(b)) && (b.Deliver? || b.TurnDown?)
    ensures Inv(x, Told(x, w, b))
  {
    var v, name := Told(x, w, b), b.session;
    ToldLocal(x, w, b);
    P.NextInv(x.service, w.net, b);
    if name in v.active {
      ToldWaiting(x, w, b);
      assert Consistent(x, w.net.log, w.active[name]);
    } else if name in w.active {
      ToldFinishes(x, w, b);
    }
    LocalInv(x, w, v, name);
  }

  lemma OrderInv(x: Setting, w: World, r: Request, door: nat)
    requires Inv(x, w) && Enabled(x, w, Net(P.Order(r, door)))
    ensures Inv(x, Told(x, w, P.Order(r, door)))
  {
    var v := Told(x, w, P.Order(r, door));
    P.NextInv(x.service, w.net, P.Order(r, door));
    forall n | n in v.active
      ensures Consistent(x, v.net.log, v.active[n]) && Waiting(x, v.net, n, v.active[n])
    {
      ConsistentStays(x, w.net.log, [r], w.active[n]);
      assert Waiting(x, w.net, n, w.active[n]);
    }
    forall d | d in v.done ensures Finished(x, v.net.log, d) && MovedOn(v.net, d) {
      assert MovedOn(w.net, d);
      FinishedStays(x, w.net.log, [r], d);
    }
  }

  /** The remaining protocol steps: none of them moves a pending write. */
  lemma QuietInv(x: Setting, w: World, b: P.Action)
    requires Inv(x, w) && Enabled(x, w, Net(b)) && (b.Open? || b.Discover? || b.Prepare? || b.Send?)
    ensures Inv(x, Told(x, w, b))
  {
    var v := Told(x, w, b);
    P.NextInv(x.service, w.net, b);
    if b.session in w.active {
      assert Consistent(x, w.net.log, w.active[b.session]) && Waiting(x, w.net, b.session, w.active[b.session]);
    }
    LocalInv(x, w, v, b.session);
  }

  lemma BookkeepingInv(x: Setting, w: World, a: Action)
    requires Inv(x, w) && Enabled(x, w, a) && (a.Restage? || a.Fail? || a.Abandon?)
    ensures Inv(x, Next(x, w, a))
  {
    assert Consistent(x, w.net.log, w.active[a.session]) && Waiting(x, w.net, a.session, w.active[a.session]);
    LocalInv(x, w, Next(x, w, a), a.session);
  }

  lemma NextInv(x: Setting, w: World, a: Action)
    requires Inv(x, w) && Enabled(x, w, a)
    ensures Inv(x, Next(x, w, a))
  {
    match a
    case Net(b) =>
      if b.Order? { OrderInv(x, w, b.request, b.door); }
      else if b.Deliver? || b.TurnDown? { ToldInv(x, w, b); }
      else { QuietInv(x, w, b); }
    case Begin(name) => BeginInv(x, w, name);
    case Preview(name, p, at) => PreviewInv(x, w, name, p, at);
    case Read(name, p) => ReadInv(x, w, name, p);
    case CommitNothing(name) => CommitNothingInv(x, w, name);
    case CommitStaged(name) => CommitStagedInv(x, w, name);
    case _ => BookkeepingInv(x, w, a);
  }

  lemma {:induction false} RunInv(x: Setting, run: seq<World>, actions: seq<Action>, i: nat)
    requires Run(x, run, actions) && i < |run|
    ensures Inv(x, run[i])
  {
    if i == 0 {
      InitialInv(x, run[0]);
    } else {
      RunInv(x, run, actions, i - 1);
      NextInv(x, run[i - 1], actions[i - 1]);
    }
  }

  // --------------------------------------------------------- the serial history of a log

  /** The bodies that took effect before position `p`, in log order. */
  ghost function Bodies(x: Setting, log: seq<Request>, p: nat): seq<Body>
    requires p <= |log|
  {
    if p == 0 then []
    else Bodies(x, log, p - 1) +
         (if Effective(x.service.engine, x.service.start, log, p - 1) then [log[p - 1].write.content.body] else [])
  }

  /** One body after the other, nothing else: no revisions, no sessions, no retries. */
  function Serial(e: Engine, data: Data, bodies: seq<Body>): Option<Data>
  {
    if bodies == [] then Some(data)
    else match Serial(e, data, bodies[..|bodies| - 1])
      case None => None
      case Some(before) =>
        match e.run(before, bodies[|bodies| - 1])
        case Ran(after, _, deferred) => if deferred then None else Some(after)
        case RolledBack(_) => None
  }

  lemma {:induction false} LogIsSerial(x: Setting, log: seq<Request>, p: nat)
    requires p <= |log|
    ensures Serial(x.service.engine, x.service.start.data, Bodies(x, log, p)) ==
            Some(At(x.service.engine, x.service.start, log, p).data)
  {
    if p > 0 {
      LogIsSerial(x, log, p - 1);
      EffectOf(x.service.engine, x.service.start, log, p - 1);
      var before, all := Bodies(x, log, p - 1), Bodies(x, log, p);
      if Effective(x.service.engine, x.service.start, log, p - 1) {
        assert all[..|all| - 1] == before;
      } else {
        assert all == before;
      }
    }
  }

  // -------------------------------------------------------------------- what runs promise

  /** The serial point of a finished transaction: where its write took effect, or where it
      began if it has none. */
  ghost predicate PointOf(x: Setting, log: seq<Request>, d: Done, k: nat)
  {
    if d.write.Some? then Point(x, log, d, k) else k == d.tx.begun
  }

  /** Position `k` is a serial point of the transaction: running the bodies committed before it
      one by one gives a database of which every preview told the truth, and if the transaction
      writes its own body is the next. */
  ghost predicate SerialAt(x: Setting, log: seq<Request>, t: Tx, writes: bool, k: nat)
  {
    && t.begun <= k <= |log|
    && var before := Bodies(x, log, k);
    && var then' := Serial(x.service.engine, x.service.start.data, before);
    && then'.Some?
    && (forall p | p in t.observed ::
          && View(x, then'.value, p.staged).Some?
          && p.response.rows ==
               if p.query.None? then None
               else Some(x.service.engine.ask(View(x, then'.value, p.staged).value, p.query.value)))
    && (writes ==>
          && k < |log| && x.compose(t.staged).Good?
          && Bodies(x, log, k + 1) == before + [x.compose(t.staged).value]
          && Serial(x.service.engine, x.service.start.data, Bodies(x, log, k + 1)) ==
               View(x, then'.value, t.staged))
  }

  lemma ReadsSerially(x: Setting, log: seq<Request>, t: Tx)
    requires Initial(x.service.start) && Consistent(x, log, t)
    ensures SerialAt(x, log, t, false, t.begun)
  {
    LogIsSerial(x, log, t.begun);
    forall p | p in t.observed ensures Truthful(x, At(x.service.engine, x.service.start, log, t.begun), p) {
    }
  }

  lemma WritesSerially(x: Setting, log: seq<Request>, t: Tx, k: nat)
    requires Initial(x.service.start) && Consistent(x, log, t) && t.staged != [] && x.compose(t.staged).Good?
    requires Effective(x.service.engine, x.service.start, log, k) && log[k].write.content == Staged(x, t)
    ensures SerialAt(x, log, t, true, k)
  {
    EffectAfterBegin(x, log, t.begun, k);
    EffectOf(x.service.engine, x.service.start, log, k);
    LogIsSerial(x, log, k);
    LogIsSerial(x, log, k + 1);
    forall p | p in t.observed ensures Truthful(x, At(x.service.engine, x.service.start, log, t.begun), p) {
    }
  }

  /** Every finished transaction has exactly one serial point, within its own lifetime. */
  lemma StrictlySerializable(x: Setting, run: seq<World>, actions: seq<Action>, i: nat, d: Done) returns (k: nat)
    requires Run(x, run, actions) && i < |run| && d in run[i].done
    ensures d.tx.begun <= k <= d.ended && k <= |run[i].net.log|
    ensures forall j: nat :: PointOf(x, run[i].net.log, d, j) <==> j == k
    ensures SerialAt(x, run[i].net.log, d.tx, d.write.Some?, k)
  {
    RunInv(x, run, actions, i);
    var log := run[i].net.log;
    assert Finished(x, log, d);
    if d.write.None? {
      k := d.tx.begun;
      ReadsSerially(x, log, d.tx);
    } else {
      k :| Point(x, log, d, k);
      WritesSerially(x, log, d.tx, k);
      forall j: nat | Point(x, log, d, j) ensures j == k {
        AtMostOnce(x.service.engine, x.service.start, log, j, k);
      }
    }
  }

  lemma {:induction false} LogIsPrefix(x: Setting, run: seq<World>, actions: seq<Action>, i: nat, j: nat)
    requires Run(x, run, actions) && i <= j < |run|
    ensures run[i].net.log <= run[j].net.log
  {
    if i < j {
      LogIsPrefix(x, run, actions, i, j - 1);
      LogGrows(x, run[j - 1], actions[j - 1]);
    }
  }

  lemma LogGrows(x: Setting, w: World, a: Action)
    requires Enabled(x, w, a)
    ensures w.net.log <= Next(x, w, a).net.log
  {
  }

  /** The write that `name` waits for takes effect at position `k` of `log`. */
  ghost predicate TakesEffect(x: Setting, w: World, name: string, log: seq<Request>, k: nat)
  {
    && name in w.active && Unresolved(w.active[name])
    && name in w.net.clients && w.net.clients[name].pending.Some?
    && Effective(x.service.engine, x.service.start, log, k)
    && log[k] == Submit(w.net.clients[name].pending.value)
  }

  /** A transaction that has sent its commit has one serial point as soon as its write takes
      effect, whether or not anybody ever learns of it: its connection may be closed or lost,
      and its write recovered much later or never. */
  lemma UnresolvedIsSerial(x: Setting, run: seq<World>, actions: seq<Action>, i: nat, j: nat, name: string, k: nat)
    requires Run(x, run, actions) && i <= j < |run| && TakesEffect(x, run[i], name, run[j].net.log, k)
    ensures SerialAt(x, run[j].net.log, run[i].active[name], true, k)
    ensures forall m: nat | TakesEffect(x, run[i], name, run[j].net.log, m) :: m == k
  {
    RunInv(x, run, actions, i);
    LogIsPrefix(x, run, actions, i, j);
    var before, log := run[i].net.log, run[j].net.log;
    assert log == before + log[|before|..];
    EffectOfWaiting(x, run[i], name, log[|before|..], k);
    forall m: nat | TakesEffect(x, run[i], name, log, m) ensures m == k {
      AtMostOnce(x.service.engine, x.service.start, log, m, k);
    }
  }

  lemma EffectOfWaiting(x: Setting, w: World, name: string, more: seq<Request>, k: nat)
    requires Inv(x, w) && TakesEffect(x, w, name, w.net.log + more, k)
    ensures SerialAt(x, w.net.log + more, w.active[name], true, k)
  {
    assert Consistent(x, w.net.log, w.active[name]) && Waiting(x, w.net, name, w.active[name]);
    ConsistentStays(x, w.net.log, more, w.active[name]);
    WritesSerially(x, w.net.log + more, w.active[name], k);
  }

  /** Its point comes after those of all transactions that had ended when it began. */
  lemma UnresolvedInRealTime(x: Setting, run: seq<World>, actions: seq<Action>, i: nat, j: nat, name: string, k: nat,
                             d: Done, m: nat)
    requires Run(x, run, actions) && i <= j < |run| && TakesEffect(x, run[i], name, run[j].net.log, k)
    requires d in run[i].done && PointOf(x, run[i].net.log, d, m) && d.end < run[i].active[name].start
    ensures m < k || (m == k && d.write.None?)
  {
    RunInv(x, run, actions, i);
    assert Finished(x, run[i].net.log, d) && Timely(d, run[i].active[name]);
    UnresolvedIsSerial(x, run, actions, i, j, name, k);
  }

  /** The order of the serial points respects real time: what had ended before another
      transaction began comes first, or both only read and the first saw no later state.
      Two writing transactions never share a point. */
  lemma RealTimeOrder(x: Setting, run: seq<World>, actions: seq<Action>, i: nat, d: Done, e: Done, j: nat, k: nat)
    requires Run(x, run, actions) && i < |run| && d in run[i].done && e in run[i].done
    requires PointOf(x, run[i].net.log, d, j) && PointOf(x, run[i].net.log, e, k)
    ensures d.end < e.tx.start ==> j < k || (j == k && d.write.None?)
    ensures d.write.Some? && e.write.Some? && j == k ==> d == e
  {
    RunInv(x, run, actions, i);
    assert Finished(x, run[i].net.log, d) && Finished(x, run[i].net.log, e);
    assert Timely(d, e.tx);
  }

  /** A commit whose staged statements were all previewed can only be applied, find another
      revision, or fail a deferred foreign key: no other constraint, policy or SQL error. */
  lemma CommitOfPreviewed(x: Setting, run: seq<World>, actions: seq<Action>, i: nat, name: string, k: nat)
    requires Run(x, run, actions) && i < |run| && name in run[i].active
    requires Unresolved(run[i].active[name])
    requires name in run[i].net.clients && run[i].net.clients[name].pending.Some?
    requires k < |run[i].net.log| && run[i].net.log[k] == Submit(run[i].net.clients[name].pending.value)
    requires Lookup(x.service.engine, Seen(x, run[i], k), run[i].net.log[k].write) == Store.Run
    ensures var t := run[i].active[name];
            var code := OutcomeAt(x.service.engine, x.service.start, run[i].net.log, k).code;
            && x.compose(t.staged).Good? && t.begun <= |run[i].net.log|
            && var preview := x.service.engine.run(Seen(x, run[i], t.begun).data, x.compose(t.staged).value);
            && preview.Ran?
            && (code == Conflict <==> Seen(x, run[i], k).version != t.version)
            && (code == Constraint <==> Seen(x, run[i], k).version == t.version && preview.deferred)
            && (code == Applied <==> Seen(x, run[i], k).version == t.version && !preview.deferred)
  {
    RunInv(x, run, actions, i);
    var t, log := run[i].active[name], run[i].net.log;
    assert Consistent(x, log, t) && Waiting(x, run[i].net, name, t);
    assert t.staged[..|t.staged|] == t.staged;
    assert D.Passed(t.observed, t.version, t.staged[..|t.staged|]);
    VersionBound(x.service.engine, x.service.start, log, t.begun);
    if Seen(x, run[i], k).version == t.version {
      SameVersion(x, log, k, t.begun);
    }
  }

  function Last(run: seq<World>): World
    requires run != []
  {
    run[|run| - 1]
  }

  lemma Extend(x: Setting, run: seq<World>, actions: seq<Action>, a: Action) returns (longer: seq<World>)
    requires Run(x, run, actions) && Enabled(x, Last(run), a)
    ensures |longer| == |run| + 1 && Last(longer) == Next(x, Last(run), a)
    ensures Run(x, longer, actions + [a])
  {
    longer := run + [Next(x, Last(run), a)];
  }

  /** An engine for which every body leaves a deferred key violated. */
  function Deferring(data: Data, body: Body, rows: Rows): Setting
  {
    var engine := Engine((d, b) => Ran(data, 1, true), (d, q) => rows, 1);
    Setting(P.Service(engine, State(data, 1, 0, map[], 0), (door, w) => true), s => D.Good(body))
  }

  function Owned(pending: Option<Write>, sent: set<Write>, log: seq<Request>): P.System
  {
    P.System(log, sent, map["a" := C.Retry(1, Some(0), pending)], {})
  }

  lemma PreviewedRun(data: Data, body: Body, rows: Rows, p: D.Preview) returns (run: seq<World>, actions: seq<Action>)
    requires p.version == 1 && p.query == None && p.response.rows == None
    ensures var x := Deferring(data, body, rows);
            && Run(x, run, actions)
            && Last(run) == World(Owned(None, {}, []), 3, map["a" := Tx(1, 0, 1, [], {p}, false, false, false)], {})
  {
    var x := Deferring(data, body, rows);
    run, actions := [World(P.System([], {}, map[], {}), 0, map[], {})], [];
    run := Extend(x, run, actions, Net(P.Open("a")));
    actions := [Net(P.Open("a"))];
    run := Extend(x, run, actions, Begin("a"));
    actions := actions + [Begin("a")];
    assert Last(run) == World(Owned(None, {}, []), 2, map["a" := Tx(1, 0, 1, [], {}, false, false, false)], {});
    run := Extend(x, run, actions, Preview("a", p, 0));
    actions := actions + [Preview("a", p, 0)];
    assert Last(run).active["a"] == Tx(1, 0, 1, [], {p}, false, false, false);
  }

  lemma StagedRun(data: Data, body: Body, rows: Rows, p: D.Preview, statement: D.Statement)
    returns (run: seq<World>, actions: seq<Action>)
    requires p == D.Preview(1, [statement], None, p.response) && p.response.rows == None
    ensures D.EveryPrefixPassed({p}, 1, [statement])
    ensures var x := Deferring(data, body, rows);
            && Run(x, run, actions)
            && Last(run) == World(Owned(None, {}, []), 4,
                                  map["a" := Tx(1, 0, 1, [statement], {p}, false, false, false)], {})
  {
    var x := Deferring(data, body, rows);
    run, actions := PreviewedRun(data, body, rows, p);
    assert [statement][..1] == [statement] && p in {p};
    assert D.EveryPrefixPassed({p}, 1, [statement]);
    run := Extend(x, run, actions, Restage("a", [statement]));
    actions := actions + [Restage("a", [statement])];
  }

  lemma SentRun(data: Data, body: Body, rows: Rows, p: D.Preview, statement: D.Statement)
    returns (run: seq<World>, actions: seq<Action>)
    requires p == D.Preview(1, [statement], None, p.response) && p.response.rows == None
    ensures D.EveryPrefixPassed({p}, 1, [statement])
    ensures var x := Deferring(data, body, rows);
            var w := Write(Identity("a", 0, 1), Content(1, body));
            && Run(x, run, actions)
            && Last(run) == World(Owned(Some(w), {w}, []), 6,
                                  map["a" := Tx(1, 0, 1, [statement], {p}, true, false, false)], {})
  {
    var x := Deferring(data, body, rows);
    run, actions := StagedRun(data, body, rows, p, statement);
    run := Extend(x, run, actions, CommitStaged("a"));
    actions := actions + [CommitStaged("a")];
    run := Extend(x, run, actions, Net(P.Send("a")));
    actions := actions + [Net(P.Send("a"))];
  }

  /** The deferred case happens: a run in which the only staged statement was previewed with
      success and its commit, in an unchanged database, is answered Constraint. */
  lemma DeferredKeyFailsCommit(data: Data, body: Body, statement: D.Statement, rows: Rows, response: C.Response)
    returns (x: Setting, run: seq<World>, actions: seq<Action>)
    requires response.rows == None
    ensures Run(x, run, actions) && run != []
    ensures var w := Last(run);
            && "a" in w.active && w.active["a"].staged == [statement] && w.active["a"].committing
            && D.EveryPrefixPassed(w.active["a"].observed, w.active["a"].version, [statement])
            && |w.net.log| == 1 && "a" in w.net.clients && w.net.clients["a"].pending.Some?
            && w.net.log[0] == Submit(w.net.clients["a"].pending.value)
            && Seen(x, w, 0).version == w.active["a"].version
            && OutcomeAt(x.service.engine, x.service.start, w.net.log, 0).code == Constraint
  {
    x := Deferring(data, body, rows);
    run, actions := SentRun(data, body, rows, D.Preview(1, [statement], None, response), statement);
    var write := Write(Identity("a", 0, 1), Content(1, body));
    run := Extend(x, run, actions, Net(P.Order(Submit(write), 0)));
    actions := actions + [Net(P.Order(Submit(write), 0))];
    assert Last(run).net.log == [Submit(write)] && Last(run).net.log[..0] == [];
  }
}
